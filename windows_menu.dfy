/**
 * The Windows back end's menu construction (src/sys/windows/mod.rs). The
 * file still uses the older names of the item variants, which map onto
 * the menu tree as: `ChildMenu` is a Submenu, `CheckableItem` a
 * Checkable, and an item's `event` is its id.
 *
 * Only leaf items (Item and Checkable) take a number from the shared
 * counter; separators and child menus do not. Each number keys the
 * item's event in the `events` map and is the command id of its native
 * menu entry. A native popup menu is modelled by the entries appended to
 * it, in order.
 */
module WindowsMenu {
  import opened Wrappers
  import opened Errors
  import opened Icons
  import opened Sender
  import opened MenuBuilders
  import opened TrayIconBuilders
  import opened Numbering

  /** One append to a native popup menu, with what it was given. */
  datatype MenuEntry =
    | MenuItemEntry(name: string, id: nat, disabled: bool)
    | CheckableEntry(name: string, isChecked: bool, id: nat, disabled: bool)
    | ChildMenuEntry(name: string, menu: WinHMenu, disabled: bool)
    | SeparatorEntry

  /** A native popup menu: the entries appended to it so far. */
  datatype WinHMenu = WinHMenu(entries: seq<MenuEntry>)
  {
    function Append(e: MenuEntry): (r: WinHMenu)
      ensures r.entries == entries + [e]
    {
      WinHMenu(entries + [e])
    }
  }

  datatype MenuSys<T> = MenuSys(events: map<nat, T>, menu: WinHMenu)

  // ---------------------------------------------------------------------
  // Reference definitions
  // ---------------------------------------------------------------------

  /** The events of the leaf items, in pre-order: the order the counter reaches them. */
  function ItemLeaves<T>(item: MenuItem<T>): seq<T>
    decreases item
  {
    match item
    case Separator => []
    case Item(id, _, _, _) => [id]
    case Checkable(id, _, _, _, _) => [id]
    case Submenu(_, _, children, _, _) => Leaves(children.menuItems)
  }

  function Leaves<T>(items: seq<MenuItem<T>>): seq<T>
    decreases items
  {
    if items == [] then [] else Leaves(items[..|items| - 1]) + ItemLeaves(items[|items| - 1])
  }

  /** The entry appended for `item` when the counter stands at `j`. */
  function Entry<T>(j: nat, item: MenuItem<T>): MenuEntry
    decreases item, 1
  {
    match item
    case Separator => SeparatorEntry
    case Item(_, name, disabled, _) => MenuItemEntry(name, j + 1, disabled)
    case Checkable(_, name, checked, disabled, _) => CheckableEntry(name, checked, j + 1, disabled)
    case Submenu(_, name, children, disabled, _) => ChildMenuEntry(name, HMenu(j, children.menuItems), disabled)
  }

  /** The native menu built for a level whose first leaf takes number `j + 1`. */
  function HMenu<T>(j: nat, items: seq<MenuItem<T>>): WinHMenu
    decreases items, 0
  {
    if items == [] then WinHMenu([])
    else
      var init := items[..|items| - 1];
      HMenu(j, init).Append(Entry(j + |Leaves(init)|, items[|items| - 1]))
  }

  // ---------------------------------------------------------------------
  // The construction as written
  // ---------------------------------------------------------------------

  /**
   * `build_menu_inner`: one pass over the items, each handled by the closure
   * given to `for_each` (`AddItem`), which shares the counter, the map and
   * the native menu under construction.
   */
  method BuildMenuInner<T>(j: nat, builder: MenuBuilder<T>) returns (r: Result<MenuSys<T>, Error>, j': nat)
    ensures r == Ok(MenuSys(Indexed(j, Leaves(builder.menuItems)), HMenu(j, builder.menuItems)))
    ensures j' == j + |Leaves(builder.menuItems)|
    decreases builder
  {
    var items := builder.menuItems;
    var hmenu := WinHMenu([]);
    var events: map<nat, T> := map[];
    j' := j;
    ghost var leaves: seq<T> := [];
    var k := 0;
    while k < |items|
      invariant 0 <= k <= |items|
      invariant leaves == Leaves(items[..k])
      invariant events == Indexed(j, leaves)
      invariant hmenu == HMenu(j, items[..k])
      invariant j' == j + |leaves|
    {
      HMenuStep(j, items, k);
      ghost var more := ItemLeaves(items[k]);
      IndexedAppend(j, leaves, more);
      j', events, hmenu := AddItem(items[k], j', events, hmenu);
      leaves := leaves + more;
      k := k + 1;
    }
    assert items[..k] == items;
    r := Ok(MenuSys(events, hmenu));
  }

  /**
   * The `for_each` closure of `build_menu_inner`: a leaf advances the counter
   * and is entered in the map under the new value; a child menu is built
   * recursively, its map merged in and its native menu appended; a separator
   * only appends a separator.
   */
  method AddItem<T>(item: MenuItem<T>, j: nat, events: map<nat, T>, hmenu: WinHMenu)
    returns (j': nat, events': map<nat, T>, hmenu': WinHMenu)
    ensures j' == j + |ItemLeaves(item)|
    ensures events' == events + Indexed(j, ItemLeaves(item))
    ensures hmenu' == hmenu.Append(Entry(j, item))
    decreases item
  {
    j', events', hmenu' := j, events, hmenu;
    match item {
      case Submenu(_, name, children, disabled, _) =>
        var sub;
        sub, j' := BuildMenuInner(j', children);
        if sub.Ok? {
          events' := events' + sub.value.events;
          hmenu' := hmenu'.Append(ChildMenuEntry(name, sub.value.menu, disabled));
        }
      case Checkable(id, name, isChecked, disabled, _) =>
        j' := j' + 1;
        IndexedOne(j, id);
        events' := events'[j' := id];
        hmenu' := hmenu'.Append(CheckableEntry(name, isChecked, j', disabled));
      case Item(id, name, disabled, _) =>
        j' := j' + 1;
        IndexedOne(j, id);
        events' := events'[j' := id];
        hmenu' := hmenu'.Append(MenuItemEntry(name, j', disabled));
      case Separator =>
        assert events' + Indexed(j, []) == events';
        hmenu' := hmenu'.Append(SeparatorEntry);
    }
  }

  /** `build_menu`: the counter starts at 0, so the leaves are numbered from 1. */
  method BuildMenu<T>(builder: MenuBuilder<T>) returns (r: Result<MenuSys<T>, Error>)
    ensures r == Ok(MenuSys(Indexed(0, Leaves(builder.menuItems)), HMenu(0, builder.menuItems)))
  {
    var j;
    r, j := BuildMenuInner(0, builder);
  }

  // ---------------------------------------------------------------------
  // What the construction promises
  // ---------------------------------------------------------------------

  /** One more item: its leaves and its entry go after those of the items before it. */
  lemma HMenuStep<T>(j: nat, items: seq<MenuItem<T>>, k: nat)
    requires k < |items|
    ensures Leaves(items[..k + 1]) == Leaves(items[..k]) + ItemLeaves(items[k])
    ensures HMenu(j, items[..k + 1]) == HMenu(j, items[..k]).Append(Entry(j + |Leaves(items[..k])|, items[k]))
  {
    assert items[..k + 1][..k] == items[..k];
  }

  /** The command ids of the leaf entries of a native menu, child menus included, in pre-order. */
  function MenuIds(m: WinHMenu): seq<nat>
    decreases m
  {
    EntriesIds(m.entries)
  }

  function EntriesIds(es: seq<MenuEntry>): seq<nat>
    decreases es
  {
    if es == [] then [] else EntriesIds(es[..|es| - 1]) + EntryIds(es[|es| - 1])
  }

  function EntryIds(e: MenuEntry): seq<nat>
    decreases e
  {
    match e
    case MenuItemEntry(_, id, _) => [id]
    case CheckableEntry(_, _, id, _) => [id]
    case ChildMenuEntry(_, menu, _) => MenuIds(menu)
    case SeparatorEntry => []
  }

  /** `j + 1`, ..., `j + n`. */
  function Range(j: nat, n: nat): (r: seq<nat>)
    ensures |r| == n && forall i :: 0 <= i < n ==> r[i] == j + 1 + i
  {
    if n == 0 then [] else Range(j, n - 1) + [j + n]
  }

  lemma RangeSplit(j: nat, a: nat, b: nat)
    ensures Range(j, a + b) == Range(j, a) + Range(j + a, b)
  {
    var l := Range(j, a + b);
    var r := Range(j, a) + Range(j + a, b);
    assert forall i :: 0 <= i < a + b ==> l[i] == r[i];
  }

  /**
   * The native entries carry the numbers `j + 1`, ..., `j + k` in pre-order,
   * k the number of leaves, so the i-th leaf entry's id keys the i-th leaf's
   * event in the map.
   */
  lemma {:induction false} HMenuIds<T>(j: nat, items: seq<MenuItem<T>>)
    ensures MenuIds(HMenu(j, items)) == Range(j, |Leaves(items)|)
    decreases items, 0
  {
    if items != [] {
      var init := items[..|items| - 1];
      var last := items[|items| - 1];
      var n := |Leaves(init)|;
      var es := HMenu(j, init).entries;
      var e := Entry(j + n, last);
      assert Leaves(items) == Leaves(init) + ItemLeaves(last);
      assert HMenu(j, items).entries == es + [e];
      assert (es + [e])[..|es|] == es;
      assert MenuIds(HMenu(j, items)) == EntriesIds(es) + EntryIds(e);
      HMenuIds(j, init);
      ItemIds(j + n, last);
      RangeSplit(j, n, |ItemLeaves(last)|);
    }
  }

  lemma {:induction false} ItemIds<T>(j: nat, item: MenuItem<T>)
    ensures EntryIds(Entry(j, item)) == Range(j, |ItemLeaves(item)|)
    decreases item, 1
  {
    match item {
      case Submenu(_, name, children, disabled, _) =>
        assert ItemLeaves(item) == Leaves(children.menuItems);
        assert Entry(j, item) == ChildMenuEntry(name, HMenu(j, children.menuItems), disabled);
        HMenuIds(j, children.menuItems);
      case Item(id, _, _, _) =>
        assert ItemLeaves(item) == [id];
      case Checkable(id, _, _, _, _) =>
        assert ItemLeaves(item) == [id];
      case Separator =>
    }
  }

  /** `build_menu` as a whole: events and entry ids agree position by position, numbered from 1. */
  lemma BuildMenuSpec<T>(builder: MenuBuilder<T>)
    ensures var leaves := Leaves(builder.menuItems);
      var events := Indexed(0, leaves);
      var ids := MenuIds(HMenu(0, builder.menuItems));
      |events| == |leaves| && |ids| == |leaves|
      && (forall i :: 0 <= i < |ids| ==> ids[i] == i + 1 && ids[i] in events && events[ids[i]] == leaves[i])
  {
    IndexedSize(0, Leaves(builder.menuItems));
    IndexedAt(0, Leaves(builder.menuItems));
    HMenuIds(0, builder.menuItems);
  }

  // ---------------------------------------------------------------------
  // Building the tray icon
  // ---------------------------------------------------------------------

  /** What the hidden window is created with. */
  datatype TrayIconWindow<T> = TrayIconWindow(
    sender: TrayIconSender<T>,
    menu: Option<MenuSys<T>>,
    notifyIcon: Icon,
    clickEvent: Option<T>,
    doubleClickEvent: Option<T>,
    rightClickEvent: Option<T>)

  /**
   * `build_trayicon`: the icon is checked first, then the sender, then the
   * menu is built; `window` is what creating the native window returns.
   */
  method BuildTrayIcon<T>(builder: TrayIconBuilder<T>, window: Result<(), Error>)
    returns (r: Result<TrayIconWindow<T>, Error>)
    ensures builder.icon.Err? ==> r == Err(builder.icon.error)
    ensures builder.icon.Ok? && builder.sender.None? ==> r == Err(SenderMissing)
    ensures builder.icon.Ok? && builder.sender.Some? ==>
      (r.Ok? <==> window.Ok?)
      && (window.Err? ==> r == Err(window.error))
      && (r.Ok? ==> r.value == TrayIconWindow(
            builder.sender.value,
            if builder.menu.Some? then
              Some(MenuSys(Indexed(0, Leaves(builder.menu.value.menuItems)), HMenu(0, builder.menu.value.menuItems)))
            else None,
            builder.icon.value, builder.onClick, builder.onDoubleClick, builder.onRightClick))
  {
    if builder.icon.Err? {
      return Err(builder.icon.error);
    }
    var hicon := builder.icon.value;
    if builder.sender.None? {
      return Err(SenderMissing);
    }
    var sender := builder.sender.value;
    var menu: Option<MenuSys<T>> := None;
    if builder.menu.Some? {
      var built := BuildMenu(builder.menu.value);
      match built {
        case Err(e) => return Err(e);
        case Ok(m) => menu := Some(m);
      }
    }
    if window.Err? {
      return Err(window.error);
    }
    r := Ok(TrayIconWindow(sender, menu, hicon, builder.onClick, builder.onDoubleClick, builder.onRightClick));
  }

  // ---------------------------------------------------------------------
  // The unit test of src/sys/windows/mod.rs
  // ---------------------------------------------------------------------

  datatype Events =
    | CheckableItem1 | Item1 | SubItem1 | SubItem2 | SubItem3 | SubItem4
    | SubSubItem1 | SubSubItem2 | SubSubItem3

  function SubSubMenu(): MenuBuilder<Events>
  {
    MenuBuilders.New()
      .WithItem("Sub Sub item 1", Events.SubSubItem1)
      .WithItem("Sub Sub Item 2", Events.SubSubItem2)
      .WithItem("Sub Sub Item 3", Events.SubSubItem3)
  }

  function SubMenu(): MenuBuilder<Events>
  {
    MenuBuilders.New()
      .WithItem("Sub item 1", Events.SubItem1)
      .WithItem("Sub Item 2", Events.SubItem2)
      .WithItem("Sub Item 3", Events.SubItem3)
      .WithSubmenu("Sub Sub menu", SubSubMenu())
      .WithItem("Sub Item 4", Events.SubItem4)
  }

  function TestBuilder(): MenuBuilder<Events>
  {
    MenuBuilders.New()
      .WithCheckable("This is checkable", true, Events.CheckableItem1)
      .WithSubmenu("Sub Menu", SubMenu())
      .WithItem("Item 1", Events.Item1)
  }

  /** Appending one item, as every appender of the builder does, appends that item's leaves. */
  lemma AppendedLeaves<T>(b: MenuBuilder<T>, r: MenuBuilder<T>)
    requires |r.menuItems| == |b.menuItems| + 1 && r.menuItems[..|b.menuItems|] == b.menuItems
    ensures Leaves(r.menuItems) == Leaves(b.menuItems) + ItemLeaves(r.menuItems[|b.menuItems|])
  {
  }

  lemma SubSubMenuLeaves()
    ensures |Leaves(SubSubMenu().menuItems)| == 3
  {
    var b0 := MenuBuilders.New<Events>();
    var b1 := b0.WithItem("Sub Sub item 1", Events.SubSubItem1);
    var b2 := b1.WithItem("Sub Sub Item 2", Events.SubSubItem2);
    var b3 := b2.WithItem("Sub Sub Item 3", Events.SubSubItem3);
    AppendedLeaves(b0, b1);
    AppendedLeaves(b1, b2);
    AppendedLeaves(b2, b3);
  }

  lemma SubMenuLeaves()
    ensures |Leaves(SubMenu().menuItems)| == 7
  {
    var b0 := MenuBuilders.New<Events>();
    var b1 := b0.WithItem("Sub item 1", Events.SubItem1);
    var b2 := b1.WithItem("Sub Item 2", Events.SubItem2);
    var b3 := b2.WithItem("Sub Item 3", Events.SubItem3);
    var b4 := b3.WithSubmenu("Sub Sub menu", SubSubMenu());
    var b5 := b4.WithItem("Sub Item 4", Events.SubItem4);
    AppendedLeaves(b0, b1);
    AppendedLeaves(b1, b2);
    AppendedLeaves(b2, b3);
    AppendedLeaves(b3, b4);
    SubSubMenuLeaves();
    AppendedLeaves(b4, b5);
  }

  /** `test_menu_build`: the test menu yields exactly 9 events. */
  lemma TestMenuBuild()
    ensures |Indexed(0, Leaves(TestBuilder().menuItems))| == 9
  {
    var b0 := MenuBuilders.New<Events>();
    var b1 := b0.WithCheckable("This is checkable", true, Events.CheckableItem1);
    var b2 := b1.WithSubmenu("Sub Menu", SubMenu());
    var b3 := b2.WithItem("Item 1", Events.Item1);
    AppendedLeaves(b0, b1);
    AppendedLeaves(b1, b2);
    SubMenuLeaves();
    AppendedLeaves(b2, b3);
    IndexedSize(0, Leaves(b3.menuItems));
  }
}
