/**
 * The macOS back end's menu construction (src/sys/macos/menu.rs). One
 * counter numbers every Item, every Checkable and every Submenu that
 * carries an id, in pre-order (a submenu's number comes before its
 * children's); separators take none. Two maps are filled: `ids`, built
 * level by level and returned, holds every numbered node; `menu_ids`, a
 * table shared with the click target, holds only the clickable leaves,
 * keyed by the tag of their menu entry. A native menu is modelled by the
 * entries added to it, in order.
 */
module MacMenu {
  import opened Wrappers
  import opened Errors
  import opened Sender
  import opened MenuBuilders
  import opened Numbering

  /** `menu_ids`: the tag-to-event table shared, behind a lock, by the builder and the click target. */
  class MenuIdTable<T> {
    var table: map<int, T>

    constructor()
      ensures table == map[]
    {
      table := map[];
    }

    method Insert(tag: int, event: T)
      modifies this
      ensures table == old(table)[tag := event]
    {
      table := table[tag := event];
    }
  }

  /** The receiver of `menuItemClicked:`: its callback looks the tag up and forwards the event. */
  class MenuTarget<T> {
    const menuIds: MenuIdTable<T>
    var sender: TrayIconSender<T>

    /** `MenuTarget::new`. */
    constructor(sender: TrayIconSender<T>, menuIds: MenuIdTable<T>)
      ensures this.sender == sender && this.menuIds == menuIds
    {
      this.sender := sender;
      this.menuIds := menuIds;
    }

    /** A click on the entry with `tag`: an event is sent exactly when the tag is in the table, and it is the stored one. */
    method MenuItemClicked(tag: int)
      modifies this
      ensures tag in menuIds.table ==> sender == old(sender).Send(menuIds.table[tag])
      ensures tag !in menuIds.table ==> sender == old(sender)
    {
      if tag in menuIds.table {
        sender := sender.Send(menuIds.table[tag]);
      }
    }
  }

  /** One entry added to a native menu, with what it was given. */
  datatype NSMenuItem =
    | SubmenuItem(title: string, submenu: NSMenu, enabled: bool)
    | ActionItem(title: string, tag: int, enabled: bool, state: Option<int>)
    | SeparatorItem

  /** A native menu (its items are never auto-enabled): the entries added to it so far. */
  datatype NSMenu = NSMenu(items: seq<NSMenuItem>)
  {
    function AddItem(e: NSMenuItem): (r: NSMenu)
      ensures r.items == items + [e]
    {
      NSMenu(items + [e])
    }
  }

  datatype MacMenu<T> = MacMenu(ids: map<nat, T>, menu: NSMenu, target: MenuTarget<T>, menuIds: MenuIdTable<T>)

  // ---------------------------------------------------------------------
  // Reference definitions
  // ---------------------------------------------------------------------

  /** A numbered node, in the order the counter reaches it: its event, and whether a click on it sends that event. */
  datatype Node<T> = Node(event: T, clickable: bool)

  function ItemNodes<T>(item: MenuItem<T>): seq<Node<T>>
    decreases item
  {
    match item
    case Separator => []
    case Item(id, _, _, _) => [Node(id, true)]
    case Checkable(id, _, _, _, _) => [Node(id, true)]
    case Submenu(sid, _, children, _, _) => OwnNode(sid) + Nodes(children.menuItems)
  }

  /** A submenu's own node: it is numbered when it has an id, and a click on it sends nothing. */
  function OwnNode<T>(sid: Option<T>): seq<Node<T>>
  {
    if sid.Some? then [Node(sid.value, false)] else []
  }

  function Nodes<T>(items: seq<MenuItem<T>>): seq<Node<T>>
    decreases items
  {
    if items == [] then [] else Nodes(items[..|items| - 1]) + ItemNodes(items[|items| - 1])
  }

  function EventsOf<T>(nodes: seq<Node<T>>): (r: seq<T>)
    ensures |r| == |nodes| && forall i :: 0 <= i < |nodes| ==> r[i] == nodes[i].event
  {
    seq(|nodes|, i requires 0 <= i < |nodes| => nodes[i].event)
  }

  /** The entries of the shared table contributed by `nodes` when the counter stands at `j`. */
  function Clickable<T>(j: nat, nodes: seq<Node<T>>): map<int, T>
    decreases nodes
  {
    if nodes == [] then map[]
    else
      var m := Clickable(j, nodes[..|nodes| - 1]);
      var last := nodes[|nodes| - 1];
      if last.clickable then m[j + |nodes| := last.event] else m
  }

  /** The entry added for `item` when the counter stands at `j`. */
  function Entry<T>(j: nat, item: MenuItem<T>): NSMenuItem
    decreases item, 1
  {
    match item
    case Separator => SeparatorItem
    case Item(_, name, disabled, _) => ActionItem(name, j + 1, !disabled, None)
    case Checkable(_, name, checked, disabled, _) =>
      ActionItem(name, j + 1, !disabled, Some(if checked then 1 else 0))
    case Submenu(sid, name, children, disabled, _) =>
      SubmenuItem(name, MenuOf(if sid.Some? then j + 1 else j, children.menuItems), !disabled)
  }

  /** The native menu built for a level when the counter stands at `j`. */
  function MenuOf<T>(j: nat, items: seq<MenuItem<T>>): NSMenu
    decreases items, 0
  {
    if items == [] then NSMenu([])
    else
      var init := items[..|items| - 1];
      MenuOf(j, init).AddItem(Entry(j + |Nodes(init)|, items[|items| - 1]))
  }

  // ---------------------------------------------------------------------
  // The construction as written
  // ---------------------------------------------------------------------

  /**
   * `build_menu_inner`: one pass over the items with the counter, the level's
   * `ids` map and the shared table; a submenu with an id is numbered before
   * its children are built.
   */
  method BuildMenuInner<T>(j: nat, builder: MenuBuilder<T>, target: MenuTarget<T>, menuIds: MenuIdTable<T>)
    returns (r: Result<MacMenu<T>, Error>, j': nat)
    modifies menuIds
    ensures r == Ok(MacMenu(Indexed(j, EventsOf(Nodes(builder.menuItems))), MenuOf(j, builder.menuItems), target, menuIds))
    ensures j' == j + |Nodes(builder.menuItems)|
    ensures menuIds.table == old(menuIds.table) + Clickable(j, Nodes(builder.menuItems))
    decreases builder
  {
    var items := builder.menuItems;
    var ids: map<nat, T> := map[];
    var menu := NSMenu([]);
    j' := j;
    ghost var t0 := menuIds.table;
    ghost var nodes: seq<Node<T>> := [];
    var k := 0;
    while k < |items|
      invariant 0 <= k <= |items|
      invariant nodes == Nodes(items[..k])
      invariant ids == Indexed(j, EventsOf(nodes))
      invariant menu == MenuOf(j, items[..k])
      invariant j' == j + |nodes|
      invariant menuIds.table == t0 + Clickable(j, nodes)
    {
      NodesStep(j, items, k);
      ghost var more := ItemNodes(items[k]);
      ghost var ids0, j0 := ids, j';
      ItemNumbers(j, nodes, more);
      MergeAssoc(t0, Clickable(j, nodes), Clickable(j', more));
      j', ids, menu := AddItem(items[k], j', ids, menu, target, menuIds);
      assert ids == ids0 + Indexed(j0, EventsOf(more));
      assert ids == Indexed(j, EventsOf(nodes + more));
      nodes := nodes + more;
      k := k + 1;
    }
    assert items[..k] == items;
    r := Ok(MacMenu(ids, menu, target, menuIds));
  }

  /**
   * The body of `build_menu_inner`'s loop: a submenu with an id takes the
   * next number (in `ids` only) before its children are built and merged
   * in; an Item or a Checkable takes the next number in both maps and gets
   * an action entry with that tag; a separator only adds a separator.
   */
  method AddItem<T>(item: MenuItem<T>, j: nat, ids: map<nat, T>, menu: NSMenu, target: MenuTarget<T>, menuIds: MenuIdTable<T>)
    returns (j': nat, ids': map<nat, T>, menu': NSMenu)
    modifies menuIds
    ensures j' == j + |ItemNodes(item)|
    ensures ids' == ids + Indexed(j, EventsOf(ItemNodes(item)))
    ensures menu' == menu.AddItem(Entry(j, item))
    ensures menuIds.table == old(menuIds.table) + Clickable(j, ItemNodes(item))
    decreases item
  {
    j', ids', menu' := j, ids, menu;
    match item {
      case Submenu(sid, name, children, disabled, _) =>
        assert ItemNodes(item) == OwnNode(sid) + Nodes(children.menuItems);
        assert Entry(j, item) == SubmenuItem(name, MenuOf(j + |OwnNode(sid)|, children.menuItems), !disabled);
        if sid.Some? {
          j' := j' + 1;
          ids' := ids'[j' := sid.value];
        }
        SubmenuNumbers(j, sid, children.menuItems, ids, ids', menuIds.table);
        var sub;
        sub, j' := BuildMenuInner(j', children, target, menuIds);
        if sub.Ok? {
          ids' := ids' + sub.value.ids;
          menu' := menu'.AddItem(SubmenuItem(name, sub.value.menu, !disabled));
        }
        assert j' == j + |ItemNodes(item)|;
        assert ids' == ids + Indexed(j, EventsOf(ItemNodes(item)));
      case Checkable(id, name, isChecked, disabled, _) =>
        assert ItemNodes(item) == [Node(id, true)];
        LeafNumbers(j, id, ids, menuIds.table);
        j' := j' + 1;
        ids' := ids'[j' := id];
        menu' := menu'.AddItem(ActionItem(name, j', !disabled, Some(if isChecked then 1 else 0)));
        menuIds.Insert(j', id);
      case Item(id, name, disabled, _) =>
        assert ItemNodes(item) == [Node(id, true)];
        LeafNumbers(j, id, ids, menuIds.table);
        j' := j' + 1;
        ids' := ids'[j' := id];
        menu' := menu'.AddItem(ActionItem(name, j', !disabled, None));
        menuIds.Insert(j', id);
      case Separator =>
        NoNumbers(j, ids, menuIds.table);
        menu' := menu'.AddItem(SeparatorItem);
    }
  }

  /**
   * `build_menu`: a fresh shared table and a target holding it and the
   * sender; the counter starts at 0.
   */
  method BuildMenu<T>(builder: MenuBuilder<T>, sender: TrayIconSender<T>) returns (r: Result<MacMenu<T>, Error>)
    ensures r.Ok? && fresh(r.value.menuIds) && fresh(r.value.target)
    ensures r.value.target.menuIds == r.value.menuIds && r.value.target.sender == sender
    ensures r.value.ids == Indexed(0, EventsOf(Nodes(builder.menuItems)))
    ensures r.value.menu == MenuOf(0, builder.menuItems)
    ensures r.value.menuIds.table == Clickable(0, Nodes(builder.menuItems))
  {
    var menuIds := new MenuIdTable();
    var target := new MenuTarget(sender, menuIds);
    var result, j := BuildMenuInner(0, builder, target, menuIds);
    match result {
      case Err(e) => return Err(e);
      case Ok(m) => r := Ok(MacMenu(m.ids, m.menu, target, menuIds));
    }
  }

  // ---------------------------------------------------------------------
  // Steps of the construction
  // ---------------------------------------------------------------------

  /** One more item: its nodes and its entry go after those of the items before it. */
  lemma NodesStep<T>(j: nat, items: seq<MenuItem<T>>, k: nat)
    requires k < |items|
    ensures Nodes(items[..k + 1]) == Nodes(items[..k]) + ItemNodes(items[k])
    ensures MenuOf(j, items[..k + 1]) == MenuOf(j, items[..k]).AddItem(Entry(j + |Nodes(items[..k])|, items[k]))
  {
    assert items[..k + 1][..k] == items[..k];
  }

  /** Numbering two runs of nodes one after the other. */
  lemma {:induction false} ClickableAppend<T>(j: nat, a: seq<Node<T>>, b: seq<Node<T>>)
    ensures Clickable(j, a + b) == Clickable(j, a) + Clickable(j + |a|, b)
    decreases b
  {
    if b == [] {
      assert a + b == a;
    } else {
      var b' := b[..|b| - 1];
      ClickableAppend(j, a, b');
      assert (a + b)[..|a + b| - 1] == a + b';
    }
  }

  /** The maps of the items before and of one more item combine as the loop combines them. */
  lemma ItemNumbers<T>(j: nat, a: seq<Node<T>>, b: seq<Node<T>>)
    ensures Indexed(j, EventsOf(a + b)) == Indexed(j, EventsOf(a)) + Indexed(j + |a|, EventsOf(b))
    ensures Clickable(j, a + b) == Clickable(j, a) + Clickable(j + |a|, b)
  {
    assert EventsOf(a + b) == EventsOf(a) + EventsOf(b);
    IndexedAppend(j, EventsOf(a), EventsOf(b));
    ClickableAppend(j, a, b);
  }

  /** A leaf takes the next number, in both maps. */
  lemma LeafNumbers<T>(j: nat, id: T, ids: map<nat, T>, table: map<int, T>)
    ensures ids[j + 1 := id] == ids + Indexed(j, EventsOf([Node(id, true)]))
    ensures table[j + 1 := id] == table + Clickable(j, [Node(id, true)])
  {
    assert EventsOf([Node(id, true)]) == [id];
    IndexedOne(j, id);
    assert [Node(id, true)][..0] == [];
  }

  /** A separator takes no number. */
  lemma NoNumbers<T>(j: nat, ids: map<nat, T>, table: map<int, T>)
    ensures ids + Indexed(j, EventsOf([])) == ids
    ensures table + Clickable(j, []) == table
  {
    assert EventsOf<T>([]) == [];
  }

  /** A submenu's own number, when it has an id, goes in `ids` only; its children follow it. */
  lemma SubmenuNumbers<T>(j: nat, sid: Option<T>, children: seq<MenuItem<T>>, ids: map<nat, T>, ids1: map<nat, T>, table: map<int, T>)
    requires ids1 == if sid.Some? then ids[j + 1 := sid.value] else ids
    ensures var j1 := j + |OwnNode(sid)|;
      ids1 + Indexed(j1, EventsOf(Nodes(children))) == ids + Indexed(j, EventsOf(OwnNode(sid) + Nodes(children)))
      && table + Clickable(j1, Nodes(children)) == table + Clickable(j, OwnNode(sid) + Nodes(children))
  {
    ItemNumbers(j, OwnNode(sid), Nodes(children));
    OwnIds(j, sid, ids, ids1, Indexed(j + |OwnNode(sid)|, EventsOf(Nodes(children))));
    OwnNotClickable(j, sid, Clickable(j + |OwnNode(sid)|, Nodes(children)));
  }

  lemma OwnIds<T>(j: nat, sid: Option<T>, ids: map<nat, T>, ids1: map<nat, T>, childIds: map<nat, T>)
    requires ids1 == if sid.Some? then ids[j + 1 := sid.value] else ids
    ensures ids1 + childIds == ids + (Indexed(j, EventsOf(OwnNode(sid))) + childIds)
  {
    if sid.Some? {
      assert EventsOf(OwnNode(sid)) == [sid.value];
      IndexedOne(j, sid.value);
      assert ids1 == ids + map[j + 1 := sid.value];
      MergeAssoc(ids, map[j + 1 := sid.value], childIds);
    } else {
      assert EventsOf(OwnNode(sid)) == [];
      assert Indexed(j, EventsOf(OwnNode(sid))) == map[];
      assert map[] + childIds == childIds;
    }
  }

  lemma OwnNotClickable<T>(j: nat, sid: Option<T>, childTable: map<int, T>)
    ensures Clickable(j, OwnNode(sid)) + childTable == childTable
  {
    assert Clickable(j, OwnNode(sid)) == map[] by {
      if sid.Some? {
        assert OwnNode(sid)[..0] == [];
      }
    }
    assert map[] + childTable == childTable;
  }

  // ---------------------------------------------------------------------
  // What the construction promises
  // ---------------------------------------------------------------------

  /** The shared table holds exactly the clickable nodes, each under its number. */
  lemma {:induction false} ClickableAt<T>(j: nat, nodes: seq<Node<T>>)
    ensures forall k :: k in Clickable(j, nodes) <==> j < k <= j + |nodes| && nodes[k - j - 1].clickable
    ensures forall k :: k in Clickable(j, nodes) ==> Clickable(j, nodes)[k] == nodes[k - j - 1].event
    decreases nodes
  {
    if nodes != [] {
      var init := nodes[..|nodes| - 1];
      ClickableAt(j, init);
      assert forall i :: 0 <= i < |init| ==> init[i] == nodes[i];
    }
  }

  /**
   * `build_menu`'s two maps: `ids` numbers every node 1, 2, ...; `menu_ids`
   * is the part of `ids` whose nodes are clickable, so a Submenu's id is in
   * `ids` but never in `menu_ids`.
   */
  lemma BuildMenuMaps<T>(items: seq<MenuItem<T>>)
    ensures var nodes := Nodes(items);
      var ids := Indexed(0, EventsOf(nodes));
      var menuIds := Clickable(0, nodes);
      (forall k :: k in ids <==> 1 <= k <= |nodes|)
      && (forall k :: k in ids ==> ids[k] == nodes[k - 1].event)
      && (forall k :: k in menuIds <==> k in ids && nodes[k - 1].clickable)
      && (forall k :: k in menuIds ==> menuIds[k] == ids[k])
  {
    var nodes := Nodes(items);
    IndexedAt(0, EventsOf(nodes));
    ClickableAt(0, nodes);
  }

  /** The tags of the action entries of a native menu, submenus included, in pre-order. */
  function ActionTags(m: NSMenu): seq<int>
    decreases m
  {
    EntriesTags(m.items)
  }

  function EntriesTags(es: seq<NSMenuItem>): seq<int>
    decreases es
  {
    if es == [] then [] else EntriesTags(es[..|es| - 1]) + EntryTags(es[|es| - 1])
  }

  function EntryTags(e: NSMenuItem): seq<int>
    decreases e
  {
    match e
    case ActionItem(_, tag, _, _) => [tag]
    case SubmenuItem(_, submenu, _) => ActionTags(submenu)
    case SeparatorItem => []
  }

  /** The numbers of the clickable nodes, in order. */
  function ClickableNumbers<T>(j: nat, nodes: seq<Node<T>>): seq<int>
    decreases nodes
  {
    if nodes == [] then []
    else
      ClickableNumbers(j, nodes[..|nodes| - 1]) +
        (if nodes[|nodes| - 1].clickable then [j + |nodes|] else [])
  }

  lemma {:induction false} ClickableNumbersAppend<T>(j: nat, a: seq<Node<T>>, b: seq<Node<T>>)
    ensures ClickableNumbers(j, a + b) == ClickableNumbers(j, a) + ClickableNumbers(j + |a|, b)
    decreases b
  {
    if b == [] {
      assert a + b == a;
    } else {
      var b' := b[..|b| - 1];
      ClickableNumbersAppend(j, a, b');
      assert (a + b)[..|a + b| - 1] == a + b';
    }
  }

  /** The clickable numbers are exactly the keys of the shared table. */
  lemma {:induction false} ClickableNumbersKeys<T>(j: nat, nodes: seq<Node<T>>)
    ensures forall t :: t in ClickableNumbers(j, nodes) <==> t in Clickable(j, nodes)
    decreases nodes
  {
    if nodes != [] {
      ClickableNumbersKeys(j, nodes[..|nodes| - 1]);
      ClickableAt(j, nodes[..|nodes| - 1]);
    }
  }

  /** Each action entry is tagged with its node's number: the tags, in order, are the clickable numbers. */
  lemma {:induction false} MenuTags<T>(j: nat, items: seq<MenuItem<T>>)
    ensures ActionTags(MenuOf(j, items)) == ClickableNumbers(j, Nodes(items))
    decreases items, 0
  {
    if items != [] {
      var init := items[..|items| - 1];
      var last := items[|items| - 1];
      var n := |Nodes(init)|;
      var es := MenuOf(j, init).items;
      var e := Entry(j + n, last);
      assert Nodes(items) == Nodes(init) + ItemNodes(last);
      assert MenuOf(j, items).items == es + [e];
      assert (es + [e])[..|es|] == es;
      assert ActionTags(MenuOf(j, items)) == EntriesTags(es) + EntryTags(e);
      MenuTags(j, init);
      ItemTags(j + n, last);
      ClickableNumbersAppend(j, Nodes(init), ItemNodes(last));
    }
  }

  lemma {:induction false} ItemTags<T>(j: nat, item: MenuItem<T>)
    ensures EntryTags(Entry(j, item)) == ClickableNumbers(j, ItemNodes(item))
    decreases item, 1
  {
    match item {
      case Submenu(sid, name, children, disabled, _) =>
        var own := OwnNode(sid);
        var ch := children.menuItems;
        var tail := ClickableNumbers(j + |own|, Nodes(ch));
        MenuTags(j + |own|, ch);
        OwnNoNumbers(j, sid);
        ClickableNumbersAppend(j, own, Nodes(ch));
        assert ClickableNumbers(j, own) + tail == tail;
        assert ItemNodes(item) == own + Nodes(ch);
        assert EntryTags(Entry(j, item)) == ActionTags(MenuOf(j + |own|, ch));
      case Item(id, _, _, _) =>
        LeafClickableNumbers(j, id);
      case Checkable(id, _, _, _, _) =>
        LeafClickableNumbers(j, id);
      case Separator =>
    }
  }

  /** A submenu's own node is never clickable. */
  lemma OwnNoNumbers<T>(j: nat, sid: Option<T>)
    ensures ClickableNumbers(j, OwnNode(sid)) == []
  {
    if sid.Some? {
      assert OwnNode(sid)[..0] == [];
    }
  }

  /** A leaf's one clickable number is the next one. */
  lemma LeafClickableNumbers<T>(j: nat, id: T)
    ensures ClickableNumbers(j, [Node(id, true)]) == [j + 1]
  {
    assert [Node(id, true)][..0] == [];
  }

  /**
   * A click on any action entry of the built menu finds its tag in the
   * shared table, and the table sends the event `ids` holds for that number.
   */
  lemma ClickableEntries<T>(items: seq<MenuItem<T>>)
    ensures var nodes := Nodes(items);
      forall t :: t in ActionTags(MenuOf(0, items)) <==> t in Clickable(0, nodes)
  {
    MenuTags(0, items);
    ClickableNumbersKeys(0, Nodes(items));
  }

  /**
   * What each entry shows: the item's name as title, enabled exactly when
   * the item is not disabled, a state of 1 or 0 for a Checkable and none
   * for an Item, a submenu entry holding the children's entries one by one.
   */
  ghost predicate Corresponds<T>(item: MenuItem<T>, e: NSMenuItem)
    decreases item
  {
    match item
    case Separator => e.SeparatorItem?
    case Item(_, name, disabled, _) =>
      e.ActionItem? && e.title == name && e.enabled == !disabled && e.state == None
    case Checkable(_, name, checked, disabled, _) =>
      e.ActionItem? && e.title == name && e.enabled == !disabled
      && e.state == Some(if checked then 1 else 0)
    case Submenu(_, name, children, disabled, _) =>
      e.SubmenuItem? && e.title == name && e.enabled == !disabled
      && |e.submenu.items| == |children.menuItems|
      && forall i :: 0 <= i < |children.menuItems| ==> Corresponds(children.menuItems[i], e.submenu.items[i])
  }

  lemma {:induction false} EntryCorresponds<T>(j: nat, item: MenuItem<T>)
    ensures Corresponds(item, Entry(j, item))
    decreases item, 1
  {
    match item {
      case Submenu(sid, _, children, _, _) =>
        MenuCorresponds(if sid.Some? then j + 1 else j, children.menuItems);
      case _ =>
    }
  }

  lemma {:induction false} MenuCorresponds<T>(j: nat, items: seq<MenuItem<T>>)
    ensures |MenuOf(j, items).items| == |items|
    ensures forall i :: 0 <= i < |items| ==> Corresponds(items[i], MenuOf(j, items).items[i])
    decreases items, 0
  {
    if items != [] {
      var init := items[..|items| - 1];
      MenuCorresponds(j, init);
      EntryCorresponds(j + |Nodes(init)|, items[|items| - 1]);
      forall i | 0 <= i < |items|
        ensures Corresponds(items[i], MenuOf(j, items).items[i])
      {
        if i < |init| {
          assert items[i] == init[i];
        }
      }
    }
  }
}
