/**
 * The Linux back end's menu conversion (src/sys/linux/mod.rs): the menu
 * tree is turned into `MenuItemData` nodes, and every node, separators
 * and submenus included, takes the next value of one counter shared by
 * the whole conversion. The counter is incremented before a node is
 * converted, so numbering starts at 1 and is pre-order.
 *
 * `Converted` and `ConvertedSeq` are the reference definitions of what
 * the conversion produces; the methods, which keep the counter and the
 * loops of the source, are proved to produce exactly that.
 */
module LinuxMenu {
  import opened Wrappers
  import opened Ints
  import opened Errors
  import opened Sender
  import opened MenuBuilders

  datatype MenuItemData<T> = MenuItemData(
    id: i32,
    labelText: string,
    eventId: Option<T>,
    isSeparator: bool,
    isCheckable: bool,
    isChecked: bool,
    isDisabled: bool,
    children: seq<MenuItemData<T>>)

  /** The converted menu, and the channel the D-Bus side reports clicks on once the tray icon is built. */
  datatype MenuSys<T> = MenuSys(items: seq<MenuItemData<T>>, eventSender: Option<Channel<(i32, T)>>)

  /** `MenuSys::new`: never fails, no items, no sender yet. */
  function NewMenuSys<T>(): (r: Result<MenuSys<T>, Error>)
    ensures r.Ok? && r.value.items == [] && r.value.eventSender == None
  {
    Ok(MenuSys([], None))
  }

  // ---------------------------------------------------------------------
  // Reference definitions
  // ---------------------------------------------------------------------

  /** The number of counter steps converting `item` takes: one per node of its subtree. */
  function NodeCount<T>(item: MenuItem<T>): (n: nat)
    ensures n >= 1
    decreases item
  {
    match item
    case Submenu(_, _, children, _, _) => 1 + NodesCount(children.menuItems)
    case _ => 1
  }

  function NodesCount<T>(items: seq<MenuItem<T>>): nat
    decreases items
  {
    if items == [] then 0
    else NodesCount(items[..|items| - 1]) + NodeCount(items[|items| - 1])
  }

  /** The node `convert_menu_item` produces for `item` when the counter stands at `j`. */
  function Converted<T>(j: nat, item: MenuItem<T>): MenuItemData<T>
    decreases item
  {
    var id := AsI32(j + 1);
    match item
    case Separator => MenuItemData(id, "", None, true, false, false, false, [])
    case Item(eid, name, disabled, _) => MenuItemData(id, name, Some(eid), false, false, false, disabled, [])
    case Checkable(eid, name, checked, disabled, _) =>
      MenuItemData(id, name, Some(eid), false, true, checked, disabled, [])
    case Submenu(_, name, children, disabled, _) =>
      MenuItemData(id, name, None, false, false, false, disabled, ConvertedSeq(j + 1, children.menuItems))
  }

  /** The nodes produced for a sequence of siblings, the counter threading from one to the next. */
  function ConvertedSeq<T>(j: nat, items: seq<MenuItem<T>>): seq<MenuItemData<T>>
    decreases items
  {
    if items == [] then []
    else
      var init := items[..|items| - 1];
      ConvertedSeq(j, init) + [Converted(j + NodesCount(init), items[|items| - 1])]
  }

  // ---------------------------------------------------------------------
  // The conversion as written: a counter passed by reference, two loops
  // ---------------------------------------------------------------------

  /** `convert_menu_item`: never fails; the counter advances by the size of the subtree. */
  method ConvertMenuItem<T>(j: nat, item: MenuItem<T>) returns (r: Result<MenuItemData<T>, Error>, j': nat)
    ensures r == Ok(Converted(j, item))
    ensures j' == j + NodeCount(item)
    decreases item
  {
    j' := j + 1;
    var currentId := AsI32(j');
    match item {
      case Separator =>
        r := Ok(MenuItemData(currentId, "", None, true, false, false, false, []));
      case Item(id, name, disabled, _) =>
        r := Ok(MenuItemData(currentId, name, Some(id), false, false, false, disabled, []));
      case Checkable(id, name, isChecked, disabled, _) =>
        r := Ok(MenuItemData(currentId, name, Some(id), false, true, isChecked, disabled, []));
      case Submenu(_, name, children, disabled, _) =>
        var childItems: seq<MenuItemData<T>> := [];
        var k := 0;
        while k < |children.menuItems|
          invariant 0 <= k <= |children.menuItems|
          invariant childItems == ConvertedSeq(j + 1, children.menuItems[..k])
          invariant j' == j + 1 + NodesCount(children.menuItems[..k])
        {
          assert children.menuItems[..k + 1][..k] == children.menuItems[..k];
          var childData;
          childData, j' := ConvertMenuItem(j', children.menuItems[k]);
          childItems := childItems + [childData.value];
          k := k + 1;
        }
        assert children.menuItems[..k] == children.menuItems;
        r := Ok(MenuItemData(currentId, name, None, false, false, false, disabled, childItems));
    }
  }

  /** `build_menu_inner`: converts the items of one level in order, through the shared counter. */
  method BuildMenuInner<T>(j: nat, builder: MenuBuilder<T>) returns (r: Result<MenuSys<T>, Error>, j': nat)
    ensures r == Ok(MenuSys(ConvertedSeq(j, builder.menuItems), None))
    ensures j' == j + NodesCount(builder.menuItems)
  {
    var m := NewMenuSys<T>();
    var menuSys := m.value;
    j' := j;
    var k := 0;
    while k < |builder.menuItems|
      invariant 0 <= k <= |builder.menuItems|
      invariant menuSys == MenuSys(ConvertedSeq(j, builder.menuItems[..k]), None)
      invariant j' == j + NodesCount(builder.menuItems[..k])
    {
      assert builder.menuItems[..k + 1][..k] == builder.menuItems[..k];
      var data;
      data, j' := ConvertMenuItem(j', builder.menuItems[k]);
      menuSys := menuSys.(items := menuSys.items + [data.value]);
      k := k + 1;
    }
    assert builder.menuItems[..k] == builder.menuItems;
    r := Ok(menuSys);
  }

  /** `build_menu`: the counter starts at 0, so the first node gets id 1. */
  method BuildMenu<T>(builder: MenuBuilder<T>) returns (r: Result<MenuSys<T>, Error>)
    ensures r == Ok(MenuSys(ConvertedSeq(0, builder.menuItems), None))
  {
    var j;
    r, j := BuildMenuInner(0, builder);
  }

  // ---------------------------------------------------------------------
  // What the conversion promises
  // ---------------------------------------------------------------------

  /** The ids of a converted tree, in pre-order: a node before its children, siblings left to right. */
  function PreorderIds<T>(d: MenuItemData<T>): seq<i32>
    decreases d
  {
    [d.id] + PreorderIdsSeq(d.children)
  }

  function PreorderIdsSeq<T>(ds: seq<MenuItemData<T>>): seq<i32>
    decreases ds
  {
    if ds == [] then [] else PreorderIdsSeq(ds[..|ds| - 1]) + PreorderIds(ds[|ds| - 1])
  }

  /** The ids the counter hands out from `j`: `j + 1`, `j + 2`, ..., `j + n`, each cast to i32. */
  function CounterIds(j: nat, n: nat): (r: seq<i32>)
    ensures |r| == n
    ensures forall i :: 0 <= i < n ==> r[i] == AsI32(j + 1 + i)
  {
    if n == 0 then [] else CounterIds(j, n - 1) + [AsI32(j + n)]
  }

  lemma CounterIdsSplit(j: nat, a: nat, b: nat)
    ensures CounterIds(j, a + b) == CounterIds(j, a) + CounterIds(j + a, b)
  {
    var l := CounterIds(j, a + b);
    var r := CounterIds(j, a) + CounterIds(j + a, b);
    assert forall i :: 0 <= i < a + b ==> l[i] == r[i];
  }

  /** Every node takes the next counter value in pre-order: the ids of the output are exactly the ids handed out. */
  lemma {:induction false} ConvertedIds<T>(j: nat, item: MenuItem<T>)
    ensures PreorderIds(Converted(j, item)) == CounterIds(j, NodeCount(item))
    decreases item, 1
  {
    var d := Converted(j, item);
    assert CounterIds(j, 1) == [AsI32(j + 1)];
    match item {
      case Submenu(_, _, children, _, _) =>
        var n := NodesCount(children.menuItems);
        assert d.children == ConvertedSeq(j + 1, children.menuItems);
        ConvertedSeqIds(j + 1, children.menuItems);
        CounterIdsSplit(j, 1, n);
        assert NodeCount(item) == 1 + n;
        assert PreorderIds(d) == CounterIds(j, 1) + CounterIds(j + 1, n);
      case _ =>
        assert d.children == [] && NodeCount(item) == 1;
        assert PreorderIds(d) == [AsI32(j + 1)];
    }
  }

  lemma {:induction false} ConvertedSeqIds<T>(j: nat, items: seq<MenuItem<T>>)
    ensures PreorderIdsSeq(ConvertedSeq(j, items)) == CounterIds(j, NodesCount(items))
    decreases items, 0
  {
    if items != [] {
      var init := items[..|items| - 1];
      var last := items[|items| - 1];
      var n := NodesCount(init);
      var front := ConvertedSeq(j, init);
      var d := Converted(j + n, last);
      assert ConvertedSeq(j, items) == front + [d];
      assert NodesCount(items) == n + NodeCount(last);
      ConvertedSeqIds(j, init);
      ConvertedIds(j + n, last);
      PreorderIdsSnoc(front, d);
      CounterIdsSplit(j, n, NodeCount(last));
    }
  }

  /** One more node at the end of a level: its ids come after those of the nodes before it. */
  lemma PreorderIdsSnoc<T>(ds: seq<MenuItemData<T>>, d: MenuItemData<T>)
    ensures PreorderIdsSeq(ds + [d]) == PreorderIdsSeq(ds) + PreorderIds(d)
  {
    assert (ds + [d])[..|ds|] == ds;
  }

  /**
   * `build_menu` numbers the nodes 1, 2, ..., n in pre-order; while n fits
   * in an i32 the ids are those integers and hence pairwise distinct.
   */
  lemma BuildMenuIds<T>(builder: MenuBuilder<T>)
    ensures PreorderIdsSeq(ConvertedSeq(0, builder.menuItems)) == CounterIds(0, NodesCount(builder.menuItems))
    ensures NodesCount(builder.menuItems) <= I32_MAX ==>
      var ids := PreorderIdsSeq(ConvertedSeq(0, builder.menuItems));
      (forall i :: 0 <= i < |ids| ==> ids[i] == i + 1)
      && (forall i, k :: 0 <= i < k < |ids| ==> ids[i] < ids[k])
  {
    ConvertedSeqIds(0, builder.menuItems);
  }

  /**
   * The shape and the flags of a converted node, independently of ids: the
   * label is the name (empty for a separator), only Items and Checkables
   * carry their event id, only a Checkable is checkable, the checked and
   * disabled flags are copied, a separator is neither, and a submenu's
   * children correspond one by one, in order.
   */
  ghost predicate Corresponds<T>(item: MenuItem<T>, d: MenuItemData<T>)
    decreases item
  {
    match item
    case Separator =>
      d.labelText == "" && d.eventId == None && d.isSeparator && !d.isCheckable && !d.isChecked
      && !d.isDisabled && d.children == []
    case Item(id, name, disabled, _) =>
      d.labelText == name && d.eventId == Some(id) && !d.isSeparator && !d.isCheckable && !d.isChecked
      && d.isDisabled == disabled && d.children == []
    case Checkable(id, name, checked, disabled, _) =>
      d.labelText == name && d.eventId == Some(id) && !d.isSeparator && d.isCheckable
      && d.isChecked == checked && d.isDisabled == disabled && d.children == []
    case Submenu(_, name, children, disabled, _) =>
      d.labelText == name && d.eventId == None && !d.isSeparator && !d.isCheckable && !d.isChecked
      && d.isDisabled == disabled
      && |d.children| == |children.menuItems|
      && forall i :: 0 <= i < |d.children| ==> Corresponds(children.menuItems[i], d.children[i])
  }

  lemma {:induction false} ConvertedCorresponds<T>(j: nat, item: MenuItem<T>)
    ensures Corresponds(item, Converted(j, item))
    decreases item, 1
  {
    match item {
      case Submenu(_, _, children, _, _) =>
        ConvertedSeqCorresponds(j + 1, children.menuItems);
      case _ =>
    }
  }

  lemma {:induction false} ConvertedSeqCorresponds<T>(j: nat, items: seq<MenuItem<T>>)
    ensures |ConvertedSeq(j, items)| == |items|
    ensures forall i :: 0 <= i < |items| ==> Corresponds(items[i], ConvertedSeq(j, items)[i])
    decreases items, 0
  {
    if items != [] {
      var init := items[..|items| - 1];
      var last := items[|items| - 1];
      ConvertedSeqCorresponds(j, init);
      ConvertedCorresponds(j + NodesCount(init), last);
      var out := ConvertedSeq(j, items);
      forall i | 0 <= i < |items|
        ensures Corresponds(items[i], out[i])
      {
        if i < |init| {
          assert items[i] == init[i];
        }
      }
    }
  }

  /** The test's `count_items`: the number of nodes in a converted forest. */
  function CountItems<T>(ds: seq<MenuItemData<T>>): nat
    decreases ds
  {
    if ds == [] then 0 else CountItems(ds[..|ds| - 1]) + 1 + CountItems(ds[|ds| - 1].children)
  }

  /** The output has one node per input node, so `count_items` equals the final counter. */
  lemma {:induction false} CountConverted<T>(j: nat, items: seq<MenuItem<T>>)
    ensures CountItems(ConvertedSeq(j, items)) == NodesCount(items)
    decreases items
  {
    if items != [] {
      var init := items[..|items| - 1];
      var last := items[|items| - 1];
      var n := NodesCount(init);
      var front := ConvertedSeq(j, init);
      var d := Converted(j + n, last);
      assert ConvertedSeq(j, items) == front + [d];
      assert NodesCount(items) == n + NodeCount(last);
      CountConverted(j, init);
      if last.Submenu? {
        CountConverted(j + n + 1, last.children.menuItems);
      }
      ConvertedNodeCount(j + n, last);
      CountItemsSnoc(front, d);
    }
  }

  /** Counting one more node at the end of a level. */
  lemma CountItemsSnoc<T>(ds: seq<MenuItemData<T>>, d: MenuItemData<T>)
    ensures CountItems(ds + [d]) == CountItems(ds) + 1 + CountItems(d.children)
  {
    assert (ds + [d])[..|ds|] == ds;
  }

  /** A converted node and the nodes below it are as many as the source node's subtree, given that for its children. */
  lemma ConvertedNodeCount<T>(j: nat, item: MenuItem<T>)
    requires item.Submenu? ==> CountItems(ConvertedSeq(j + 1, item.children.menuItems)) == NodesCount(item.children.menuItems)
    ensures CountItems(Converted(j, item).children) + 1 == NodeCount(item)
  {
    if !item.Submenu? {
      assert Converted(j, item).children == [];
    }
  }

  // ---------------------------------------------------------------------
  // The unit test of src/sys/linux/mod.rs
  // ---------------------------------------------------------------------

  datatype Events =
    | CheckableItem1 | Item1 | SubItem1 | SubItem2 | SubItem3 | SubItem4
    | SubSubItem1 | SubSubItem2 | SubSubItem3

  /** The `cond` closure of the test, as passed to `when`. */
  function WhenCond(cond: bool): MenuBuilder<Events> -> MenuBuilder<Events>
  {
    (f: MenuBuilder<Events>) => if cond then f.WithItem("Foo", Events.Item1) else f
  }

  function SubSubMenu(): MenuBuilder<Events>
  {
    New()
      .WithItem("Sub Sub item 1", Events.SubSubItem1)
      .WithItem("Sub Sub Item 2", Events.SubSubItem2)
      .WithItem("Sub Sub Item 3", Events.SubSubItem3)
  }

  function SubMenu(cond: bool): MenuBuilder<Events>
  {
    New()
      .WithItem("Sub item 1", Events.SubItem1)
      .WithItem("Sub Item 2", Events.SubItem2)
      .WithItem("Sub Item 3", Events.SubItem3)
      .WithSubmenu("Sub Sub menu", SubSubMenu())
      .When(WhenCond(cond))
      .WithItem("Sub Item 4", Events.SubItem4)
  }

  function TestBuilder(cond: bool): MenuBuilder<Events>
  {
    New()
      .WithCheckable("This is checkable", true, Events.CheckableItem1)
      .WithSubmenu("Sub Menu", SubMenu(cond))
      .WithItem("Item 1", Events.Item1)
  }

  /** Appending one item, as every appender of the builder does, adds that item's nodes to the count. */
  lemma AppendedCount<T>(b: MenuBuilder<T>, r: MenuBuilder<T>)
    requires |r.menuItems| == |b.menuItems| + 1 && r.menuItems[..|b.menuItems|] == b.menuItems
    ensures NodesCount(r.menuItems) == NodesCount(b.menuItems) + NodeCount(r.menuItems[|b.menuItems|])
  {
  }

  lemma SubSubMenuCount()
    ensures NodesCount(SubSubMenu().menuItems) == 3
  {
    var b0 := New<Events>();
    var b1 := b0.WithItem("Sub Sub item 1", Events.SubSubItem1);
    var b2 := b1.WithItem("Sub Sub Item 2", Events.SubSubItem2);
    var b3 := b2.WithItem("Sub Sub Item 3", Events.SubSubItem3);
    AppendedCount(b0, b1);
    AppendedCount(b1, b2);
    AppendedCount(b2, b3);
  }

  lemma SubMenuCount()
    ensures NodesCount(SubMenu(false).menuItems) == 8
  {
    var b0 := New<Events>();
    var b1 := b0.WithItem("Sub item 1", Events.SubItem1);
    var b2 := b1.WithItem("Sub Item 2", Events.SubItem2);
    var b3 := b2.WithItem("Sub Item 3", Events.SubItem3);
    var b4 := b3.WithSubmenu("Sub Sub menu", SubSubMenu());
    var b5 := b4.When(WhenCond(false));
    assert b5 == b4;
    var b6 := b5.WithItem("Sub Item 4", Events.SubItem4);
    AppendedCount(b0, b1);
    AppendedCount(b1, b2);
    AppendedCount(b2, b3);
    AppendedCount(b3, b4);
    SubSubMenuCount();
    AppendedCount(b5, b6);
  }

  /** `test_menu_build`: with `cond` false the build succeeds and the converted tree has 11 nodes. */
  lemma TestMenuBuild()
    ensures CountItems(ConvertedSeq(0, TestBuilder(false).menuItems)) == 11
    ensures NodesCount(TestBuilder(false).menuItems) == 11
  {
    var b0 := New<Events>();
    var b1 := b0.WithCheckable("This is checkable", true, Events.CheckableItem1);
    var b2 := b1.WithSubmenu("Sub Menu", SubMenu(false));
    var b3 := b2.WithItem("Item 1", Events.Item1);
    AppendedCount(b0, b1);
    AppendedCount(b1, b2);
    SubMenuCount();
    AppendedCount(b2, b3);
    CountConverted(0, b3.menuItems);
  }
}
