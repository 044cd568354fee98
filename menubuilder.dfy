/**
 * The menu tree built by applications (src/menubuilder.rs): the item
 * variants, the consuming fluent builder, and the mutate-by-id search
 * that backs `get_checkable`, `set_checkable` and `set_disabled`.
 *
 * The search looks for a match among the items of one level first and,
 * failing that, descends into the FIRST submenu of that level only; an id
 * that lives in a later submenu is never found. `Locate` gives the path
 * the search reaches, `Spine` the chain of levels it can visit.
 */
module MenuBuilders {
  import opened Wrappers
  import opened Errors
  import opened Icons

  datatype MenuItem<T> =
    | Separator
    | Item(id: T, name: string, disabled: bool, icon: Option<Icon>)
    | Checkable(id: T, name: string, isChecked: bool, disabled: bool, icon: Option<Icon>)
    | Submenu(submenuId: Option<T>, name: string, children: MenuBuilder<T>, disabled: bool, icon: Option<Icon>)

  /** The closure handed to `mutate_item`: it sees the found item and returns its verdict and the item's new value. */
  type Mutation<!T> = MenuItem<T> -> (Result<(), Error>, MenuItem<T>)

  datatype MenuBuilder<T> = MenuBuilder(menuItems: seq<MenuItem<T>>)
  {
    /** `with`: append an arbitrary item. */
    function With(item: MenuItem<T>): (r: MenuBuilder<T>)
      ensures |r.menuItems| == |menuItems| + 1
      ensures r.menuItems[..|menuItems|] == menuItems
      ensures r.menuItems[|menuItems|] == item
    {
      MenuBuilder(menuItems + [item])
    }

    function WithSeparator(): (r: MenuBuilder<T>)
      ensures |r.menuItems| == |menuItems| + 1
      ensures r.menuItems[..|menuItems|] == menuItems
      ensures r.menuItems[|menuItems|].Separator?
    {
      With(Separator)
    }

    function WithItem(name: string, id: T): (r: MenuBuilder<T>)
      ensures |r.menuItems| == |menuItems| + 1
      ensures r.menuItems[..|menuItems|] == menuItems
      ensures var it := r.menuItems[|menuItems|];
        it.Item? && it.id == id && it.name == name && !it.disabled && it.icon == None
    {
      With(Item(id, name, false, None))
    }

    function WithCheckable(name: string, isChecked: bool, id: T): (r: MenuBuilder<T>)
      ensures |r.menuItems| == |menuItems| + 1
      ensures r.menuItems[..|menuItems|] == menuItems
      ensures var it := r.menuItems[|menuItems|];
        it.Checkable? && it.id == id && it.name == name && it.isChecked == isChecked
        && !it.disabled && it.icon == None
    {
      With(Checkable(id, name, isChecked, false, None))
    }

    /** `submenu`: a submenu built this way never carries an id of its own. */
    function WithSubmenu(name: string, menu: MenuBuilder<T>): (r: MenuBuilder<T>)
      ensures |r.menuItems| == |menuItems| + 1
      ensures r.menuItems[..|menuItems|] == menuItems
      ensures var it := r.menuItems[|menuItems|];
        it.Submenu? && it.submenuId == None && it.name == name && it.children == menu
        && !it.disabled && it.icon == None
    {
      With(Submenu(None, name, menu, false, None))
    }

    /** `when`: conditional composition, `f(self)`. */
    function When(f: MenuBuilder<T> -> MenuBuilder<T>): MenuBuilder<T>
    {
      f(this)
    }
  }

  function New<T>(): MenuBuilder<T>
  {
    MenuBuilder([])
  }

  // ---------------------------------------------------------------------
  // The search of `_mutate_item_recurse_ref`
  // ---------------------------------------------------------------------

  /** The `find` predicate: an Item or Checkable with this id, or a Submenu whose id is `Some` of it. */
  predicate Matches<T(==)>(item: MenuItem<T>, findId: T)
  {
    match item
    case Separator => false
    case Item(id, _, _, _) => id == findId
    case Checkable(id, _, _, _, _) => id == findId
    case Submenu(sid, _, _, _, _) => sid == Some(findId)
  }

  /** `iter_mut().find(..)` over one level: the index of the first match, or `|items|` when none. */
  function FirstMatch<T(==)>(items: seq<MenuItem<T>>, findId: T): (k: nat)
    ensures k <= |items|
    ensures k < |items| ==> Matches(items[k], findId)
    ensures forall i :: 0 <= i < k ==> !Matches(items[i], findId)
  {
    if items == [] then 0
    else if Matches(items[0], findId) then 0
    else 1 + FirstMatch(items[1..], findId)
  }

  /** The second `find`: the index of the first Submenu of the level, or `|items|` when none. */
  function FirstSubmenu<T>(items: seq<MenuItem<T>>): (k: nat)
    ensures k <= |items|
    ensures k < |items| ==> items[k].Submenu?
    ensures forall i :: 0 <= i < k ==> !items[i].Submenu?
  {
    if items == [] then 0
    else if items[0].Submenu? then 0
    else 1 + FirstSubmenu(items[1..])
  }

  /**
   * `_mutate_item_recurse_ref`, on values: apply `f` to the first match of
   * this level; otherwise recurse into the first submenu only; otherwise
   * fail with `MenuItemNotFound`, leaving the tree as it was.
   */
  function MutateItem<T(==)>(b: MenuBuilder<T>, findId: T, f: Mutation<T>): (Result<(), Error>, MenuBuilder<T>)
    decreases b
  {
    var items := b.menuItems;
    var k := FirstMatch(items, findId);
    if k < |items| then
      var (res, item) := f(items[k]);
      (res, MenuBuilder(items[k := item]))
    else
      var s := FirstSubmenu(items);
      if s < |items| then
        var sub := items[s];
        var (res, children) := MutateItem(sub.children, findId, f);
        (res, MenuBuilder(items[s := sub.(children := children)]))
      else
        (Err(MenuItemNotFound), b)
  }

  // ---------------------------------------------------------------------
  // Paths: the reference view of where the search lands
  // ---------------------------------------------------------------------

  /** A path is a non-empty list of indices, every index but the last selecting a Submenu. */
  predicate ValidPath<T>(b: MenuBuilder<T>, p: seq<nat>)
    decreases p
  {
    |p| >= 1 && p[0] < |b.menuItems| &&
    (|p| > 1 ==> b.menuItems[p[0]].Submenu? && ValidPath(b.menuItems[p[0]].children, p[1..]))
  }

  function At<T>(b: MenuBuilder<T>, p: seq<nat>): MenuItem<T>
    requires ValidPath(b, p)
    decreases p
  {
    if |p| == 1 then b.menuItems[p[0]] else At(b.menuItems[p[0]].children, p[1..])
  }

  /** The tree with the item at `p` replaced by `x`. */
  function UpdateAt<T>(b: MenuBuilder<T>, p: seq<nat>, x: MenuItem<T>): (r: MenuBuilder<T>)
    requires ValidPath(b, p)
    ensures |r.menuItems| == |b.menuItems|
    decreases p
  {
    var items := b.menuItems;
    if |p| == 1 then MenuBuilder(items[p[0] := x])
    else
      var sub := items[p[0]];
      MenuBuilder(items[p[0] := sub.(children := UpdateAt(sub.children, p[1..], x))])
  }

  /** The path of the item the search of `_mutate_item_recurse_ref` reaches, if any. */
  function Locate<T(==)>(b: MenuBuilder<T>, findId: T): (r: Option<seq<nat>>)
    ensures r.Some? ==> ValidPath(b, r.value) && Matches(At(b, r.value), findId)
    decreases b
  {
    var items := b.menuItems;
    var k := FirstMatch(items, findId);
    if k < |items| then Some([k])
    else
      var s := FirstSubmenu(items);
      if s < |items| then
        match Locate(items[s].children, findId)
        case Some(p) => Some([s] + p)
        case None => None
      else None
  }

  /** The levels the search can visit: this one, then the first submenu's, and so on down. */
  function Spine<T>(b: MenuBuilder<T>): (r: seq<MenuBuilder<T>>)
    ensures |r| >= 1 && r[0] == b
    decreases b
  {
    var s := FirstSubmenu(b.menuItems);
    if s < |b.menuItems| then [b] + Spine(b.menuItems[s].children) else [b]
  }

  /** The id occurs anywhere in the tree, at any depth, in any submenu. */
  ghost predicate ContainsId<T>(b: MenuBuilder<T>, findId: T)
    decreases b
  {
    exists i :: 0 <= i < |b.menuItems| && ItemContainsId(b.menuItems[i], findId)
  }

  ghost predicate ItemContainsId<T>(item: MenuItem<T>, findId: T)
    decreases item
  {
    Matches(item, findId) || (item.Submenu? && ContainsId(item.children, findId))
  }

  /** An item that one level of the search treats exactly as `x`: same variant and same id. */
  ghost predicate SameId<T>(x: MenuItem<T>, y: MenuItem<T>)
  {
    match x
    case Separator => y.Separator?
    case Item(id, _, _, _) => y.Item? && y.id == id
    case Checkable(id, _, _, _, _) => y.Checkable? && y.id == id
    case Submenu(sid, _, _, _, _) => y.Submenu? && y.submenuId == sid
  }

  /** An item that `Locate` treats exactly as `x` at any depth: same id and, for a Submenu, same children. */
  ghost predicate SameKey<T>(x: MenuItem<T>, y: MenuItem<T>)
  {
    SameId(x, y) && (x.Submenu? ==> y.children == x.children)
  }

  // ---------------------------------------------------------------------
  // The three operations built on mutate_item
  // ---------------------------------------------------------------------

  /** The closure of `set_checkable`. */
  function SetCheckedTo<T>(checked: bool): Mutation<T>
  {
    (i: MenuItem<T>) =>
      if i.Checkable? then (Ok(()), i.(isChecked := checked)) else (Err(MenuItemNotFound), i)
  }

  /** The closure of `set_disabled`: a Separator is refused, every other variant takes the flag. */
  function SetDisabledTo<T>(disabled: bool): Mutation<T>
  {
    (i: MenuItem<T>) =>
      if i.Separator? then (Err(MenuItemNotFound), i) else (Ok(()), i.(disabled := disabled))
  }

  /** The closure of `get_checkable`: it only reads the item. */
  function ProbeCheckable<T>(): Mutation<T>
  {
    (i: MenuItem<T>) => if i.Checkable? then (Ok(()), i) else (Err(MenuItemNotFound), i)
  }

  function SetCheckable<T(==)>(b: MenuBuilder<T>, id: T, checked: bool): (Result<(), Error>, MenuBuilder<T>)
  {
    MutateItem(b, id, SetCheckedTo(checked))
  }

  function SetDisabled<T(==)>(b: MenuBuilder<T>, id: T, disabled: bool): (Result<(), Error>, MenuBuilder<T>)
  {
    MutateItem(b, id, SetDisabledTo(disabled))
  }

  /** `get_checkable`: the checked state of the item the search reaches, when that item is Checkable. */
  function GetCheckable<T(==)>(b: MenuBuilder<T>, id: T): Option<bool>
  {
    match Locate(b, id)
    case None => None
    case Some(p) => if At(b, p).Checkable? then Some(At(b, p).isChecked) else None
  }

  // ---------------------------------------------------------------------
  // Lemmas
  // ---------------------------------------------------------------------

  /** The recursive mutation equals: locate the item, apply `f` to it, and write the result back at that path. */
  lemma {:induction false} MutateItemAtLocate<T>(b: MenuBuilder<T>, findId: T, f: Mutation<T>)
    ensures match Locate(b, findId)
      case None => MutateItem(b, findId, f) == (Err(MenuItemNotFound), b)
      case Some(p) =>
        MutateItem(b, findId, f) == (f(At(b, p)).0, UpdateAt(b, p, f(At(b, p)).1))
    decreases b
  {
    var items := b.menuItems;
    var k := FirstMatch(items, findId);
    if k >= |items| {
      var s := FirstSubmenu(items);
      if s < |items| {
        MutateItemAtLocate(items[s].children, findId, f);
        match Locate(items[s].children, findId)
        case Some(p) =>
          assert Locate(b, findId) == Some([s] + p);
          assert ([s] + p)[1..] == p;
        case None =>
          var sub := items[s];
          assert sub.(children := sub.children) == sub;
          assert items[s := sub] == items;
      }
    }
  }

  /** Writing back the item already at a path changes nothing. */
  lemma {:induction false} UpdateAtSame<T>(b: MenuBuilder<T>, p: seq<nat>)
    requires ValidPath(b, p)
    ensures UpdateAt(b, p, At(b, p)) == b
    decreases p
  {
    var items := b.menuItems;
    if |p| == 1 {
      assert items[p[0] := items[p[0]]] == items;
    } else {
      var sub := items[p[0]];
      UpdateAtSame(sub.children, p[1..]);
      assert sub.(children := sub.children) == sub;
      assert items[p[0] := sub] == items;
    }
  }

  /** After an update the path still leads somewhere, and to the new item. */
  lemma {:induction false} AtUpdateAt<T>(b: MenuBuilder<T>, p: seq<nat>, x: MenuItem<T>)
    requires ValidPath(b, p)
    ensures ValidPath(UpdateAt(b, p, x), p) && At(UpdateAt(b, p, x), p) == x
    decreases p
  {
    if |p| > 1 {
      AtUpdateAt(b.menuItems[p[0]].children, p[1..], x);
    }
  }

  /** The first match is the only index that matches with no match before it. */
  lemma FirstMatchAt<T>(items: seq<MenuItem<T>>, findId: T, k: nat)
    requires k <= |items|
    requires k < |items| ==> Matches(items[k], findId)
    requires forall i :: 0 <= i < k ==> !Matches(items[i], findId)
    ensures FirstMatch(items, findId) == k
  {
  }

  lemma FirstSubmenuAt<T>(items: seq<MenuItem<T>>, k: nat)
    requires k <= |items|
    requires k < |items| ==> items[k].Submenu?
    requires forall i :: 0 <= i < k ==> !items[i].Submenu?
    ensures FirstSubmenu(items) == k
  {
  }

  /** Two levels that agree item by item on variant and id agree on both searches of a level. */
  lemma FirstMatchUpdate<T>(items: seq<MenuItem<T>>, k: nat, x: MenuItem<T>, findId: T)
    requires k < |items| && SameId(items[k], x)
    ensures FirstMatch(items[k := x], findId) == FirstMatch(items, findId)
    ensures FirstSubmenu(items[k := x]) == FirstSubmenu(items)
  {
    var items' := items[k := x];
    assert forall i :: 0 <= i < |items| ==> Matches(items'[i], findId) == Matches(items[i], findId);
    assert forall i :: 0 <= i < |items| ==> items'[i].Submenu? == items[i].Submenu?;
    FirstMatchAt(items', findId, FirstMatch(items, findId));
    FirstSubmenuAt(items', FirstSubmenu(items));
  }

  /** Replacing an item by one with the same key leaves every search result where it was. */
  lemma {:induction false} LocateStable<T>(b: MenuBuilder<T>, p: seq<nat>, x: MenuItem<T>, findId: T)
    requires ValidPath(b, p) && SameKey(At(b, p), x)
    ensures Locate(UpdateAt(b, p, x), findId) == Locate(b, findId)
    decreases p
  {
    var items := b.menuItems;
    var b' := UpdateAt(b, p, x);
    if |p| == 1 {
      FirstMatchUpdate(items, p[0], x, findId);
    } else {
      var sub := items[p[0]];
      var sub' := sub.(children := UpdateAt(sub.children, p[1..], x));
      assert SameId(sub, sub');
      FirstMatchUpdate(items, p[0], sub', findId);
      var s := FirstSubmenu(items);
      if FirstMatch(items, findId) >= |items| && s < |items| {
        LocateStable(sub.children, p[1..], x, findId);
        assert s == p[0] || b'.menuItems[s] == items[s];
      }
    }
  }

  /** Absence of the id anywhere in the tree means the search finds nothing and the tree stays unchanged. */
  lemma {:induction false} NotContainedNotFound<T>(b: MenuBuilder<T>, findId: T, f: Mutation<T>)
    requires !ContainsId(b, findId)
    ensures Locate(b, findId) == None
    ensures MutateItem(b, findId, f) == (Err(MenuItemNotFound), b)
    decreases b
  {
    var items := b.menuItems;
    var k := FirstMatch(items, findId);
    assert k < |items| ==> ItemContainsId(items[k], findId);
    var s := FirstSubmenu(items);
    if s < |items| {
      assert ContainsId(items[s].children, findId) ==> ItemContainsId(items[s], findId);
      NotContainedNotFound(items[s].children, findId, f);
    }
    MutateItemAtLocate(b, findId, f);
  }

  /** A direct match at level `d` of the spine is found, at that level or above. */
  lemma {:induction false} SpineMatchFound<T>(b: MenuBuilder<T>, findId: T, d: nat)
    requires d < |Spine(b)| && FirstMatch(Spine(b)[d].menuItems, findId) < |Spine(b)[d].menuItems|
    ensures Locate(b, findId).Some? && |Locate(b, findId).value| <= d + 1
    decreases b
  {
    var items := b.menuItems;
    if d > 0 && FirstMatch(items, findId) == |items| {
      var s := FirstSubmenu(items);
      var c := items[s].children;
      assert Spine(b) == [b] + Spine(c);
      assert Spine(b)[d] == Spine(c)[d - 1];
      SpineMatchFound(c, findId, d - 1);
    }
  }

  /** A found path runs down the spine: no match and the first submenu above, the first match at its last level. */
  lemma {:induction false} LocatePathOnSpine<T>(b: MenuBuilder<T>, findId: T)
    ensures Locate(b, findId).Some? ==>
      var p := Locate(b, findId).value;
      |p| <= |Spine(b)|
      && p[|p| - 1] == FirstMatch(Spine(b)[|p| - 1].menuItems, findId)
      && p[|p| - 1] < |Spine(b)[|p| - 1].menuItems|
      && forall d :: 0 <= d < |p| - 1 ==>
           p[d] == FirstSubmenu(Spine(b)[d].menuItems)
           && FirstMatch(Spine(b)[d].menuItems, findId) == |Spine(b)[d].menuItems|
    decreases b
  {
    var items := b.menuItems;
    var sp := Spine(b);
    var k := FirstMatch(items, findId);
    if k == |items| {
      var s := FirstSubmenu(items);
      if s < |items| {
        var c := items[s].children;
        var spc := Spine(c);
        LocatePathOnSpine(c, findId);
        assert sp == [b] + spc;
        if Locate(c, findId).Some? {
          var p := Locate(c, findId).value;
          var q := [s] + p;
          assert Locate(b, findId) == Some(q);
          assert sp[|p|] == spc[|p| - 1];
          assert q[|q| - 1] == p[|p| - 1];
          forall d | 0 <= d < |q| - 1
            ensures q[d] == FirstSubmenu(sp[d].menuItems)
            ensures FirstMatch(sp[d].menuItems, findId) == |sp[d].menuItems|
          {
            if d > 0 {
              assert q[d] == p[d - 1];
              assert sp[d] == spc[d - 1];
            }
          }
        }
      }
    }
  }

  /**
   * The search succeeds exactly when some level of the spine has a direct
   * match, and it then lands at the shallowest such level.
   */
  lemma LocateOnSpine<T>(b: MenuBuilder<T>, findId: T)
    ensures Locate(b, findId).Some? <==>
      exists d :: 0 <= d < |Spine(b)| && FirstMatch(Spine(b)[d].menuItems, findId) < |Spine(b)[d].menuItems|
    ensures Locate(b, findId).Some? ==>
      |Locate(b, findId).value| <= |Spine(b)| &&
      forall d :: 0 <= d < |Locate(b, findId).value| - 1 ==>
        FirstMatch(Spine(b)[d].menuItems, findId) == |Spine(b)[d].menuItems|
  {
    LocatePathOnSpine(b, findId);
    if d :| 0 <= d < |Spine(b)| && FirstMatch(Spine(b)[d].menuItems, findId) < |Spine(b)[d].menuItems| {
      SpineMatchFound(b, findId, d);
    }
  }

  /** What `set_checkable` does, in terms of the located item. */
  lemma SetCheckableSpec<T>(b: MenuBuilder<T>, id: T, checked: bool)
    ensures match Locate(b, id)
      case None => SetCheckable(b, id, checked) == (Err(MenuItemNotFound), b)
      case Some(p) =>
        if At(b, p).Checkable?
        then SetCheckable(b, id, checked) == (Ok(()), UpdateAt(b, p, At(b, p).(isChecked := checked)))
        else SetCheckable(b, id, checked) == (Err(MenuItemNotFound), b)
  {
    MutateItemAtLocate(b, id, SetCheckedTo(checked));
    if Locate(b, id).Some? {
      UpdateAtSame(b, Locate(b, id).value);
    }
  }

  /** What `set_disabled` does: the located item (never a Separator) gets the flag and nothing else changes. */
  lemma SetDisabledSpec<T>(b: MenuBuilder<T>, id: T, disabled: bool)
    ensures match Locate(b, id)
      case None => SetDisabled(b, id, disabled) == (Err(MenuItemNotFound), b)
      case Some(p) =>
        !At(b, p).Separator?
        && SetDisabled(b, id, disabled) == (Ok(()), UpdateAt(b, p, At(b, p).(disabled := disabled)))
  {
    MutateItemAtLocate(b, id, SetDisabledTo(disabled));
  }

  /** `get_checkable` runs the search with a read-only closure: the tree is unchanged and the closure succeeds exactly when a state is returned. */
  lemma GetCheckableReadOnly<T>(b: MenuBuilder<T>, id: T)
    ensures MutateItem(b, id, ProbeCheckable()) ==
      (if GetCheckable(b, id).Some? then Ok(()) else Err(MenuItemNotFound), b)
  {
    MutateItemAtLocate(b, id, ProbeCheckable());
    if Locate(b, id).Some? {
      UpdateAtSame(b, Locate(b, id).value);
    }
  }

  /** `set_checkable` succeeds exactly when `get_checkable` finds a state. */
  lemma SetCheckableSucceedsIff<T>(b: MenuBuilder<T>, id: T, checked: bool)
    ensures SetCheckable(b, id, checked).0 == Ok(()) <==> GetCheckable(b, id).Some?
    ensures SetCheckable(b, id, checked).0 != Ok(()) ==> SetCheckable(b, id, checked).0 == Err(MenuItemNotFound)
  {
    SetCheckableSpec(b, id, checked);
  }

  /** After a successful `set_checkable(id, v)`, `get_checkable(id)` reads `v`. */
  lemma GetAfterSetCheckable<T>(b: MenuBuilder<T>, id: T, checked: bool)
    requires SetCheckable(b, id, checked).0 == Ok(())
    ensures GetCheckable(SetCheckable(b, id, checked).1, id) == Some(checked)
  {
    SetCheckableSpec(b, id, checked);
    var p := Locate(b, id).value;
    var x := At(b, p).(isChecked := checked);
    LocateStable(b, p, x, id);
    AtUpdateAt(b, p, x);
  }

  /** Applying `set_checkable(id, v)` twice gives the same result and tree as applying it once. */
  lemma SetCheckableIdempotent<T>(b: MenuBuilder<T>, id: T, checked: bool)
    ensures var once := SetCheckable(b, id, checked);
      SetCheckable(once.1, id, checked) == once
  {
    SetCheckableSpec(b, id, checked);
    var once := SetCheckable(b, id, checked);
    if p :| Locate(b, id) == Some(p) {
      if At(b, p).Checkable? {
        var x := At(b, p).(isChecked := checked);
        LocateStable(b, p, x, id);
        AtUpdateAt(b, p, x);
        SetCheckableSpec(once.1, id, checked);
        assert x.(isChecked := checked) == x;
        UpdateAtSame(once.1, p);
      }
    }
  }

  /** Applying `set_disabled(id, v)` twice gives the same result and tree as applying it once. */
  lemma SetDisabledIdempotent<T>(b: MenuBuilder<T>, id: T, disabled: bool)
    ensures var once := SetDisabled(b, id, disabled);
      SetDisabled(once.1, id, disabled) == once
  {
    SetDisabledSpec(b, id, disabled);
    var once := SetDisabled(b, id, disabled);
    if p :| Locate(b, id) == Some(p) {
      var x := At(b, p).(disabled := disabled);
      LocateStable(b, p, x, id);
      AtUpdateAt(b, p, x);
      SetDisabledSpec(once.1, id, disabled);
      assert x.(disabled := disabled) == x;
      UpdateAtSame(once.1, p);
    }
  }

  /** When a level holds no match, the search continues in its first submenu and prefixes that submenu's index. */
  lemma LocateDescends<T>(b: MenuBuilder<T>, findId: T, s: nat)
    requires FirstMatch(b.menuItems, findId) == |b.menuItems|
    requires FirstSubmenu(b.menuItems) == s < |b.menuItems|
    ensures Locate(b, findId) ==
      match Locate(b.menuItems[s].children, findId)
      case Some(p) => Some([s] + p)
      case None => None
  {
  }

  // ---------------------------------------------------------------------
  // The unit test of src/menubuilder.rs and the search-order examples
  // ---------------------------------------------------------------------

  datatype Events =
    | Item1 | Item2 | Item3 | Item4 | DisabledItem1
    | CheckItem1 | CheckItem2 | SubItem1 | SubItem2 | SubItem3

  /** The `menu_builder(checked, disabled)` closure of `test_menu_mutation`. */
  function TestMenu(checked: bool, disabled: bool): MenuBuilder<Events>
  {
    New()
      .WithItem("Item 4 Set Tooltip", Item4)
      .WithItem("Item 3 Replace Menu \U{F8FF}\U{00FC}\U{00EB}\U{00E7}", Item3)
      .WithItem("Item 2 Change Icon Green", Item2)
      .WithItem("Item 1 Change Icon Red", Item1)
      .WithSeparator()
      .WithCheckable("This is checkable", checked, CheckItem1)
      .WithSubmenu(
        "Sub Menu",
        New()
          .WithItem("Sub item 1", SubItem1)
          .WithItem("Sub Item 2", SubItem2)
          .WithCheckable("This is checkable", checked, CheckItem2)
          .WithItem("Sub Item 3", SubItem3))
      .With(Item(DisabledItem1, "Item Disabled", disabled, None))
  }

  /**
   * The test menu written out item by item, with the state of each item the
   * test mutates as its own parameter: `menu_builder(c, d)` is `TestItems(c, d, c)`.
   */
  function TestItems(checked1: bool, disabled: bool, checked2: bool): seq<MenuItem<Events>>
  {
    [ Item(Item4, "Item 4 Set Tooltip", false, None),
      Item(Item3, "Item 3 Replace Menu \U{F8FF}\U{00FC}\U{00EB}\U{00E7}", false, None),
      Item(Item2, "Item 2 Change Icon Green", false, None),
      Item(Item1, "Item 1 Change Icon Red", false, None),
      Separator,
      Checkable(CheckItem1, "This is checkable", checked1, false, None),
      Submenu(None, "Sub Menu", TestSubItems(checked2), false, None),
      Item(DisabledItem1, "Item Disabled", disabled, None) ]
  }

  function TestSubItems(checked: bool): MenuBuilder<Events>
  {
    MenuBuilder([
      Item(SubItem1, "Sub item 1", false, None),
      Item(SubItem2, "Sub Item 2", false, None),
      Checkable(CheckItem2, "This is checkable", checked, false, None),
      Item(SubItem3, "Sub Item 3", false, None) ])
  }

  /** The submenu of the test menu, built with the appenders, is `TestSubItems`. */
  lemma TestSubMenuItems(checked: bool)
    ensures New<Events>()
      .WithItem("Sub item 1", SubItem1)
      .WithItem("Sub Item 2", SubItem2)
      .WithCheckable("This is checkable", checked, CheckItem2)
      .WithItem("Sub Item 3", SubItem3) == TestSubItems(checked)
  {
    var s1 := New<Events>().WithItem("Sub item 1", SubItem1);
    var s2 := s1.WithItem("Sub Item 2", SubItem2);
    var s3 := s2.WithCheckable("This is checkable", checked, CheckItem2);
    var s4 := s3.WithItem("Sub Item 3", SubItem3);
    assert s4.menuItems == TestSubItems(checked).menuItems;
  }

  lemma TestMenuItems(checked: bool, disabled: bool)
    ensures TestMenu(checked, disabled) == MenuBuilder(TestItems(checked, disabled, checked))
  {
    var items := TestItems(checked, disabled, checked);
    TestSubMenuItems(checked);
    var s4 := TestSubItems(checked);
    var b1 := New<Events>().WithItem("Item 4 Set Tooltip", Item4);
    var b2 := b1.WithItem("Item 3 Replace Menu \U{F8FF}\U{00FC}\U{00EB}\U{00E7}", Item3);
    var b3 := b2.WithItem("Item 2 Change Icon Green", Item2);
    var b4 := b3.WithItem("Item 1 Change Icon Red", Item1);
    assert b4.menuItems == items[..4];
    var b5 := b4.WithSeparator();
    assert b5.menuItems == items[..5];
    var b6 := b5.WithCheckable("This is checkable", checked, CheckItem1);
    assert b6.menuItems == items[..6];
    var b7 := b6.WithSubmenu("Sub Menu", s4);
    assert b7.menuItems == items[..7];
    var b8 := b7.With(Item(DisabledItem1, "Item Disabled", disabled, None));
    assert b8.menuItems == items[..7] + [items[7]];
  }

  /** Where the items of the test menu sit, and what precedes them. */
  lemma TestItemsShape(c1: bool, d: bool, c2: bool)
    ensures var t := TestItems(c1, d, c2);
      |t| == 8
      && t[5] == Checkable(CheckItem1, "This is checkable", c1, false, None)
      && t[6] == Submenu(None, "Sub Menu", TestSubItems(c2), false, None)
      && t[7] == Item(DisabledItem1, "Item Disabled", d, None)
      && (forall i :: 0 <= i < 6 ==> !t[i].Submenu?)
  {
  }

  /** Which ids the search meets before reaching each of the three items the test mutates. */
  lemma TestItemsIds(c1: bool, d: bool, c2: bool)
    ensures var t := TestItems(c1, d, c2);
      (forall i :: 0 <= i < 5 ==> !Matches(t[i], CheckItem1))
      && (forall i :: 0 <= i < 7 ==> !Matches(t[i], DisabledItem1))
      && (forall i :: 0 <= i < 8 ==> !Matches(t[i], CheckItem2))
  {
  }

  /** Replacing one mutated item of the test menu yields the test menu with that state changed. */
  lemma TestItemsUpdate(c1: bool, d: bool, c2: bool, x: bool)
    ensures TestItems(c1, d, c2)[5 := Checkable(CheckItem1, "This is checkable", x, false, None)] == TestItems(x, d, c2)
    ensures TestItems(c1, d, c2)[7 := Item(DisabledItem1, "Item Disabled", x, None)] == TestItems(c1, x, c2)
    ensures TestItems(c1, d, c2)[6 := Submenu(None, "Sub Menu", TestSubItems(x), false, None)] == TestItems(c1, d, x)
  {
  }

  lemma TestSubItemsShape(c2: bool, x: bool)
    ensures var t := TestSubItems(c2).menuItems;
      |t| == 4
      && t[2] == Checkable(CheckItem2, "This is checkable", c2, false, None)
      && (forall i :: 0 <= i < 2 ==> !Matches(t[i], CheckItem2))
      && t[2 := Checkable(CheckItem2, "This is checkable", x, false, None)] == TestSubItems(x).menuItems
  {
  }

  /** `set_checkable(CheckItem1, x)` on the test menu: found at the top level, index 5. */
  lemma TestSetCheckItem1(c1: bool, d: bool, c2: bool, x: bool)
    ensures SetCheckable(MenuBuilder(TestItems(c1, d, c2)), CheckItem1, x)
         == (Ok(()), MenuBuilder(TestItems(x, d, c2)))
  {
    var items := TestItems(c1, d, c2);
    var b := MenuBuilder(items);
    TestItemsShape(c1, d, c2);
    TestItemsIds(c1, d, c2);
    FirstMatchAt(items, CheckItem1, 5);
    assert Locate(b, CheckItem1) == Some([5]);
    SetCheckableSpec(b, CheckItem1, x);
    TestItemsUpdate(c1, d, c2, x);
    assert At(b, [5]) == items[5];
  }

  /** `set_disabled(DisabledItem1, x)` on the test menu: found at the top level, index 7, after the submenu. */
  lemma TestSetDisabledItem1(c1: bool, d: bool, c2: bool, x: bool)
    ensures SetDisabled(MenuBuilder(TestItems(c1, d, c2)), DisabledItem1, x)
         == (Ok(()), MenuBuilder(TestItems(c1, x, c2)))
  {
    var items := TestItems(c1, d, c2);
    var b := MenuBuilder(items);
    TestItemsShape(c1, d, c2);
    TestItemsIds(c1, d, c2);
    FirstMatchAt(items, DisabledItem1, 7);
    assert Locate(b, DisabledItem1) == Some([7]);
    SetDisabledSpec(b, DisabledItem1, x);
    TestItemsUpdate(c1, d, c2, x);
    assert At(b, [7]) == items[7];
  }

  /** `set_checkable(CheckItem2, x)` on the test menu: not at the top level, found at index 2 of the submenu. */
  lemma TestSetCheckItem2(c1: bool, d: bool, c2: bool, x: bool)
    ensures SetCheckable(MenuBuilder(TestItems(c1, d, c2)), CheckItem2, x)
         == (Ok(()), MenuBuilder(TestItems(c1, d, x)))
  {
    var b := MenuBuilder(TestItems(c1, d, c2));
    TestLocateCheckItem2(c1, d, c2);
    TestAtCheckItem2(c1, d, c2);
    SetCheckableSpec(b, CheckItem2, x);
    TestUpdateCheckItem2(c1, d, c2, x);
  }

  lemma TestAtCheckItem2(c1: bool, d: bool, c2: bool)
    ensures ValidPath(MenuBuilder(TestItems(c1, d, c2)), [6, 2])
    ensures At(MenuBuilder(TestItems(c1, d, c2)), [6, 2]) == Checkable(CheckItem2, "This is checkable", c2, false, None)
  {
    TestItemsShape(c1, d, c2);
    TestSubItemsShape(c2, c2);
    assert [6, 2][1..] == [2];
  }

  lemma TestUpdateCheckItem2(c1: bool, d: bool, c2: bool, x: bool)
    requires ValidPath(MenuBuilder(TestItems(c1, d, c2)), [6, 2])
    ensures UpdateAt(MenuBuilder(TestItems(c1, d, c2)), [6, 2], Checkable(CheckItem2, "This is checkable", x, false, None))
         == MenuBuilder(TestItems(c1, d, x))
  {
    var items := TestItems(c1, d, c2);
    var y := Checkable(CheckItem2, "This is checkable", x, false, None);
    TestItemsShape(c1, d, c2);
    TestSubItemsShape(c2, x);
    TestItemsUpdate(c1, d, c2, x);
    assert [6, 2][1..] == [2];
    assert UpdateAt(TestSubItems(c2), [2], y) == TestSubItems(x);
    var top := Submenu(None, "Sub Menu", TestSubItems(x), false, None);
    assert items[6].(children := TestSubItems(x)) == top;
  }

  lemma TestLocateCheckItem2(c1: bool, d: bool, c2: bool)
    ensures Locate(MenuBuilder(TestItems(c1, d, c2)), CheckItem2) == Some([6, 2])
  {
    var b := MenuBuilder(TestItems(c1, d, c2));
    var p: seq<nat> := [6, 2];
    assert [6] + [2] == p;
    TestTopLevelSearch(c1, d, c2);
    TestSubLevelSearch(c2);
    TestItemsShape(c1, d, c2);
    LocateDescends(b, CheckItem2, 6);
  }

  /** At the top level `CheckItem2` is not found, and the first submenu is at index 6. */
  lemma TestTopLevelSearch(c1: bool, d: bool, c2: bool)
    ensures FirstMatch(TestItems(c1, d, c2), CheckItem2) == 8
    ensures FirstSubmenu(TestItems(c1, d, c2)) == 6
  {
    var items := TestItems(c1, d, c2);
    TestItemsShape(c1, d, c2);
    TestItemsIds(c1, d, c2);
    FirstMatchAt(items, CheckItem2, 8);
    FirstSubmenuAt(items, 6);
  }

  /** In the submenu `CheckItem2` is found at index 2. */
  lemma TestSubLevelSearch(c2: bool)
    ensures Locate(TestSubItems(c2), CheckItem2) == Some([2])
  {
    TestSubItemsShape(c2, c2);
    FirstMatchAt(TestSubItems(c2).menuItems, CheckItem2, 2);
  }

  /** `test_menu_mutation`: the three mutations turn `menu_builder(false, false)` into `menu_builder(true, true)`. */
  lemma TestMenuMutation()
    ensures
      var m1 := SetCheckable(TestMenu(false, false), CheckItem1, true);
      var m2 := SetDisabled(m1.1, DisabledItem1, true);
      var m3 := SetCheckable(m2.1, CheckItem2, true);
      m1.0 == Ok(()) && m2.0 == Ok(()) && m3.0 == Ok(()) && m3.1 == TestMenu(true, true)
  {
    TestMenuItems(false, false);
    TestMenuItems(true, true);
    TestSetCheckItem1(false, false, false, true);
    TestSetDisabledItem1(true, false, false, true);
    TestSetCheckItem2(true, true, false, true);
  }

  /** A menu whose second submenu holds the only checkable item. */
  function TwoSubmenus(): MenuBuilder<Events>
  {
    New()
      .WithItem("Item 1", Item1)
      .WithSubmenu("First", New().WithItem("Sub item 1", SubItem1))
      .WithSubmenu("Second", New().WithCheckable("Checkable", false, CheckItem2))
  }

  /** An id that exists only inside a later submenu is not found: the search stops at the first submenu. */
  lemma LaterSubmenuNotSearched()
    ensures ContainsId(TwoSubmenus(), CheckItem2)
    ensures Locate(TwoSubmenus(), CheckItem2) == None
    ensures SetCheckable(TwoSubmenus(), CheckItem2, true) == (Err(MenuItemNotFound), TwoSubmenus())
    ensures GetCheckable(TwoSubmenus(), CheckItem2) == None
  {
    var b := TwoSubmenus();
    assert ItemContainsId(b.menuItems[2], CheckItem2) by {
      assert Matches(b.menuItems[2].children.menuItems[0], CheckItem2);
    }
    assert FirstSubmenu(b.menuItems) == 1;
    assert FirstMatch(b.menuItems, CheckItem2) == 3;
    assert FirstMatch(b.menuItems[1].children.menuItems, CheckItem2) == 1;
    SetCheckableSpec(b, CheckItem2, true);
  }

  /** A match at the current level wins over an equal id nested deeper, even when the top-level item is not Checkable. */
  lemma LevelMatchBeforeNested()
    ensures
      var b := New<Events>()
        .WithSubmenu("Sub", New().WithCheckable("Nested", false, CheckItem1))
        .WithItem("Top", CheckItem1);
      Locate(b, CheckItem1) == Some([1])
      && SetCheckable(b, CheckItem1, true) == (Err(MenuItemNotFound), b)
  {
    var b := New<Events>()
      .WithSubmenu("Sub", New().WithCheckable("Nested", false, CheckItem1))
      .WithItem("Top", CheckItem1);
    assert FirstMatch(b.menuItems, CheckItem1) == 1;
    SetCheckableSpec(b, CheckItem1, true);
  }
}
