/**
 * The `com.canonical.dbusmenu` object of the Linux back end
 * (src/sys/linux/dbus/canonical_dbus_menu.rs). Its `get_layout` serves a
 * fixed two-level layout rather than the application's menu: the root
 * (id 0) holds two checkable items, a submenu and a "Quit" item, and the
 * submenu (id 4) holds two options. Every other method is a stub with a
 * constant answer.
 */
module DbusMenus {
  import opened Wrappers
  import opened Ints

  /** The two kinds of variant the layout's properties hold. */
  datatype PropValue = StrValue(s: string) | Int32Value(n: i32)

  /** `Layout`: an id, its properties and its child layouts (sent as variants). */
  datatype Layout = Layout(id: i32, properties: map<string, PropValue>, children: seq<Layout>)

  /** `zbus::fdo::Error`, as far as the D-Bus objects use it. */
  datatype FdoError = InvalidArgs(message: string) | UnknownProperty(message: string)

  // ---------------------------------------------------------------------
  // The fixed layout
  // ---------------------------------------------------------------------

  function CheckedChild(): Layout
  {
    Layout(1, map["label" := StrValue("Checkable item (checked)"),
                  "toggle-type" := StrValue("checkbox"),
                  "toggle-state" := Int32Value(1)], [])
  }

  function UncheckedChild(): Layout
  {
    Layout(2, map["label" := StrValue("Checkable item (unchecked)"),
                  "toggle-type" := StrValue("checkbox"),
                  "toggle-state" := Int32Value(0)], [])
  }

  function SubmenuOption1(): Layout
  {
    Layout(10, map["label" := StrValue("Option 1")], [])
  }

  function SubmenuOption2(): Layout
  {
    Layout(11, map["label" := StrValue("Option 2")], [])
  }

  function SubmenuChild(): Layout
  {
    Layout(4, map["label" := StrValue("Submenu"), "children-display" := StrValue("submenu")],
           [SubmenuOption1(), SubmenuOption2()])
  }

  function QuitChild(): Layout
  {
    Layout(3, map["label" := StrValue("Quit")], [])
  }

  /** The object: a unit struct whose methods answer from constants. */
  datatype DbusMenu = DbusMenu
  {
    /**
     * `get_layout`: the root for parent 0 and the submenu for parent 4, both
     * at revision 0, with empty properties of their own; any other parent is
     * refused. The recursion depth and property names are ignored.
     */
    function GetLayout(parentId: i32, recursionDepth: i32, propertyNames: seq<string>): (r: Result<(u32, Layout), FdoError>)
      ensures r.Ok? <==> parentId == 0 || parentId == 4
      ensures r.Ok? ==> r.value.0 == 0 && r.value.1.id == parentId && r.value.1.properties == map[]
      ensures r.Err? ==> r.error == InvalidArgs("parentId not found")
    {
      if parentId == 0 then
        Ok((0, Layout(parentId, map[], [CheckedChild(), UncheckedChild(), SubmenuChild(), QuitChild()])))
      else if parentId == 4 then
        Ok((0, Layout(parentId, map[], [SubmenuOption1(), SubmenuOption2()])))
      else
        Err(InvalidArgs("parentId not found"))
    }

    /** `get_group_properties`: no properties for any id. */
    function GetGroupProperties(ids: seq<i32>, propertyNames: seq<string>): (r: Result<seq<(i32, map<string, PropValue>)>, FdoError>)
      ensures r.Ok? && |r.value| == 0
    {
      Ok([])
    }

    /** `get_property`: every lookup fails, naming the property and the id. */
    function GetProperty(id: i32, name: string): (r: Result<PropValue, FdoError>)
      ensures r.Err? && r.error.InvalidArgs?
      ensures r.error.message == "Property '" + name + "' for id " + Decimal(id) + " not found"
    {
      Err(InvalidArgs("Property '" + name + "' for id " + Decimal(id) + " not found"))
    }

    /** `event`: accepted and otherwise ignored (the log line is not modelled). */
    function Event<D>(id: i32, eventId: string, data: D, timestamp: u32): (r: Result<(), FdoError>)
      ensures r.Ok?
    {
      Ok(())
    }

    /** `event_group`: no id is reported as unknown. */
    function EventGroup<D>(events: seq<(i32, string, D, u32)>): (r: Result<seq<i32>, FdoError>)
      ensures r.Ok? && |r.value| == 0
    {
      Ok([])
    }

    /** `about_to_show`: no update is ever needed. */
    function AboutToShow(): (r: Result<bool, FdoError>)
      ensures r.Ok? && !r.value
    {
      Ok(false)
    }

    /** `about_to_show_group`: two empty lists. */
    function AboutToShowGroup(): (r: Result<(seq<i32>, seq<i32>), FdoError>)
      ensures r.Ok? && |r.value.0| == 0 && |r.value.1| == 0
    {
      Ok(([], []))
    }

    /** The `Version` property: protocol version 3. */
    function Version(): (r: Result<u32, FdoError>)
      ensures r.Ok? && r.value == 3
    {
      Ok(3)
    }

    /** The `TextDirection` property: left to right. */
    function TextDirection(): (r: Result<string, FdoError>)
      ensures r.Ok? && r.value == "ltr"
    {
      Ok("ltr")
    }

    /** The `Status` property: "normal", never "notice". */
    function Status(): (r: Result<string, FdoError>)
      ensures r.Ok? && r.value == "normal"
    {
      Ok("normal")
    }

    /** The `IconThemePath` property: no extra theme paths. */
    function IconThemePath(): (r: Result<seq<string>, FdoError>)
      ensures r.Ok? && |r.value| == 0
    {
      Ok([])
    }
  }

  /** `DbusMenu::new`. */
  function New(): DbusMenu
  {
    DbusMenu
  }

  // ---------------------------------------------------------------------
  // Decimal rendering for the `get_property` message
  // ---------------------------------------------------------------------

  function DigitChar(d: nat): (c: char)
    requires d < 10
    ensures '0' <= c <= '9' && c as int - '0' as int == d
  {
    ('0' as int + d) as char
  }

  predicate IsDigits(s: string)
  {
    forall i :: 0 <= i < |s| ==> '0' <= s[i] <= '9'
  }

  /** The digits of `n` in base 10, most significant first, as Rust's `{}` prints them. */
  function DecimalDigits(n: nat): (s: string)
    ensures |s| >= 1 && IsDigits(s)
    ensures |s| > 1 ==> s[0] != '0'
    decreases n
  {
    if n < 10 then [DigitChar(n)] else DecimalDigits(n / 10) + [DigitChar(n % 10)]
  }

  /** Rust's `{}` for an integer: a minus sign before the digits of a negative value. */
  function Decimal(n: int): string
  {
    if n < 0 then "-" + DecimalDigits(-n) else DecimalDigits(n)
  }

  /** Reading a run of decimal digits back. */
  function DigitsValue(s: string): nat
    requires IsDigits(s)
    decreases |s|
  {
    if s == [] then 0 else DigitsValue(s[..|s| - 1]) * 10 + (s[|s| - 1] as int - '0' as int)
  }

  function ParseDecimal(s: string): int
    requires |s| >= 1 && (s[0] == '-' || IsDigits(s)) && IsDigits(s[1..])
  {
    if s[0] == '-' then -(DigitsValue(s[1..]) as int) else DigitsValue(s)
  }

  lemma {:induction false} DecimalDigitsValue(n: nat)
    ensures DigitsValue(DecimalDigits(n)) == n
    decreases n
  {
    if n >= 10 {
      DecimalDigitsValue(n / 10);
      var s := DecimalDigits(n);
      assert s[..|s| - 1] == DecimalDigits(n / 10);
    }
  }

  /** The id printed in the message reads back as the same number. */
  lemma DecimalRoundTrip(n: int)
    ensures var s := Decimal(n);
      |s| >= 1 && (s[0] == '-' || IsDigits(s)) && IsDigits(s[1..]) && ParseDecimal(s) == n
  {
    if n < 0 {
      DecimalDigitsValue(-n);
      assert Decimal(n)[1..] == DecimalDigits(-n);
    } else {
      DecimalDigitsValue(n);
    }
  }

  // ---------------------------------------------------------------------
  // What the served layout promises
  // ---------------------------------------------------------------------

  /** The root's reply, as the menu host sees it. */
  function Root(): Layout
  {
    New().GetLayout(0, -1, []).value.1
  }

  function Ids(ls: seq<Layout>): seq<i32>
  {
    seq(|ls|, i requires 0 <= i < |ls| => ls[i].id)
  }

  /** Every node below `l`, pre-order. */
  function Descendants(l: Layout): seq<Layout>
    decreases l, 0
  {
    DescendantsOf(l.children)
  }

  function DescendantsOf(ls: seq<Layout>): seq<Layout>
    decreases ls
  {
    if ls == [] then [] else DescendantsOf(ls[..|ls| - 1]) + ([ls[|ls| - 1]] + Descendants(ls[|ls| - 1]))
  }

  /** The root answers with its four items in the order checked, unchecked, submenu, quit. */
  lemma RootLayout()
    ensures var r := New().GetLayout(0, -1, []);
      r.Ok? && r.value.0 == 0 && r.value.1.id == 0 && r.value.1.properties == map[]
      && Ids(r.value.1.children) == [1, 2, 4, 3]
  {
  }

  /** The items of the menu, at any depth: ids 1, 2, 4, 10, 11, 3 in pre-order, all distinct. */
  lemma RootIds()
    ensures Ids(Descendants(Root())) == [1, 2, 4, 10, 11, 3]
    ensures var ds := Descendants(Root());
      forall i, k :: 0 <= i < k < |ds| ==> ds[i].id != ds[k].id
  {
    RootDescendants();
  }

  lemma RootDescendants()
    ensures Descendants(Root()) == [CheckedChild(), UncheckedChild(), SubmenuChild(), SubmenuOption1(), SubmenuOption2(), QuitChild()]
  {
    var c, u, sub, q := CheckedChild(), UncheckedChild(), SubmenuChild(), QuitChild();
    var o1, o2 := SubmenuOption1(), SubmenuOption2();
    SnocOne(o1);
    DescendantsSnoc([o1], o2);
    assert [o1] + [o2] == sub.children;
    SnocOne(c);
    DescendantsSnoc([c], u);
    DescendantsSnoc([c] + [u], sub);
    DescendantsSnoc([c] + [u] + [sub], q);
    assert [c] + [u] + [sub] + [q] == Root().children;
  }

  lemma SnocOne(x: Layout)
    requires x.children == []
    ensures DescendantsOf([x]) == [x]
  {
    assert [x][..0] == [];
  }

  lemma DescendantsSnoc(ls: seq<Layout>, x: Layout)
    ensures DescendantsOf(ls + [x]) == DescendantsOf(ls) + ([x] + Descendants(x))
  {
    assert (ls + [x])[..|ls|] == ls;
  }

  /**
   * Asking for a node's layout gives exactly the children the root's layout
   * nests under it: the parents that are served (0 and 4) are the root and
   * the items with children.
   */
  lemma SubmenuLayoutAgrees()
    ensures var r := New().GetLayout(4, -1, []);
      r.Ok? && r.value.0 == 0 && r.value.1.id == 4 && r.value.1.properties == map[]
      && r.value.1.children == Root().children[2].children && Root().children[2].id == 4
      && Ids(r.value.1.children) == [10, 11]
  {
  }

  /** Whatever the other arguments, a parent other than 0 and 4 is refused with the same message. */
  lemma UnknownParentRefused(parentId: i32, depth: i32, names: seq<string>)
    requires parentId != 0 && parentId != 4
    ensures New().GetLayout(parentId, depth, names) == Err(InvalidArgs("parentId not found"))
  {
  }

  /** The reply does not depend on the recursion depth or on the property names asked for. */
  lemma LayoutIgnoresFilters(parentId: i32, d1: i32, d2: i32, n1: seq<string>, n2: seq<string>)
    ensures New().GetLayout(parentId, d1, n1) == New().GetLayout(parentId, d2, n2)
  {
  }

  /** The two checkable items: toggle type "checkbox", state 1 for the checked one and 0 for the other. */
  lemma ToggleStates()
    ensures var c := Root().children[0];
      c.id == 1 && c.properties["toggle-type"] == StrValue("checkbox")
      && c.properties["toggle-state"] == Int32Value(1)
    ensures var u := Root().children[1];
      u.id == 2 && u.properties["toggle-type"] == StrValue("checkbox")
      && u.properties["toggle-state"] == Int32Value(0)
  {
  }

  /** Among all the items, the ones marked `children-display` are exactly those with children: node 4 alone. */
  lemma ChildrenDisplayOnParents()
    ensures var ds := Descendants(Root());
      forall i :: 0 <= i < |ds| ==>
        ("children-display" in ds[i].properties <==> |ds[i].children| > 0)
        && ("children-display" in ds[i].properties <==> ds[i].id == 4)
  {
    RootDescendants();
  }

  /** Every item carries a label. */
  lemma EveryItemLabelled()
    ensures var ds := Descendants(Root());
      forall i :: 0 <= i < |ds| ==> "label" in ds[i].properties && ds[i].properties["label"].StrValue?
  {
    RootDescendants();
  }
}
