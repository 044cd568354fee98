/**
 * The tray icon builder (src/trayiconbuilder.rs): a record whose setters
 * each consume the builder and return it with exactly one field replaced.
 * A builder starts with the icon missing and every optional field unset.
 */
module TrayIconBuilders {
  import opened Wrappers
  import opened Ints
  import opened Errors
  import opened Icons
  import opened Sender
  import opened MenuBuilders

  /** The fields of the record, to name the one a setter may change. */
  datatype Field = IconField | MenuField | TitleField | TooltipField | OnClickField
                 | OnDoubleClickField | OnRightClickField | ItemIsMenuField | SenderField

  datatype TrayIconBuilder<T> = TrayIconBuilder(
    icon: Result<Icon, Error>,
    menu: Option<MenuBuilder<T>>,
    title: Option<string>,
    tooltip: Option<string>,
    onClick: Option<T>,
    onDoubleClick: Option<T>,
    onRightClick: Option<T>,
    itemIsMenu: bool,
    sender: Option<TrayIconSender<T>>)
  {
    /** `when`: conditional composition, `f(self)`. */
    function When(f: TrayIconBuilder<T> -> TrayIconBuilder<T>): TrayIconBuilder<T>
    {
      f(this)
    }

    function WithSender(s: TrayIconSender<T>): (r: TrayIconBuilder<T>)
      ensures r.sender == Some(s) && AgreeExcept(this, r, SenderField)
    {
      this.(sender := Some(s))
    }

    function Title(title: string): (r: TrayIconBuilder<T>)
      ensures r.title == Some(title) && AgreeExcept(this, r, TitleField)
    {
      this.(title := Some(title))
    }

    function Tooltip(tooltip: string): (r: TrayIconBuilder<T>)
      ensures r.tooltip == Some(tooltip) && AgreeExcept(this, r, TooltipField)
    {
      this.(tooltip := Some(tooltip))
    }

    function OnClick(id: T): (r: TrayIconBuilder<T>)
      ensures r.onClick == Some(id) && AgreeExcept(this, r, OnClickField)
    {
      this.(onClick := Some(id))
    }

    function OnDoubleClick(id: T): (r: TrayIconBuilder<T>)
      ensures r.onDoubleClick == Some(id) && AgreeExcept(this, r, OnDoubleClickField)
    {
      this.(onDoubleClick := Some(id))
    }

    function OnRightClick(id: T): (r: TrayIconBuilder<T>)
      ensures r.onRightClick == Some(id) && AgreeExcept(this, r, OnRightClickField)
    {
      this.(onRightClick := Some(id))
    }

    /** `icon`: the icon is now present, whatever was stored before, `IconMissing` included. */
    function WithIcon(icon: Icon): (r: TrayIconBuilder<T>)
      ensures r.icon == Ok(icon) && AgreeExcept(this, r, IconField)
    {
      this.(icon := Ok(icon))
    }

    /**
     * `icon_from_buffer`: stores what `Icon::from_buffer` returns, an error
     * included; the platform decoder's verdict is a parameter.
     */
    function IconFromBuffer(buffer: seq<u8>, platform: Result<(), Error>): (r: TrayIconBuilder<T>)
      ensures r.icon.Ok? <==> platform.Ok?
      ensures r.icon.Ok? ==> r.icon.value.buffer == Some(buffer)
      ensures r.icon.Err? ==> r.icon.error == platform.error
      ensures AgreeExcept(this, r, IconField)
    {
      this.(icon := FromBuffer(buffer, platform))
    }

    function Menu(menu: MenuBuilder<T>): (r: TrayIconBuilder<T>)
      ensures r.menu == Some(menu) && AgreeExcept(this, r, MenuField)
    {
      this.(menu := Some(menu))
    }

    function ItemIsMenu(value: bool): (r: TrayIconBuilder<T>)
      ensures r.itemIsMenu == value && AgreeExcept(this, r, ItemIsMenuField)
    {
      this.(itemIsMenu := value)
    }
  }

  /** `a` and `b` agree on every field except possibly `f`. */
  ghost predicate AgreeExcept<T>(a: TrayIconBuilder<T>, b: TrayIconBuilder<T>, f: Field)
  {
    (f != IconField ==> a.icon == b.icon)
    && (f != MenuField ==> a.menu == b.menu)
    && (f != TitleField ==> a.title == b.title)
    && (f != TooltipField ==> a.tooltip == b.tooltip)
    && (f != OnClickField ==> a.onClick == b.onClick)
    && (f != OnDoubleClickField ==> a.onDoubleClick == b.onDoubleClick)
    && (f != OnRightClickField ==> a.onRightClick == b.onRightClick)
    && (f != ItemIsMenuField ==> a.itemIsMenu == b.itemIsMenu)
    && (f != SenderField ==> a.sender == b.sender)
  }

  /** `TrayIconBuilder::new`. */
  function New<T>(): (r: TrayIconBuilder<T>)
    ensures r.icon == Err(IconMissing) && !r.itemIsMenu
    ensures r.menu == None && r.title == None && r.tooltip == None && r.sender == None
    ensures r.onClick == None && r.onDoubleClick == None && r.onRightClick == None
  {
    TrayIconBuilder(Err(IconMissing), None, None, None, None, None, None, false, None)
  }

  /** A later call of a setter overwrites the earlier one: only the last value counts. */
  lemma SettersOverwrite<T>(b: TrayIconBuilder<T>, s1: string, s2: string, e1: T, e2: T,
                            i1: Icon, i2: Icon, m1: MenuBuilder<T>, m2: MenuBuilder<T>, v1: bool, v2: bool)
    ensures b.Title(s1).Title(s2) == b.Title(s2)
    ensures b.Tooltip(s1).Tooltip(s2) == b.Tooltip(s2)
    ensures b.OnClick(e1).OnClick(e2) == b.OnClick(e2)
    ensures b.OnDoubleClick(e1).OnDoubleClick(e2) == b.OnDoubleClick(e2)
    ensures b.OnRightClick(e1).OnRightClick(e2) == b.OnRightClick(e2)
    ensures b.WithIcon(i1).WithIcon(i2) == b.WithIcon(i2)
    ensures b.Menu(m1).Menu(m2) == b.Menu(m2)
    ensures b.ItemIsMenu(v1).ItemIsMenu(v2) == b.ItemIsMenu(v2)
  {
  }

  /** Setters of different fields commute: the order of the fluent calls does not matter. */
  lemma SettersCommute<T>(b: TrayIconBuilder<T>, s: string, t: string, e: T, i: Icon, m: MenuBuilder<T>, v: bool)
    ensures b.Title(s).Tooltip(t) == b.Tooltip(t).Title(s)
    ensures b.WithIcon(i).Menu(m) == b.Menu(m).WithIcon(i)
    ensures b.OnClick(e).OnRightClick(e) == b.OnRightClick(e).OnClick(e)
    ensures b.OnClick(e).OnDoubleClick(e) == b.OnDoubleClick(e).OnClick(e)
    ensures b.ItemIsMenu(v).Title(s) == b.Title(s).ItemIsMenu(v)
  {
  }
}
