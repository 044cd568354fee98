/**
 * The tray icon facade (src/trayicon.rs): it keeps the builder it was made
 * from as the current state, answers setters that would not change anything
 * without bothering the platform back end, and otherwise stores the new
 * value and then forwards it. The back end is modelled by the log of calls
 * it receives; what it answers to each call is a parameter.
 */
module TrayIcons {
  import opened Wrappers
  import opened Errors
  import opened Icons
  import opened MenuBuilders
  import opened TrayIconBuilders

  /** `TrayIconStatus` (src/lib.rs). */
  datatype TrayIconStatus = Active | NeedsAttention | Passive

  /** One call of the platform back end (`TrayIconBase`). */
  datatype SysCall<T> =
    | SetIconCall(icon: Icon)
    | SetMenuCall(menu: MenuBuilder<T>)
    | SetTooltipCall(tooltip: string)
    | ShowMenuCall
    | SetStatusCall(status: TrayIconStatus)
    | GetXdgActivationTokenCall

  /** The default body of `TrayIconBase::set_status`: nothing to do. */
  function DefaultSetStatus(status: TrayIconStatus): (r: Result<(), Error>)
    ensures r.Ok?
  {
    Ok(())
  }

  /** The default body of `TrayIconBase::get_xdg_activation_token`: there is no token. */
  function DefaultGetXdgActivationToken(): (r: Option<string>)
    ensures r.None?
  {
    None
  }

  class TrayIcon<T(==)> {
    var builder: TrayIconBuilder<T>
    /** Every call made to the back end, oldest first. */
    var sys: seq<SysCall<T>>

    /** `TrayIcon::new`: the builder the back end was created from. */
    constructor(builder: TrayIconBuilder<T>)
      ensures this.builder == builder && sys == []
    {
      this.builder := builder;
      sys := [];
    }

    /** `set_icon`: the icon is compared by its buffer; an equal one is a no-op. */
    method SetIcon(icon: Icon, answer: Result<(), Error>) returns (r: Result<(), Error>)
      modifies this
      ensures old(builder.icon) == Ok(icon) ==> r == Ok(()) && builder == old(builder) && sys == old(sys)
      ensures old(builder.icon) != Ok(icon) ==>
        builder == old(builder).WithIcon(icon) && sys == old(sys) + [SetIconCall(icon)] && r == answer
    {
      if builder.icon == Ok(icon) {
        return Ok(());
      }
      builder := builder.(icon := Ok(icon));
      sys := sys + [SetIconCall(icon)];
      r := answer;
    }

    /** `set_menu`: an equal menu is a no-op. */
    method SetMenu(menu: MenuBuilder<T>, answer: Result<(), Error>) returns (r: Result<(), Error>)
      modifies this
      ensures old(builder.menu) == Some(menu) ==> r == Ok(()) && builder == old(builder) && sys == old(sys)
      ensures old(builder.menu) != Some(menu) ==>
        builder == old(builder).Menu(menu) && sys == old(sys) + [SetMenuCall(menu)] && r == answer
    {
      if builder.menu == Some(menu) {
        return Ok(());
      }
      builder := builder.(menu := Some(menu));
      sys := sys + [SetMenuCall(menu)];
      r := answer;
    }

    /** `set_tooltip`: an equal tooltip is a no-op. */
    method SetTooltip(tooltip: string, answer: Result<(), Error>) returns (r: Result<(), Error>)
      modifies this
      ensures old(builder.tooltip) == Some(tooltip) ==> r == Ok(()) && builder == old(builder) && sys == old(sys)
      ensures old(builder.tooltip) != Some(tooltip) ==>
        builder == old(builder).Tooltip(tooltip) && sys == old(sys) + [SetTooltipCall(tooltip)] && r == answer
    {
      if builder.tooltip == Some(tooltip) {
        return Ok(());
      }
      builder := builder.(tooltip := Some(tooltip));
      sys := sys + [SetTooltipCall(tooltip)];
      r := answer;
    }

    /**
     * `set_menu_item_disabled`: with a menu, the item is changed in the stored
     * menu and the whole menu is sent again, found or not; the outcome of both
     * steps is dropped.
     */
    method SetMenuItemDisabled(id: T, disabled: bool, answer: Result<(), Error>) returns (r: Result<(), Error>)
      modifies this
      ensures r == Ok(())
      ensures old(builder.menu).None? ==> builder == old(builder) && sys == old(sys)
      ensures old(builder.menu).Some? ==>
        var m := SetDisabled(old(builder.menu).value, id, disabled).1;
        builder == old(builder).Menu(m) && sys == old(sys) + [SetMenuCall(m)]
    {
      if builder.menu.Some? {
        var (_, menu) := SetDisabled(builder.menu.value, id, disabled);
        builder := builder.(menu := Some(menu));
        sys := sys + [SetMenuCall(menu)];
      }
      r := Ok(());
    }

    /** `set_menu_item_checkable`: as `set_menu_item_disabled`, with the checked state. */
    method SetMenuItemCheckable(id: T, checked: bool, answer: Result<(), Error>) returns (r: Result<(), Error>)
      modifies this
      ensures r == Ok(())
      ensures old(builder.menu).None? ==> builder == old(builder) && sys == old(sys)
      ensures old(builder.menu).Some? ==>
        var m := SetCheckable(old(builder.menu).value, id, checked).1;
        builder == old(builder).Menu(m) && sys == old(sys) + [SetMenuCall(m)]
    {
      if builder.menu.Some? {
        var (_, menu) := SetCheckable(builder.menu.value, id, checked);
        builder := builder.(menu := Some(menu));
        sys := sys + [SetMenuCall(menu)];
      }
      r := Ok(());
    }

    /** `get_menu_item_checkable`: the search of the stored menu, which it leaves as it is. */
    method GetMenuItemCheckable(id: T) returns (r: Option<bool>)
      ensures builder.menu.None? ==> r.None?
      ensures builder.menu.Some? ==> r == GetCheckable(builder.menu.value, id)
    {
      if builder.menu.Some? {
        r := GetCheckable(builder.menu.value, id);
      } else {
        r := None;
      }
    }

    /** `show_menu`: forwarded as is. */
    method ShowMenu(answer: Result<(), Error>) returns (r: Result<(), Error>)
      modifies this
      ensures r == answer && builder == old(builder) && sys == old(sys) + [ShowMenuCall]
    {
      sys := sys + [ShowMenuCall];
      r := answer;
    }

    /** `set_status`: forwarded as is. */
    method SetStatus(status: TrayIconStatus, answer: Result<(), Error>) returns (r: Result<(), Error>)
      modifies this
      ensures r == answer && builder == old(builder) && sys == old(sys) + [SetStatusCall(status)]
    {
      sys := sys + [SetStatusCall(status)];
      r := answer;
    }

    /** `get_xdg_activation_token`: forwarded as is. */
    method GetXdgActivationToken(answer: Option<string>) returns (r: Option<string>)
      modifies this
      ensures r == answer && builder == old(builder) && sys == old(sys) + [GetXdgActivationTokenCall]
    {
      sys := sys + [GetXdgActivationTokenCall];
      r := answer;
    }
  }

  /** Setting the same tooltip twice reaches the back end at most once, and the second call always succeeds. */
  method SetTooltipTwice<T(==)>(t: TrayIcon<T>, tooltip: string, a1: Result<(), Error>, a2: Result<(), Error>)
    returns (r1: Result<(), Error>, r2: Result<(), Error>)
    modifies t
    ensures r2 == Ok(()) && t.builder.tooltip == Some(tooltip)
    ensures t.sys == old(t.sys) + (if old(t.builder.tooltip) == Some(tooltip) then [] else [SetTooltipCall(tooltip)])
  {
    r1 := t.SetTooltip(tooltip, a1);
    r2 := t.SetTooltip(tooltip, a2);
  }

  /** The same for the icon: a second `set_icon` with an equal icon is silent. */
  method SetIconTwice<T(==)>(t: TrayIcon<T>, icon: Icon, a1: Result<(), Error>, a2: Result<(), Error>)
    returns (r1: Result<(), Error>, r2: Result<(), Error>)
    modifies t
    ensures r2 == Ok(()) && t.builder.icon == Ok(icon)
    ensures t.sys == old(t.sys) + (if old(t.builder.icon) == Ok(icon) then [] else [SetIconCall(icon)])
  {
    r1 := t.SetIcon(icon, a1);
    r2 := t.SetIcon(icon, a2);
  }

  /** After `set_menu_item_checkable` succeeds in the menu, `get_menu_item_checkable` reads the new state. */
  method CheckThenGet<T(==)>(t: TrayIcon<T>, id: T, checked: bool, answer: Result<(), Error>)
    returns (r: Option<bool>)
    requires t.builder.menu.Some? && SetCheckable(t.builder.menu.value, id, checked).0 == Ok(())
    modifies t
    ensures r == Some(checked)
  {
    GetAfterSetCheckable(t.builder.menu.value, id, checked);
    var _ := t.SetMenuItemCheckable(id, checked, answer);
    r := t.GetMenuItemCheckable(id);
  }
}
