/**
 * The in-process `org.kde.StatusNotifierItem` object
 * (src/sys/linux/dbus/status_notifier_item.rs). Its activation methods
 * push one event each into the channel to the event thread, modelled as the
 * sequence of events sent; its icon and tooltip are state shared with the
 * tray icon, read by the property getters. The locks around that state are
 * taken to succeed.
 */
module StatusNotifierItems {
  import opened Wrappers
  import opened Ints
  import opened Sender
  import opened Pixels
  import DbusMenus

  type FdoError = DbusMenus.FdoError

  /** `StatusNotifierEvent`: what a call of the tray host asks the application to do. */
  datatype StatusNotifierEvent =
    | Activate(x: i32, y: i32)
    | ContextMenu(x: i32, y: i32)
    | ProvideXdgActivationToken(token: string)
    | Scroll(delta: i32, orientation: string)
    | SecondaryActivate(x: i32, y: i32)

  /** `IconData`: the RGBA buffer of the current icon, if any, and its stated size. */
  datatype IconData = IconData(buffer: Option<seq<u8>>, width: u32, height: u32)

  /** One `(width, height, bytes)` entry of a pixmap property. */
  type Pixmap = (i32, i32, seq<u8>)

  const FallbackSide: i32 := 24
  const FallbackPixel: seq<u8> := [255, 255, 100, 100]

  /** `n` pixels of the fallback colour: opaque, red 255, green and blue 100. */
  function FallbackPixels(n: nat): seq<u8>
  {
    if n == 0 then [] else FallbackPixels(n - 1) + FallbackPixel
  }

  /** The single entry `icon_pixmap` answers with, for the given icon state. */
  function PixmapOf(d: IconData): Pixmap
  {
    match d.buffer
    case Some(b) => (AsI32(d.width), AsI32(d.height), Argb(b))
    case None => (FallbackSide, FallbackSide, FallbackPixels(24 * 24))
  }

  /** `n` fallback pixels are `4n` bytes, and every 4-byte pixel is the fallback colour. */
  lemma {:induction false} FallbackPixelsShape(n: nat)
    ensures |FallbackPixels(n)| == 4 * n
    ensures forall p :: 0 <= p < n ==> FallbackPixels(n)[4 * p..4 * p + 4] == FallbackPixel
  {
    if n > 0 {
      FallbackPixelsShape(n - 1);
      var prev := FallbackPixels(n - 1);
      assert FallbackPixels(n) == prev + FallbackPixel;
      forall p | 0 <= p < n
        ensures FallbackPixels(n)[4 * p..4 * p + 4] == FallbackPixel
      {
        if p < n - 1 {
          assert FallbackPixels(n)[4 * p..4 * p + 4] == prev[4 * p..4 * p + 4];
        } else {
          assert FallbackPixels(n)[4 * p..4 * p + 4] == FallbackPixel;
        }
      }
    }
  }

  /**
   * What `icon_pixmap` promises: with a buffer, the stored size cast to i32
   * and the ARGB bytes of every full chunk (the partial tail dropped, nothing
   * else lost); without one, a 24 by 24 square of 2304 bytes, every pixel
   * `[255, 255, 100, 100]`.
   */
  lemma PixmapSpec(d: IconData)
    ensures d.buffer.Some? ==>
      var (w, h, px) := PixmapOf(d);
      w == AsI32(d.width) && h == AsI32(d.height)
      && |px| == 4 * (|d.buffer.value| / 4)
      && Rgba(px) == d.buffer.value[..|px|]
      && (forall c :: 0 <= c && 4 * c + 4 <= |d.buffer.value| ==>
            px[4 * c..4 * c + 4] == [d.buffer.value[4 * c + 3], d.buffer.value[4 * c],
                                     d.buffer.value[4 * c + 1], d.buffer.value[4 * c + 2]])
    ensures d.buffer.None? ==>
      var (w, h, px) := PixmapOf(d);
      w == 24 && h == 24 && |px| == 2304
      && (forall p :: 0 <= p < 576 ==> px[4 * p..4 * p + 4] == FallbackPixel)
  {
    match d.buffer
    case Some(b) =>
      ArgbLength(b);
      ArgbRoundTrip(b);
      forall c | 0 <= c && 4 * c + 4 <= |b|
        ensures Argb(b)[4 * c..4 * c + 4] == [b[4 * c + 3], b[4 * c], b[4 * c + 1], b[4 * c + 2]]
      {
        ArgbChunk(b, c);
      }
    case None =>
      FallbackPixelsShape(576);
  }

  /** The fallback's nested loops over rows and columns, four bytes per pixel. */
  method BuildFallbackPixmap() returns (pixmap: seq<u8>)
    ensures pixmap == FallbackPixels(24 * 24)
  {
    pixmap := [];
    for y := 0 to FallbackSide
      invariant pixmap == FallbackPixels(24 * y)
    {
      for x := 0 to FallbackSide
        invariant pixmap == FallbackPixels(24 * y + x)
      {
        pixmap := pixmap + [255, 255, 100, 100];
      }
    }
  }

  /** `StatusNotifierItemImpl`: the item's id, its channel, and the shared icon and tooltip. */
  class StatusNotifierItemImpl {
    const id: string
    var channelSender: Channel<StatusNotifierEvent>
    var iconData: IconData
    var tooltip: string

    constructor(id: string, channelSender: Channel<StatusNotifierEvent>, iconData: IconData, tooltip: string)
      ensures this.id == id && this.channelSender == channelSender
      ensures this.iconData == iconData && this.tooltip == tooltip
    {
      this.id := id;
      this.channelSender := channelSender;
      this.iconData := iconData;
      this.tooltip := tooltip;
    }

    /** Sends one event; a closed receiving end is ignored, so the call always succeeds. */
    method Push(e: StatusNotifierEvent)
      modifies this
      ensures channelSender.sent == old(channelSender.sent) + [e]
      ensures iconData == old(iconData) && tooltip == old(tooltip)
    {
      channelSender := Channel(channelSender.sent + [e]);
    }

    /** `Activate`: a left click at `(x, y)`. */
    method Activate(x: i32, y: i32) returns (r: Result<(), FdoError>)
      modifies this
      ensures r == Ok(())
      ensures channelSender.sent == old(channelSender.sent) + [StatusNotifierEvent.Activate(x, y)]
      ensures iconData == old(iconData) && tooltip == old(tooltip)
    {
      Push(StatusNotifierEvent.Activate(x, y));
      r := Ok(());
    }

    /** `ContextMenu`: the menu was requested at `(x, y)`. */
    method ContextMenu(x: i32, y: i32) returns (r: Result<(), FdoError>)
      modifies this
      ensures r == Ok(())
      ensures channelSender.sent == old(channelSender.sent) + [StatusNotifierEvent.ContextMenu(x, y)]
      ensures iconData == old(iconData) && tooltip == old(tooltip)
    {
      Push(StatusNotifierEvent.ContextMenu(x, y));
      r := Ok(());
    }

    /** `ProvideXdgActivationToken`: the host hands over an activation token. */
    method ProvideXdgActivationToken(token: string) returns (r: Result<(), FdoError>)
      modifies this
      ensures r == Ok(())
      ensures channelSender.sent == old(channelSender.sent) + [StatusNotifierEvent.ProvideXdgActivationToken(token)]
      ensures iconData == old(iconData) && tooltip == old(tooltip)
    {
      Push(StatusNotifierEvent.ProvideXdgActivationToken(token));
      r := Ok(());
    }

    /** `Scroll`: a wheel movement with its delta and orientation. */
    method Scroll(delta: i32, orientation: string) returns (r: Result<(), FdoError>)
      modifies this
      ensures r == Ok(())
      ensures channelSender.sent == old(channelSender.sent) + [StatusNotifierEvent.Scroll(delta, orientation)]
      ensures iconData == old(iconData) && tooltip == old(tooltip)
    {
      Push(StatusNotifierEvent.Scroll(delta, orientation));
      r := Ok(());
    }

    /** `SecondaryActivate`: a middle click at `(x, y)`. */
    method SecondaryActivate(x: i32, y: i32) returns (r: Result<(), FdoError>)
      modifies this
      ensures r == Ok(())
      ensures channelSender.sent == old(channelSender.sent) + [StatusNotifierEvent.SecondaryActivate(x, y)]
      ensures iconData == old(iconData) && tooltip == old(tooltip)
    {
      Push(StatusNotifierEvent.SecondaryActivate(x, y));
      r := Ok(());
    }

    /** `IconName`: empty while a pixmap is available, so that hosts use the pixmap; a theme icon otherwise. */
    function IconName(): (r: Result<string, FdoError>)
      reads this
      ensures r.Ok?
      ensures r.value == "" <==> iconData.buffer.Some?
      ensures iconData.buffer.None? ==> r.value == "application-x-executable"
    {
      if iconData.buffer.Some? then Ok("") else Ok("application-x-executable")
    }

    /** `IconPixmap`: converts the stored buffer, or draws the fallback square. */
    method IconPixmap() returns (r: Result<seq<Pixmap>, FdoError>)
      ensures r == Ok([PixmapOf(iconData)])
    {
      match iconData.buffer {
        case Some(buffer) =>
          var width := AsI32(iconData.width);
          var height := AsI32(iconData.height);
          var argbPixmap := ConvertRgbaToArgb(buffer);
          r := Ok([(width, height, argbPixmap)]);
        case None =>
          var pixmap := BuildFallbackPixmap();
          r := Ok([(FallbackSide, FallbackSide, pixmap)]);
      }
    }

    /** `ToolTip`: no icon name, no pixmaps, the stored tooltip as title, no description. */
    function ToolTip(): (r: Result<(string, seq<Pixmap>, string, string), FdoError>)
      reads this
      ensures r.Ok? && r.value.2 == tooltip
      ensures r.value.0 == "" && r.value.1 == [] && r.value.3 == ""
    {
      Ok(("", [], tooltip, ""))
    }

    function Id(): Result<string, FdoError>
      reads this
    {
      Ok(id)
    }

    function Menu(): Result<string, FdoError>
    {
      Ok("/MenuBar")
    }

    function Status(): Result<string, FdoError>
    {
      Ok("Active")
    }

    function Title(): Result<string, FdoError>
    {
      Ok("Example App")
    }

    function Category(): Result<string, FdoError>
    {
      Ok("ApplicationStatus")
    }

    function ItemIsMenu(): Result<bool, FdoError>
    {
      Ok(false)
    }

    function WindowId(): Result<i32, FdoError>
    {
      Ok(0)
    }

    function OverlayIconName(): Result<string, FdoError>
    {
      Ok("help-about")
    }

    function IconThemePath(): Result<string, FdoError>
    {
      Ok("")
    }

    function AttentionIconName(): Result<string, FdoError>
    {
      Ok("")
    }

    function AttentionMovieName(): Result<string, FdoError>
    {
      Ok("")
    }

    function AttentionIconPixmap(): Result<seq<Pixmap>, FdoError>
    {
      Ok([])
    }

    function OverlayIconPixmap(): Result<seq<Pixmap>, FdoError>
    {
      Ok([])
    }
  }

  /** The constant properties, and `Id` answering with the id the item was created with. */
  lemma ConstantProperties(item: StatusNotifierItemImpl)
    ensures item.Id() == Ok(item.id)
    ensures item.Menu() == Ok("/MenuBar")
    ensures item.Status() == Ok("Active") && item.Title() == Ok("Example App")
    ensures item.Category() == Ok("ApplicationStatus")
    ensures item.ItemIsMenu() == Ok(false) && item.WindowId() == Ok(0)
    ensures item.OverlayIconName() == Ok("help-about")
    ensures item.IconThemePath() == Ok("") && item.AttentionIconName() == Ok("")
    ensures item.AttentionMovieName() == Ok("")
    ensures item.AttentionIconPixmap() == Ok([]) && item.OverlayIconPixmap() == Ok([])
  {
  }
}
