/**
 * The KDE icon (src/sys/linux/kdeicon.rs): the ICO file is read, the entry
 * with the largest area is decoded and its RGBA pixels converted to ARGB.
 * Any failure on the way leaves an empty 0 by 0 icon, and the call itself
 * never fails. ICO parsing and image decoding are not modelled: their
 * outcome is the `IconDirRead` parameter.
 */
module KdeIcons {
  import opened Wrappers
  import opened Ints
  import opened Errors
  import opened Pixels

  /** The side of an ICO directory entry: 1 to 256 pixels. */
  type IcoDim = x: int | 1 <= x <= 256 witness 1

  /** A decoded image: its size and its RGBA bytes. */
  datatype IcoImage = IcoImage(width: u32, height: u32, rgba: seq<u8>)

  /** A directory entry: its stated size and what decoding it gives (`None` for a decode error). */
  datatype IcoEntry = IcoEntry(width: IcoDim, height: IcoDim, decoded: Option<IcoImage>)

  /** What `IconDir::read` gives for the buffer: the entries, or `None` for a read error. */
  type IconDirRead = Option<seq<IcoEntry>>

  datatype KdeIcon = KdeIcon(width: u32, height: u32, argbPixels: Option<seq<u8>>)

  /** The key the entries are compared by; at most 65536, so the u32 product cannot wrap. */
  function Area(e: IcoEntry): nat
  {
    e.width * e.height
  }

  /** Entry `i` is a largest entry and no later entry is as large: the one `max_by_key` returns. */
  ghost predicate IsLastMax(es: seq<IcoEntry>, i: int)
  {
    0 <= i < |es|
    && (forall j :: 0 <= j < |es| ==> Area(es[j]) <= Area(es[i]))
    && (forall j :: i < j < |es| ==> Area(es[j]) < Area(es[i]))
  }

  /** `max_by_key`: of equally large entries the last wins. */
  function MaxByArea(es: seq<IcoEntry>): (r: Option<nat>)
    ensures r.None? <==> |es| == 0
    ensures r.Some? ==> IsLastMax(es, r.value)
  {
    if |es| == 0 then None
    else
      var n := |es| - 1;
      match MaxByArea(es[..n])
      case None => Some(n)
      case Some(i) =>
        assert forall j :: 0 <= j < n ==> es[..n][j] == es[j];
        if Area(es[n]) >= Area(es[i]) then Some(n) else Some(i)
  }

  /** At most one entry is the last largest one. */
  lemma LastMaxUnique(es: seq<IcoEntry>, i: int, k: int)
    requires IsLastMax(es, i) && IsLastMax(es, k)
    ensures i == k
  {
    assert Area(es[i]) == Area(es[k]);
  }

  const Empty: KdeIcon := KdeIcon(0, 0, None)

  /** The icon `from_buffer` builds, as a function of what reading the ICO file gives. */
  function Decoded(dir: IconDirRead): KdeIcon
  {
    match dir
    case None => Empty
    case Some(es) =>
      match MaxByArea(es)
      case None => Empty
      case Some(i) =>
        match es[i].decoded
        case None => Empty
        case Some(img) => KdeIcon(img.width, img.height, Some(Argb(img.rgba)))
  }

  /** `KdeIcon::from_buffer`; the requested width and height are ignored. */
  method FromBuffer(buffer: seq<u8>, width: Option<u32>, height: Option<u32>, dir: IconDirRead)
    returns (r: Result<KdeIcon, Error>)
    ensures r == Ok(Decoded(dir))
  {
    var icon := Empty;
    match dir {
      case None =>
      case Some(entries) =>
        match MaxByArea(entries) {
          case None =>
          case Some(i) =>
            match entries[i].decoded {
              case None =>
              case Some(image) =>
                var argbPixmap := ConvertRgbaToArgb(image.rgba);
                icon := KdeIcon(image.width, image.height, Some(argbPixmap));
            }
        }
    }
    r := Ok(icon);
  }

  /**
   * A read error, an empty directory, or a decode error of the chosen entry
   * gives the empty icon; otherwise the icon has the size of the decoded image
   * of the last largest entry and its pixels in ARGB order, a partial last
   * chunk dropped.
   */
  lemma DecodedSpec(dir: IconDirRead)
    ensures dir.None? ==> Decoded(dir) == KdeIcon(0, 0, None)
    ensures dir.Some? && |dir.value| == 0 ==> Decoded(dir) == KdeIcon(0, 0, None)
    ensures dir.Some? && |dir.value| > 0 ==> exists i :: IsLastMax(dir.value, i)
    ensures dir.Some? ==> forall i :: IsLastMax(dir.value, i) ==>
      match dir.value[i].decoded
      case None => Decoded(dir) == KdeIcon(0, 0, None)
      case Some(img) =>
        Decoded(dir).width == img.width && Decoded(dir).height == img.height
        && Decoded(dir).argbPixels == Some(Argb(img.rgba))
        && |Argb(img.rgba)| == 4 * (|img.rgba| / 4)
  {
    match dir
    case None =>
    case Some(es) =>
      match MaxByArea(es)
      case None =>
      case Some(k) =>
        forall i | IsLastMax(es, i)
          ensures i == k
        {
          LastMaxUnique(es, i, k);
        }
        match es[k].decoded
        case None =>
        case Some(img) => ArgbLength(img.rgba);
  }
}
