/**
 * An icon as the facade sees it. The platform handle is not modelled:
 * two icons are equal exactly when their buffers are equal, which is
 * the equality the source defines for `Icon`.
 */
module Icons {
  import opened Wrappers
  import opened Ints

  datatype Icon = Icon(buffer: Option<seq<u8>>)

  /** `Icon::from_buffer`: keeps the buffer; the platform decoder's verdict is a parameter. */
  function FromBuffer<E>(buffer: seq<u8>, platform: Result<(), E>): (r: Result<Icon, E>)
    ensures r.Ok? <==> platform.Ok?
    ensures r.Ok? ==> r.value.buffer == Some(buffer)
    ensures r.Err? ==> r.error == platform.error
  {
    match platform
    case Ok(_) => Ok(Icon(Some(buffer)))
    case Err(e) => Err(e)
  }
}
