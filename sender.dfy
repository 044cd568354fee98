/**
 * Callbacks and channels as logs: whatever is sent is appended, in order,
 * to the sequence of values the receiving side observes.
 */
module Sender {

  /** `TrayIconSender<T>`: the application's callback, modelled by the events it has received. */
  datatype TrayIconSender<T> = TrayIconSender(received: seq<T>)
  {
    function Send(e: T): (r: TrayIconSender<T>)
      ensures |r.received| == |received| + 1
      ensures r.received[..|received|] == received && r.received[|received|] == e
    {
      TrayIconSender(received + [e])
    }
  }

  /** The sending half of an mpsc channel, modelled by the messages sent through it so far. */
  datatype Channel<M> = Channel(sent: seq<M>)
}
