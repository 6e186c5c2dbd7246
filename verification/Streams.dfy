/** Streams as the scheduler and the priority forest see them, and the frames queued for them. */
module Streams {
  import opened Utf8
  import opened Flow

  class Stream {
    const id: nat
    const flow: Window
    var parent: Stream?
    var weight: nat

    constructor (id: nat, connFlow: Window)
      requires connFlow.conn == null
      ensures this.id == id && parent == null && weight == 0
      ensures fresh(flow) && flow.n == 0 && flow.conn == connFlow
    {
      this.id := id;
      flow := new Window(connFlow);
      parent, weight := null, 0;
    }
  }

  /** What a queued message writes: DATA costs window, the rest does not. */
  datatype WriteFramer =
    | WriteData(p: seq<Byte>, endStream: bool)
    | WriteResHeaders(endStream: bool)
    | OtherFrame(tag: nat)

  /** frameWriteMsg; done is the channel to report to, 0 for none. */
  datatype Msg = Msg(write: WriteFramer, stream: Stream?, done: nat)

  predicate NoCost(m: Msg) {
    !m.write.WriteData? || m.write.p == []
  }
}
