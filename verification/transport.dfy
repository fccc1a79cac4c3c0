/**
 * The serial link to the USB-CAN adapter, reduced to what the protocol observes: whether the
 * link is open, the frames written so far, and the line the adapter returns for each of them.
 * Every transaction is one atomic write-then-read exchange. The bus is generic in how a written
 * frame is recorded; the controller records each one by the request it encodes.
 */
module Transport {
  import opened Wrappers
  import opened Bytes
  import opened Frame

  class Bus<F> {
    /** The line read back after the n-th frame written (None: no line in time, or the read failed). */
    const replies: nat -> Option<seq<byte>>
    /** Whether opening the serial port succeeds. */
    const portAvailable: bool
    /** A writer is present and not closing. */
    var open: bool
    /** Every frame written to the adapter, in order. */
    var sent: seq<F>

    constructor (replies: nat -> Option<seq<byte>>, portAvailable: bool)
      ensures this.replies == replies && this.portAvailable == portAvailable
      ensures !open && sent == []
    {
      this.replies := replies;
      this.portAvailable := portAvailable;
      open := false;
      sent := [];
    }

    /** What `_send_and_receive` hands back for the n-th frame written: the adapter's line, if it has the frame's shape. */
    function Reply(n: nat): (r: Option<seq<byte>>)
      ensures r.Some? ==> r == replies(n) && IsValidResponse(r.value)
      ensures replies(n).Some? && IsValidResponse(replies(n).value) ==> r == replies(n)
    {
      AcceptResponse(replies(n))
    }

    /** Opening the serial port; a failed attempt leaves the previous writer in place. */
    method Open() returns (ok: bool)
      modifies this
      ensures ok == portAvailable
      ensures open == (old(open) || portAvailable)
      ensures sent == old(sent)
    {
      ok := portAvailable;
      if ok {
        open := true;
      }
    }

    method Close()
      modifies this
      ensures !open && sent == old(sent)
    {
      open := false;
    }

    /**
     * `_send_and_receive`: with no open writer nothing is written and the result is None;
     * otherwise the frame is written and the adapter's line comes back if it passes the
     * acceptance test.
     */
    method SendAndReceive(frame: F) returns (response: Option<seq<byte>>)
      modifies this
      ensures open == old(open)
      ensures sent == old(sent) + (if open then [frame] else [])
      ensures response == (if open then Reply(|old(sent)|) else None)
      ensures response.Some? ==> |response.value| == FrameLength
    {
      if !open {
        return None;
      }
      var n := |sent|;
      sent := sent + [frame];
      var line := replies(n);
      if line.Some? && IsValidResponse(line.value) {
        response := line;
      } else {
        response := None;
      }
    }
  }
}
