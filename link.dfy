/** The L2CAP socket the client talks through, reduced to what the client
    observes: whether connecting succeeds, which write attempts the socket
    rejects, and the scripted sequence of wake-ups of its `select` loop. */
module Link {
  import opened Att

  datatype Option<T> = None | Some(value: T)

  /** What one wake-up of `select` over the socket and standard input yields. */
  datatype Wakeup =
    | WaitFailed                // select() returned a negative value
    | InputOnly                 // only standard input became readable
    | ReadFailed                // the socket was readable and read() returned a negative value
    | Packet(bytes: seq<byte>)  // the socket was readable and the peer sent this PDU;
                                // an empty PDU stands for read() returning 0

  /** The bytes `read(sock, buf, MAX_LINE)` stores for one packet: a
      sequenced-packet socket hands over at most the buffer's size and
      discards the rest of the packet. */
  function Received(bytes: seq<byte>): (frame: seq<byte>)
    ensures |frame| == if |bytes| <= MAX_LINE then |bytes| else MAX_LINE
    ensures frame == bytes[..|frame|]
  {
    if |bytes| <= MAX_LINE then bytes else bytes[..MAX_LINE]
  }

  class Transport {
    /** Whether `ble_connect` succeeds. */
    const connects: bool
    /** Positions (counted from 0) of the write attempts the socket rejects. */
    const rejected: set<nat>

    var open: bool
    /** Number of calls to `ble_connect` so far. */
    var connectAttempts: nat
    /** Frames the socket accepted, in order. */
    var sent: seq<seq<byte>>
    /** Frames the client tried to write, accepted or not, in order. */
    var tried: seq<seq<byte>>
    /** Number of write attempts so far, accepted or not. */
    function Attempts(): nat
      reads this
    {
      |tried|
    }

    /** Wake-ups still to come. */
    var wakeups: seq<Wakeup>

    constructor (connects: bool, rejected: set<nat>, wakeups: seq<Wakeup>)
      ensures this.connects == connects && this.rejected == rejected
      ensures !open && connectAttempts == 0 && sent == [] && tried == []
      ensures this.wakeups == wakeups
    {
      this.connects := connects;
      this.rejected := rejected;
      this.wakeups := wakeups;
      open := false;
      connectAttempts := 0;
      sent := [];
      tried := [];
    }

    /** `ble_connect`: opens the socket or fails leaving nothing open. */
    method Connect() returns (ok: bool)
      requires !open
      modifies this`open, this`connectAttempts
      ensures ok == connects && open == ok
      ensures connectAttempts == old(connectAttempts) + 1
    {
      connectAttempts := connectAttempts + 1;
      ok := connects;
      open := ok;
    }

    /** `close(sock)` */
    method Close()
      requires open
      modifies this`open
      ensures !open
    {
      open := false;
    }

    /** `write(sock, frame, |frame|)`: either the socket takes the frame or
        the call fails and nothing is sent. */
    method Write(frame: seq<byte>) returns (ok: bool)
      requires open
      modifies this`sent, this`tried
      ensures ok == (old(Attempts()) !in rejected)
      ensures tried == old(tried) + [frame]
      ensures sent == if ok then old(sent) + [frame] else old(sent)
    {
      ok := |tried| !in rejected;
      tried := tried + [frame];
      if ok {
        sent := sent + [frame];
      }
    }

    /** One `select` wake-up, with the `read` that follows when the socket is
        readable. None: no wake-up is scripted any more, where the real call
        would block for ever. */
    method Await() returns (w: Option<Wakeup>)
      requires open
      modifies this`wakeups
      ensures old(wakeups) == [] ==> w == None && wakeups == []
      ensures old(wakeups) != [] ==> w == Some(old(wakeups)[0]) && wakeups == old(wakeups)[1..]
    {
      if wakeups == [] {
        w := None;
      } else {
        w := Some(wakeups[0]);
        wakeups := wakeups[1..];
      }
    }
  }
}
