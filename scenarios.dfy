/** Concrete sessions and inputs, worked out from the contracts of the
    other modules alone. */
module Scenarios {
  import opened Att
  import opened Link
  import opened Tx
  import opened Rx
  import opened Session

  /** A message that fits the 1024-byte buffer reaches the peer whole, CR LF
      included, in ceil((|message| + 2) / 20) Write Commands of at most 20
      bytes each. */
  lemma {:induction false} MessageDelivered(message: seq<byte>)
    requires NUL !in message && |message| + |CRLF| < MESSAGE_BUF
    ensures var cs := MessageChunks(Some(message));
            && Concat(cs) == message + CRLF
            && |cs| == (|message| + |CRLF| + ATT_MAX_PAYLOAD - 1) / ATT_MAX_PAYLOAD
            && (forall i :: 0 <= i < |cs| ==> 0 < |cs[i]| <= ATT_MAX_PAYLOAD)
  {
    var line := CrLfLine(message);
    assert line == message + CRLF;
    ChunksConcat(line);
    ChunksShape(line);
  }

  /** A 45-byte message goes out as three Write Commands. */
  lemma FortyFiveBytes(message: seq<byte>)
    requires NUL !in message && |message| == 45
    ensures |MessageChunks(Some(message))| == 3
  {
    MessageDelivered(message);
  }

  /** A line split over two notifications, "AB" then "C" LF, is read as "ABC". */
  lemma {:induction false} LineOverTwoNotifications(handle: u16, later: seq<Wakeup>)
    ensures var ws := [Packet(EncodeWrite(ATT_OP_HANDLE_VALUE_NOTI, handle, [0x41, 0x42])),
                       Packet(EncodeWrite(ATT_OP_HANDLE_VALUE_NOTI, handle, [0x43, LF]))] + later;
            ReadLoop(ws) == ReadResult(LineRead, [0x41, 0x42, 0x43], later)
  {
    var f1 := EncodeWrite(ATT_OP_HANDLE_VALUE_NOTI, handle, [0x41, 0x42]);
    var f2 := EncodeWrite(ATT_OP_HANDLE_VALUE_NOTI, handle, [0x43, LF]);
    var ws := [Packet(f1), Packet(f2)] + later;
    assert Received(f1) == f1 && Received(f2) == f2;
    assert f1[HEADER_LEN..] == [0x41, 0x42] && f2[HEADER_LEN..] == [0x43, LF];
    assert IndexOfLF([0x43, LF]) == 1;
    assert [0x43, LF][..1] == [0x43];
    assert Printables([0x41, 0x42]) == [0x41, 0x42] by {
      PrintablesOfPrintable([0x41, 0x42]);
    }
    assert Printables([0x43]) == [0x43] by {
      PrintablesOfPrintable([0x43]);
    }
    DeliverStep(ws, [0x41, 0x42]);
    assert ws[1..] == [Packet(f2)] + later;
    DeliverStep(ws[1..], [0x43, LF]);
    assert ws[1..][1..] == later;
  }

  /** Sending "Hello" without waiting: exactly two PDUs reach the peer,
      the Write Request enabling notifications and one Write Command with
      "Hello" CR LF, and the session ends with status 0 and the socket closed. */
  method HelloScenario()
  {
    var t := new Transport(true, {}, []);
    var hello: seq<byte> := [0x48, 0x65, 0x6C, 0x6C, 0x6F];
    var exit, stdout := RunSession(t, Some("D1:5E:28:7A:4E:E0"), Some(hello), false);
    assert CrLfLine(hello) == hello + CRLF;
    assert Chunks(hello + CRLF) == [hello + CRLF];
    assert FirstRejected({}, 1, 1) == 1;
    assert exit == Some(0) && stdout == [] && !t.open;
    assert t.sent == [CccFrame(), EncodeWrite(ATT_OP_WRITE_CMD, H_WRITE, hello + CRLF)];
  }

  /** When the socket rejects the Write Request, nothing else is written,
      no wake-up is consumed, and the socket is still closed. */
  method RejectedConfiguration(wakeups: seq<Wakeup>)
  {
    var t := new Transport(true, {0}, wakeups);
    var exit, stdout := RunSession(t, Some("D1:5E:28:7A:4E:E0"), Some([0x41]), true);
    assert exit == Some(-1) && stdout == [] && !t.open;
    assert t.sent == [] && t.Attempts() == 1 && t.wakeups == wakeups;
  }
}
