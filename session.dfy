/** What `main` does once its options are parsed: check that there is
    something to do, connect, enable notifications on the peer, optionally
    send a message, optionally wait for one line, and close the socket on
    every way out after the connection was made. */
module Session {
  import opened Att
  import opened Link
  import opened Tx
  import opened Rx

  /** Client Characteristic Configuration descriptor of the peer's
      notifying characteristic. */
  const H_CCC: u16 := 0x002E
  /** The characteristic messages are written to. */
  const H_WRITE: u16 := 0x0031
  /** Configuration value "notifications enabled" (Bluetooth Core
      Specification, Vol 3, Part G, section 3.3.3.3), little-endian. */
  const CCC_ENABLE: seq<byte> := [0x01, 0x00]
  /** Size of the buffer the message and its line ending are printed into. */
  const MESSAGE_BUF: nat := 1024

  const NUL: byte := 0x00
  const CR: byte := 0x0D
  const CRLF: seq<byte> := [CR, LF]

  /** The first PDU of every session that gets past connecting. */
  function CccFrame(): seq<byte>
  {
    EncodeWrite(ATT_OP_WRITE_REQ, H_CCC, CCC_ENABLE)
  }

  /** `snprintf(message_crlf, 1024, "%s\r\n", message)` followed by
      `strlen`: the message with CR LF appended, cut to the 1023 bytes that
      fit before the terminating NUL. */
  function CrLfLine(message: seq<byte>): (line: seq<byte>)
    requires NUL !in message
    ensures |line| == Min(|message| + |CRLF|, MESSAGE_BUF - 1)
    ensures line == (message + CRLF)[..|line|]
    ensures NUL !in line
    ensures |message| + |CRLF| < MESSAGE_BUF ==> line == message + CRLF
  {
    var full := message + CRLF;
    if |full| < MESSAGE_BUF then full else full[..MESSAGE_BUF - 1]
  }

  /** A message of 1022 bytes or more does not fit with its line ending:
      the peer gets the first 1023 bytes of the message followed by CR
      alone when the message is exactly 1022 bytes long, and with no line
      ending at all when it is longer. */
  lemma LongMessageTruncated(message: seq<byte>)
    requires NUL !in message && |message| + |CRLF| >= MESSAGE_BUF
    ensures |message| == MESSAGE_BUF - 2 ==> CrLfLine(message) == message + [CR]
    ensures |message| >= MESSAGE_BUF - 1 ==> CrLfLine(message) == message[..MESSAGE_BUF - 1]
    ensures CrLfLine(message) != message + CRLF
  {
    var line := CrLfLine(message);
    if |message| == MESSAGE_BUF - 2 {
      assert (message + CRLF)[..MESSAGE_BUF - 1] == message + [CR];
    } else {
      assert (message + CRLF)[..MESSAGE_BUF - 1] == message[..MESSAGE_BUF - 1];
    }
  }

  /** The argument checks of `main`: a MAC address, and a message or a wait.
      What they decide is stated by `RunSession`: exit 1 and no call to
      `ble_connect` when they fail, exactly one call otherwise. */
  predicate Requested(mac: Option<string>, message: Option<seq<byte>>, wait: bool): (ok: bool)
    ensures mac.None? ==> !ok
    ensures message.None? && !wait ==> !ok
    ensures mac.Some? && message.Some? ==> ok
    ensures mac.Some? && wait ==> ok
  {
    mac.Some? && (message.Some? || wait)
  }

  /** The pieces the message is sent in (none when there is no message). */
  function MessageChunks(message: Option<seq<byte>>): seq<seq<byte>>
    requires message.Some? ==> NUL !in message.value
  {
    if message.Some? then Chunks(CrLfLine(message.value)) else []
  }

  /** Exit status of `main` after a wait that ended with `r`: 0 after a
      line, -1 after a failure, or no exit yet (None) while the wait goes on. */
  function WaitExit(r: ReadResult): Option<int>
  {
    match r.status
    case LineRead => Some(0)
    case Failed => Some(-1)
    case Blocked => None
  }

  /** `main` after option parsing. `exit` is the status `main` returns, or
      None when the wait for a line never ends; `stdout` is what it prints.
      A connection is made only when the arguments ask for one; after that,
      the first write is the Write Request that enables notifications,
      the message and the wait happen only once it succeeded, a failure
      skips every later step, and the socket is closed on every exit. */
  method RunSession(t: Transport, mac: Option<string>, message: Option<seq<byte>>, wait: bool)
    returns (exit: Option<int>, stdout: seq<byte>)
    requires !t.open
    requires message.Some? ==> NUL !in message.value
    modifies t
    ensures exit.Some? ==> !t.open
    ensures exit.None? ==> t.open
    ensures t.connectAttempts == old(t.connectAttempts) + (if Requested(mac, message, wait) then 1 else 0)
    ensures !Requested(mac, message, wait) ==>
              && exit == Some(1) && stdout == []
              && t.sent == old(t.sent) && t.tried == old(t.tried) && t.Attempts() == old(t.Attempts())
              && t.wakeups == old(t.wakeups)
    ensures Requested(mac, message, wait) && !t.connects ==>
              && exit == Some(-1) && stdout == []
              && t.sent == old(t.sent) && t.tried == old(t.tried) && t.Attempts() == old(t.Attempts())
              && t.wakeups == old(t.wakeups)
    ensures Requested(mac, message, wait) && t.connects && old(t.Attempts()) in t.rejected ==>
              && exit == Some(-1) && stdout == []
              && t.sent == old(t.sent) && t.tried == old(t.tried) + [CccFrame()]
              && t.Attempts() == old(t.Attempts()) + 1 && t.wakeups == old(t.wakeups)
    ensures Requested(mac, message, wait) && t.connects && old(t.Attempts()) !in t.rejected ==>
              var cs := MessageChunks(message);
              var k := FirstRejected(t.rejected, old(t.Attempts()) + 1, |cs|);
              && t.sent == old(t.sent) + [CccFrame()] + WriteCommands(H_WRITE, cs[..k])
              && t.tried == old(t.tried) + [CccFrame()] + WriteCommands(H_WRITE, cs[..if k == |cs| then k else k + 1])
              && t.Attempts() == old(t.Attempts()) + 1 + (if k == |cs| then k else k + 1)
              && (k < |cs| ==> exit == Some(-1) && stdout == [] && t.wakeups == old(t.wakeups))
              && (k == |cs| && !wait ==> exit == Some(0) && stdout == [] && t.wakeups == old(t.wakeups))
              && (k == |cs| && wait ==>
                    var r := ReadLoop(old(t.wakeups));
                    && exit == WaitExit(r)
                    && stdout == r.emitted + (if r.status == LineRead then CRLF else [])
                    && t.wakeups == r.rest)
  {
    if mac.None? {
      return Some(1), [];
    }
    if message.None? && !wait {
      return Some(1), [];
    }
    var connected := t.Connect();
    if !connected {
      return Some(-1), [];
    }
    ghost var a0 := t.Attempts();
    var err := AttWriteReq(t, H_CCC, CCC_ENABLE);
    if err < 0 {
      t.Close();
      return Some(err), [];
    }
    assert t.Attempts() == a0 + 1;
    if message.Some? {
      var line := CrLfLine(message.value);
      err := SendToTx(t, H_WRITE, line);
      if err < 0 {
        t.Close();
        return Some(err), [];
      }
    } else {
      assert MessageChunks(message) == [];
      assert FirstRejected(t.rejected, a0 + 1, 0) == 0;
    }
    stdout := [];
    if wait {
      var status, printed := ReadLine(t);
      stdout := printed;
      if status == Blocked {
        return None, stdout;
      }
      if status == Failed {
        t.Close();
        return Some(-1), stdout;
      }
      stdout := stdout + CRLF;
    }
    t.Close();
    return Some(0), stdout;
  }
}
