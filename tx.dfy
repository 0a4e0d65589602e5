/** The sending side: the two ATT write encoders, which build a PDU in a
    fixed buffer and hand it to the socket, and the fragmenter that sends an
    arbitrary byte string as a run of Write Commands. */
module Tx {
  import opened Att
  import opened Link

  /** Shared body of `ble_att_write_req` and `ble_att_write_cmd`: reject data
      longer than MAX_LINE without touching the socket, otherwise fill the
      buffer with the PDU and make exactly one write attempt. */
  method AttWrite(t: Transport, opcode: byte, handle: u16, data: seq<byte>) returns (r: int)
    requires t.open
    modifies t`sent, t`tried
    ensures r == 0 || r == -1
    ensures |data| > MAX_LINE ==> r == -1 && t.sent == old(t.sent) && t.tried == old(t.tried) && t.Attempts() == old(t.Attempts())
    ensures |data| <= MAX_LINE ==>
              && t.Attempts() == old(t.Attempts()) + 1
              && (r == 0 <==> old(t.Attempts()) !in t.rejected)
              && t.tried == old(t.tried) + [EncodeWrite(opcode, handle, data)]
              && t.sent == if r == 0 then old(t.sent) + [EncodeWrite(opcode, handle, data)] else old(t.sent)
  {
    if |data| > MAX_LINE {
      return -1;
    }
    var buf := new byte[HEADER_LEN + MAX_LINE];
    buf[0] := opcode;
    buf[1] := LowByte(handle);
    buf[2] := HighByte(handle);
    // memcpy(&buf[3], data, len)
    var i := 0;
    while i < |data|
      modifies buf
      invariant 0 <= i <= |data|
      invariant buf[0] == opcode && buf[1] == LowByte(handle) && buf[2] == HighByte(handle)
      invariant forall j :: 0 <= j < i ==> buf[HEADER_LEN + j] == data[j]
    {
      buf[HEADER_LEN + i] := data[i];
      i := i + 1;
    }
    assert buf[..HEADER_LEN + |data|] == EncodeWrite(opcode, handle, data);
    var ok := t.Write(buf[..HEADER_LEN + |data|]);
    r := if ok then 0 else -1;
  }

  /** `ble_att_write_req`: a Write Request PDU (opcode 0x12). */
  method AttWriteReq(t: Transport, handle: u16, data: seq<byte>) returns (r: int)
    requires t.open
    modifies t`sent, t`tried
    ensures r == 0 || r == -1
    ensures |data| > MAX_LINE ==> r == -1 && t.sent == old(t.sent) && t.tried == old(t.tried) && t.Attempts() == old(t.Attempts())
    ensures |data| <= MAX_LINE ==>
              && t.Attempts() == old(t.Attempts()) + 1
              && (r == 0 <==> old(t.Attempts()) !in t.rejected)
              && t.tried == old(t.tried) + [EncodeWrite(ATT_OP_WRITE_REQ, handle, data)]
              && t.sent == if r == 0 then old(t.sent) + [EncodeWrite(ATT_OP_WRITE_REQ, handle, data)] else old(t.sent)
  {
    r := AttWrite(t, ATT_OP_WRITE_REQ, handle, data);
  }

  /** `ble_att_write_cmd`: a Write Command PDU (opcode 0x52). */
  method AttWriteCmd(t: Transport, handle: u16, data: seq<byte>) returns (r: int)
    requires t.open
    modifies t`sent, t`tried
    ensures r == 0 || r == -1
    ensures |data| > MAX_LINE ==> r == -1 && t.sent == old(t.sent) && t.tried == old(t.tried) && t.Attempts() == old(t.Attempts())
    ensures |data| <= MAX_LINE ==>
              && t.Attempts() == old(t.Attempts()) + 1
              && (r == 0 <==> old(t.Attempts()) !in t.rejected)
              && t.tried == old(t.tried) + [EncodeWrite(ATT_OP_WRITE_CMD, handle, data)]
              && t.sent == if r == 0 then old(t.sent) + [EncodeWrite(ATT_OP_WRITE_CMD, handle, data)] else old(t.sent)
  {
    r := AttWrite(t, ATT_OP_WRITE_CMD, handle, data);
  }

  function Min(a: nat, b: nat): nat
  {
    if a <= b then a else b
  }

  /** The pieces `ble_send_to_tx` cuts `data` into: ATT_MAX_PAYLOAD bytes at
      a time from the front, the last piece holding what remains. */
  function Chunks(data: seq<byte>): seq<seq<byte>>
    decreases |data|
  {
    if |data| == 0 then []
    else
      var c := Min(|data|, ATT_MAX_PAYLOAD);
      [data[..c]] + Chunks(data[c..])
  }

  /** The pieces joined back together, in order. */
  function Concat(pieces: seq<seq<byte>>): seq<byte>
  {
    if pieces == [] then [] else pieces[0] + Concat(pieces[1..])
  }

  /** Concatenating the pieces in order gives back the data exactly. */
  lemma {:induction false} ChunksConcat(data: seq<byte>)
    ensures Concat(Chunks(data)) == data
    decreases |data|
  {
    if |data| > 0 {
      var c := Min(|data|, ATT_MAX_PAYLOAD);
      ChunksConcat(data[c..]);
      assert data[..c] + data[c..] == data;
    }
  }

  /** Every piece is non-empty and at most ATT_MAX_PAYLOAD long, every piece
      but the last is exactly ATT_MAX_PAYLOAD long, and there are
      ceil(|data| / ATT_MAX_PAYLOAD) pieces. */
  lemma {:induction false} ChunksShape(data: seq<byte>)
    ensures var cs := Chunks(data);
            && |cs| == (|data| + ATT_MAX_PAYLOAD - 1) / ATT_MAX_PAYLOAD
            && (forall i :: 0 <= i < |cs| ==> 0 < |cs[i]| <= ATT_MAX_PAYLOAD)
            && (forall i :: 0 <= i < |cs| - 1 ==> |cs[i]| == ATT_MAX_PAYLOAD)
    decreases |data|
  {
    if |data| > 0 {
      var c := Min(|data|, ATT_MAX_PAYLOAD);
      ChunksShape(data[c..]);
      var cs := Chunks(data);
      assert cs == [data[..c]] + Chunks(data[c..]);
      if |data| > ATT_MAX_PAYLOAD {
        assert |data[c..]| == |data| - ATT_MAX_PAYLOAD;
      }
    }
  }

  /** The Write Command PDUs that carry `pieces` to `handle`, in order. */
  function WriteCommands(handle: u16, pieces: seq<seq<byte>>): (frames: seq<seq<byte>>)
    ensures |frames| == |pieces|
    decreases |pieces|
  {
    if pieces == [] then []
    else WriteCommands(handle, pieces[..|pieces| - 1]) + [EncodeWrite(ATT_OP_WRITE_CMD, handle, pieces[|pieces| - 1])]
  }

  /** Each of those PDUs is a Write Command to `handle` carrying its piece unchanged. */
  lemma {:induction false} WriteCommandsCarry(handle: u16, pieces: seq<seq<byte>>)
    ensures var frames := WriteCommands(handle, pieces);
            forall i :: 0 <= i < |frames| ==> frames[i] == EncodeWrite(ATT_OP_WRITE_CMD, handle, pieces[i])
    ensures var frames := WriteCommands(handle, pieces);
            forall i :: 0 <= i < |frames| ==>
              && |frames[i]| == HEADER_LEN + |pieces[i]|
              && frames[i][0] == ATT_OP_WRITE_CMD
              && HandleOf(frames[i]) == handle as int
              && frames[i][HEADER_LEN..] == pieces[i]
    decreases |pieces|
  {
    if pieces != [] {
      var front := pieces[..|pieces| - 1];
      WriteCommandsCarry(handle, front);
      assert forall i :: 0 <= i < |front| ==> pieces[i] == front[i];
    }
  }

  /** What a receiver takes out of each PDU: the bytes after the header
      (nothing from a PDU shorter than a header). */
  function Payloads(frames: seq<seq<byte>>): seq<seq<byte>>
  {
    seq(|frames|, i requires 0 <= i < |frames| =>
      if |frames[i]| >= HEADER_LEN then frames[i][HEADER_LEN..] else [])
  }

  /** A receiver that joins the values of the Write Commands carrying the
      pieces of `data`, in order, gets `data` back exactly; there is no
      Write Command at all for empty data. */
  lemma SendRoundTrip(handle: u16, data: seq<byte>)
    ensures Concat(Payloads(WriteCommands(handle, Chunks(data)))) == data
    ensures data == [] ==> WriteCommands(handle, Chunks(data)) == []
  {
    WriteCommandsCarry(handle, Chunks(data));
    assert Payloads(WriteCommands(handle, Chunks(data))) == Chunks(data);
    ChunksConcat(data);
  }

  /** How many of the `count` write attempts starting at attempt `from` go
      through before the first one the socket rejects (`count` when none is
      rejected). */
  function FirstRejected(rejected: set<nat>, from: nat, count: nat): (k: nat)
    ensures k <= count
    ensures forall i :: from <= i < from + k ==> i !in rejected
    ensures k < count ==> from + k in rejected
    decreases count
  {
    if count == 0 || from in rejected then 0
    else 1 + FirstRejected(rejected, from + 1, count - 1)
  }

  /** The count `FirstRejected` gives is the only one with its two properties. */
  lemma FirstRejectedIs(rejected: set<nat>, from: nat, count: nat, m: nat)
    requires m <= count
    requires forall i :: from <= i < from + m ==> i !in rejected
    requires m < count ==> from + m in rejected
    ensures FirstRejected(rejected, from, count) == m
  {
    var k := FirstRejected(rejected, from, count);
    assert k < m ==> from + k in rejected;
    assert m < k ==> from + m !in rejected;
  }

  /** The pieces of `data` from `offset` on start with the piece the loop of
      `ble_send_to_tx` cuts at `offset`. */
  lemma ChunksFrom(data: seq<byte>, offset: nat)
    requires offset < |data|
    ensures var c := Min(|data| - offset, ATT_MAX_PAYLOAD);
            Chunks(data[offset..]) == [data[offset..offset + c]] + Chunks(data[offset + c..])
  {
    var c := Min(|data| - offset, ATT_MAX_PAYLOAD);
    assert data[offset..][..c] == data[offset..offset + c];
    assert data[offset..][c..] == data[offset + c..];
  }

  lemma WriteCommandsAppend(handle: u16, pieces: seq<seq<byte>>, piece: seq<byte>)
    ensures WriteCommands(handle, pieces + [piece])
         == WriteCommands(handle, pieces) + [EncodeWrite(ATT_OP_WRITE_CMD, handle, piece)]
  {
    assert (pieces + [piece])[..|pieces|] == pieces;
  }

  /** The loop of `ble_send_to_tx` stopped after writing the pieces `done`,
      the front of `cs`, because the next attempt was rejected (`stopped`) or
      because no piece was left. */
  lemma SendOutcome(rejected: set<nat>, a0: nat, cs: seq<seq<byte>>, done: seq<seq<byte>>, rest: seq<seq<byte>>, stopped: bool)
    requires done + rest == cs
    requires forall i :: a0 <= i < a0 + |done| ==> i !in rejected
    requires stopped ==> rest != [] && a0 + |done| in rejected
    requires !stopped ==> rest == []
    ensures FirstRejected(rejected, a0, |cs|) == |done|
    ensures cs[..|done|] == done
    ensures stopped <==> |done| < |cs|
    ensures stopped ==> cs[..|done| + 1] == done + [rest[0]]
  {
    assert cs[..|done|] == done;
    if stopped {
      assert cs[..|done| + 1] == done + [rest[0]];
    }
    FirstRejectedIs(rejected, a0, |cs|, |done|);
  }

  /** `ble_send_to_tx`: sends the pieces of `data` as Write Commands to
      `handleTx`, in order, stopping at the first rejected write. It returns
      0 exactly when every piece was written, and the socket then holds the
      pieces that went through before the rejection and nothing after it. */
  method SendToTx(t: Transport, handleTx: u16, data: seq<byte>) returns (r: int)
    requires t.open
    modifies t`sent, t`tried
    ensures r == 0 || r == -1
    ensures var cs := Chunks(data);
            var k := FirstRejected(t.rejected, old(t.Attempts()), |cs|);
            && (r == 0 <==> k == |cs|)
            && t.sent == old(t.sent) + WriteCommands(handleTx, cs[..k])
            && t.tried == old(t.tried) + WriteCommands(handleTx, cs[..if k == |cs| then k else k + 1])
            && t.Attempts() == old(t.Attempts()) + (if k == |cs| then k else k + 1)
  {
    ghost var cs := Chunks(data);
    ghost var a0 := t.Attempts();
    ghost var s0 := t.sent;
    ghost var t0 := t.tried;
    ghost var done: seq<seq<byte>> := [];
    ghost var frames: seq<seq<byte>> := [];
    var offset := 0;
    while offset < |data|
      invariant 0 <= offset <= |data|
      invariant done + Chunks(data[offset..]) == cs
      invariant t.Attempts() == a0 + |done|
      invariant forall i :: a0 <= i < a0 + |done| ==> i !in t.rejected
      invariant frames == WriteCommands(handleTx, done)
      invariant t.sent == s0 + frames && t.tried == t0 + frames
      decreases |data| - offset
    {
      var chunk := |data| - offset;
      if chunk > ATT_MAX_PAYLOAD {
        chunk := ATT_MAX_PAYLOAD;
      }
      ghost var piece := data[offset..offset + chunk];
      ghost var rest := Chunks(data[offset + chunk..]);
      assert Chunks(data[offset..]) == [piece] + rest by {
        ChunksFrom(data, offset);
      }
      var err := AttWriteCmd(t, handleTx, data[offset..offset + chunk]);
      ghost var frame := EncodeWrite(ATT_OP_WRITE_CMD, handleTx, piece);
      WriteCommandsAppend(handleTx, done, piece);
      if err < 0 {
        SendOutcome(t.rejected, a0, cs, done, [piece] + rest, true);
        assert t.tried == t0 + WriteCommands(handleTx, done + [piece]);
        return -1;
      }
      assert (done + [piece]) + rest == cs;
      done := done + [piece];
      frames := frames + [frame];
      offset := offset + chunk;
    }
    assert data[offset..] == [];
    SendOutcome(t.rejected, a0, cs, done, [], false);
    return 0;
  }
}
