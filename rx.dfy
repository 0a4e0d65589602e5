/** The receiving side: `ble_readline`, which waits on the socket, keeps the
    Handle Value Notifications that carry a value, prints the printable bytes
    of their values and stops at the first line feed. */
module Rx {
  import opened Att
  import opened Link

  const LF: byte := 0x0A

  /** Printable ASCII, the bytes `ble_readline` passes to `putchar`. */
  predicate Printable(c: byte)
  {
    32 <= c <= 126
  }

  /** The printable bytes of `s`, in order. */
  function Printables(s: seq<byte>): seq<byte>
    decreases |s|
  {
    if s == [] then []
    else Printables(s[..|s| - 1]) + (if Printable(s[|s| - 1]) then [s[|s| - 1]] else [])
  }

  /** Filtering keeps only printable bytes and never lengthens. */
  lemma {:induction false} PrintablesArePrintable(s: seq<byte>)
    ensures |Printables(s)| <= |s|
    ensures forall i :: 0 <= i < |Printables(s)| ==> Printable(Printables(s)[i])
    decreases |s|
  {
    if s != [] {
      PrintablesArePrintable(s[..|s| - 1]);
    }
  }

  /** Filtering a sequence that is already printable changes nothing. */
  lemma {:induction false} PrintablesOfPrintable(s: seq<byte>)
    requires forall i :: 0 <= i < |s| ==> Printable(s[i])
    ensures Printables(s) == s
    decreases |s|
  {
    if s != [] {
      PrintablesOfPrintable(s[..|s| - 1]);
    }
  }

  /** Filtering distributes over concatenation. */
  lemma {:induction false} PrintablesConcat(a: seq<byte>, b: seq<byte>)
    ensures Printables(a + b) == Printables(a) + Printables(b)
    decreases |b|
  {
    if b == [] {
      assert a + b == a;
    } else {
      assert (a + b)[..|a + b| - 1] == a + b[..|b| - 1];
      PrintablesConcat(a, b[..|b| - 1]);
    }
  }

  /** Position of the first line feed in `s`, or |s| when there is none. */
  function IndexOfLF(s: seq<byte>): (k: nat)
    ensures k <= |s|
    ensures forall i :: 0 <= i < k ==> s[i] != LF
    ensures k < |s| ==> s[k] == LF
    decreases |s|
  {
    if s == [] then 0
    else if s[0] == LF then 0
    else 1 + IndexOfLF(s[1..])
  }

  /** `s` holds a line feed exactly when `IndexOfLF` stops short of its end. */
  lemma HasLF(s: seq<byte>)
    ensures LF in s <==> IndexOfLF(s) < |s|
  {
    var k := IndexOfLF(s);
    if LF in s {
      var j :| 0 <= j < |s| && s[j] == LF;
      assert k <= j;
    }
  }

  /** A line feed at `k` with none before it is the first one. */
  lemma {:induction false} IndexOfLFIs(s: seq<byte>, k: nat)
    requires k < |s| && s[k] == LF
    requires forall i :: 0 <= i < k ==> s[i] != LF
    ensures IndexOfLF(s) == k
    decreases k
  {
    if k > 0 {
      IndexOfLFIs(s[1..], k - 1);
    }
  }

  /** Cutting `a + b` inside `b` keeps all of `a`. */
  lemma PrefixOfConcat(a: seq<byte>, b: seq<byte>, k: nat)
    requires k <= |b|
    ensures (a + b)[..|a| + k] == a + b[..k]
  {
    var x, y := (a + b)[..|a| + k], a + b[..k];
    assert |x| == |y|;
    forall i | 0 <= i < |x|
      ensures x[i] == y[i]
    {
      if i < |a| {
        assert x[i] == a[i];
      } else {
        assert x[i] == b[i - |a|];
      }
    }
  }

  /** The first line feed of `a + b` is that of `a` if `a` has one, and
      otherwise that of `b` shifted by |a|. */
  lemma IndexOfLFConcat(a: seq<byte>, b: seq<byte>)
    ensures IndexOfLF(a + b) == if IndexOfLF(a) < |a| then IndexOfLF(a) else |a| + IndexOfLF(b)
  {
    var s := a + b;
    var k := IndexOfLF(a);
    if k < |a| {
      IndexOfLFIs(s, k);
    } else {
      var k' := IndexOfLF(b);
      if k' < |b| {
        IndexOfLFIs(s, |a| + k');
      } else {
        assert forall i :: 0 <= i < |s| ==> s[i] != LF;
        IndexOfLFNone(s);
      }
    }
  }

  /** Without a line feed, `IndexOfLF` is the length. */
  lemma {:induction false} IndexOfLFNone(s: seq<byte>)
    requires forall i :: 0 <= i < |s| ==> s[i] != LF
    ensures IndexOfLF(s) == |s|
    decreases |s|
  {
    if s != [] {
      IndexOfLFNone(s[1..]);
    }
  }

  /** How a call to `ble_readline` ends: 0 after a line feed, -1 after a
      failed wait or read, or still waiting once no wake-up is left. */
  datatype ReadStatus = LineRead | Failed | Blocked

  /** How a call ends, the bytes it printed, and the wake-ups it left unconsumed. */
  datatype ReadResult = ReadResult(status: ReadStatus, emitted: seq<byte>, rest: seq<Wakeup>)

  /** What one wake-up means to the reader. */
  datatype Step =
    | Stop                     // the wait or the read failed, or the peer closed
    | Skip                     // nothing to look at: only standard input, or not a notification with a value
    | Deliver(value: seq<byte>) // a notification carrying `value`

  /** The checks `ble_readline` makes on one wake-up: the result of
      `select`, whether the socket is readable, the result of `read`, then
      the opcode and the length of the PDU. */
  function Classify(w: Wakeup): (step: Step)
    ensures step.Stop? <==> w.WaitFailed? || w.ReadFailed? || (w.Packet? && |w.bytes| == 0)
    ensures step.Deliver? <==>
              w.Packet? && |w.bytes| > HEADER_LEN && w.bytes[0] == ATT_OP_HANDLE_VALUE_NOTI
    ensures step.Deliver? ==>
              && 0 < |step.value| <= MAX_LINE - HEADER_LEN
              && step.value == w.bytes[HEADER_LEN..if |w.bytes| <= MAX_LINE then |w.bytes| else MAX_LINE]
  {
    match w
    case WaitFailed => Stop
    case InputOnly => Skip
    case ReadFailed => Stop
    case Packet(bytes) =>
      var frame := Received(bytes);
      if |frame| == 0 then Stop
      else if IsNotification(frame) then Deliver(frame[HEADER_LEN..])
      else Skip
  }

  /** The reader's loop, one wake-up at a time. It waits on for ever
      (`Blocked`) only once every wake-up is consumed, and otherwise stops
      at one of the wake-ups it was given. */
  function ReadLoop(ws: seq<Wakeup>): (r: ReadResult)
    ensures r.status == Blocked ==> r.rest == []
    ensures r.status != Blocked ==> |r.rest| < |ws|
    decreases |ws|
  {
    if ws == [] then ReadResult(Blocked, [], [])
    else
      match Classify(ws[0])
      case Stop => ReadResult(Failed, [], ws[1..])
      case Skip => ReadLoop(ws[1..])
      case Deliver(value) =>
        var k := IndexOfLF(value);
        if k < |value| then ReadResult(LineRead, Printables(value[..k]), ws[1..])
        else PrintedFirst(Printables(value), ReadLoop(ws[1..]))
  }

  /** `r` with `printed` output in front of what it prints. */
  function PrintedFirst(printed: seq<byte>, r: ReadResult): ReadResult
  {
    ReadResult(r.status, printed + r.emitted, r.rest)
  }

  /** A wake-up that delivers a value, as the loop handles it: a line feed
      in the value ends the call, otherwise the printable bytes of the value
      come before whatever the later wake-ups produce. */
  lemma DeliverStep(ws: seq<Wakeup>, value: seq<byte>)
    requires ws != [] && Classify(ws[0]) == Deliver(value)
    ensures IndexOfLF(value) < |value| ==> ReadLoop(ws) == ReadResult(LineRead, Printables(value[..IndexOfLF(value)]), ws[1..])
    ensures IndexOfLF(value) == |value| ==> ReadLoop(ws) == PrintedFirst(Printables(value), ReadLoop(ws[1..]))
  {
  }

  /** The wake-ups a call leaves are a suffix of those it was given: it
      consumes them from the front and never puts one back. */
  lemma {:induction false} ReadLoopRest(ws: seq<Wakeup>)
    ensures |ReadLoop(ws).rest| <= |ws|
    ensures ReadLoop(ws).rest == ws[|ws| - |ReadLoop(ws).rest|..]
    decreases |ws|
  {
    if ws != [] {
      ReadLoopRest(ws[1..]);
      assert ws[1..][|ws[1..]| - |ReadLoop(ws[1..]).rest|..] == ws[|ws| - |ReadLoop(ws[1..]).rest|..];
    }
  }

  /** A wake-up that ends the wait with -1. */
  predicate Fatal(w: Wakeup)
  {
    Classify(w).Stop?
  }

  /** The notification value a wake-up delivers (empty for anything else). */
  function Value(w: Wakeup): seq<byte>
  {
    if Classify(w).Deliver? then Classify(w).value else []
  }

  /** All notification values of `ws`, joined in order. */
  function Stream(ws: seq<Wakeup>): seq<byte>
  {
    if ws == [] then [] else Value(ws[0]) + Stream(ws[1..])
  }

  /** Position of the first fatal wake-up, or |ws| when there is none. */
  function FirstFatal(ws: seq<Wakeup>): (k: nat)
    ensures k <= |ws|
    ensures forall i :: 0 <= i < k ==> !Fatal(ws[i])
    ensures k < |ws| ==> Fatal(ws[k])
  {
    if ws == [] || Fatal(ws[0]) then 0 else 1 + FirstFatal(ws[1..])
  }

  /** One wake-up that is not fatal: the stream before the first failure
      starts with its notification value. */
  lemma StreamStep(ws: seq<Wakeup>)
    requires ws != [] && !Fatal(ws[0])
    ensures FirstFatal(ws) == 1 + FirstFatal(ws[1..])
    ensures Stream(ws[..FirstFatal(ws)]) == Value(ws[0]) + Stream(ws[1..][..FirstFatal(ws[1..])])
  {
    var n := FirstFatal(ws[1..]);
    assert ws[..1 + n][1..] == ws[1..][..n];
  }

  /** `r` is what a reader that has seen the notification values `s` should
      produce: 0 exactly when `s` holds a line feed, -1 exactly when it holds
      none and a failure (`failed`) came, and the printable bytes of `s` up
      to its first line feed. */
  predicate Agrees(r: ReadResult, s: seq<byte>, failed: bool)
  {
    && (r.status == LineRead <==> IndexOfLF(s) < |s|)
    && (r.status == Failed <==> IndexOfLF(s) == |s| && failed)
    && r.emitted == Printables(s[..IndexOfLF(s)])
  }

  /** A value holding a line feed settles the outcome whatever follows it. */
  lemma AgreesOnLine(v: seq<byte>, s: seq<byte>, rest: seq<Wakeup>, failed: bool)
    requires IndexOfLF(v) < |v|
    ensures Agrees(ReadResult(LineRead, Printables(v[..IndexOfLF(v)]), rest), v + s, failed)
  {
    LineInFront(v, s);
  }

  /** The first line feed of `v + s`, when `v` holds one, is that of `v`. */
  lemma LineInFront(v: seq<byte>, s: seq<byte>)
    requires IndexOfLF(v) < |v|
    ensures IndexOfLF(v + s) == IndexOfLF(v) < |v + s|
    ensures (v + s)[..IndexOfLF(v + s)] == v[..IndexOfLF(v)]
  {
    IndexOfLFConcat(v, s);
    assert (v + s)[..IndexOfLF(v)] == v[..IndexOfLF(v)];
  }

  /** Printing up to the first line feed of `v + s`, when `v` holds none,
      prints all of `v` and then `s` up to its first line feed. */
  lemma EmittedAfter(v: seq<byte>, s: seq<byte>)
    requires IndexOfLF(v) == |v|
    ensures IndexOfLF(v + s) == |v| + IndexOfLF(s)
    ensures Printables((v + s)[..IndexOfLF(v + s)]) == Printables(v) + Printables(s[..IndexOfLF(s)])
  {
    var k := IndexOfLF(s);
    IndexOfLFConcat(v, s);
    PrefixOfConcat(v, s, k);
    PrintablesConcat(v, s[..k]);
  }

  /** A value without a line feed puts its printable bytes in front of
      whatever the later values produce. */
  lemma AgreesAfter(v: seq<byte>, s: seq<byte>, r: ReadResult, failed: bool)
    requires IndexOfLF(v) == |v| && Agrees(r, s, failed)
    ensures Agrees(ReadResult(r.status, Printables(v) + r.emitted, r.rest), v + s, failed)
  {
    EmittedAfter(v, s);
  }

  /** What the reader does, stated over the whole stream of notification
      values that arrive before the first failure: it prints the printable
      bytes of that stream up to its first line feed; it returns 0 exactly
      when the stream holds a line feed, and -1 exactly when it holds none
      and a failure came. */
  lemma {:induction false} ReadLoopMatchesStream(ws: seq<Wakeup>)
    ensures Agrees(ReadLoop(ws), Stream(ws[..FirstFatal(ws)]), FirstFatal(ws) < |ws|)
    decreases |ws|
  {
    if ws != [] && !Fatal(ws[0]) {
      var more := ws[1..];
      var s := Stream(more[..FirstFatal(more)]);
      var failed := FirstFatal(more) < |more|;
      StreamStep(ws);
      assert FirstFatal(ws) < |ws| <==> failed;
      if Classify(ws[0]).Skip? {
        assert ReadLoop(ws) == ReadLoop(more);
        assert Stream(ws[..FirstFatal(ws)]) == s;
        ReadLoopMatchesStream(more);
      } else {
        var v := Classify(ws[0]).value;
        assert Stream(ws[..FirstFatal(ws)]) == v + s;
        DeliverStep(ws, v);
        if IndexOfLF(v) < |v| {
          AgreesOnLine(v, s, more, failed);
        } else {
          ReadLoopMatchesStream(more);
          AgreesAfter(v, s, ReadLoop(more), failed);
        }
      }
    }
  }

  /** The stream characterisation in the terms of the source: `ble_readline`
      returns 0 exactly when a line feed arrived in a notification value
      before any failure, returns -1 exactly when none did and a wait or
      read failed, and in every case has printed the printable bytes that
      arrived before the first line feed, including those that arrived
      before a failure. */
  lemma ReadLineOutcome(ws: seq<Wakeup>)
    ensures var s := Stream(ws[..FirstFatal(ws)]);
            var r := ReadLoop(ws);
            && (r.status == LineRead <==> LF in s)
            && (r.status == Failed <==> LF !in s && FirstFatal(ws) < |ws|)
            && (LF !in s ==> r.emitted == Printables(s))
            && (LF in s ==> exists k :: 0 <= k < |s| && s[k] == LF && LF !in s[..k] && r.emitted == Printables(s[..k]))
  {
    ReadLoopMatchesStream(ws);
    var s := Stream(ws[..FirstFatal(ws)]);
    HasLF(s);
    var k := IndexOfLF(s);
    if k == |s| {
      assert s[..k] == s;
    } else {
      assert LF !in s[..k];
    }
  }

  /** Everything the reader prints is printable. */
  lemma EmittedIsPrintable(ws: seq<Wakeup>)
    ensures forall i :: 0 <= i < |ReadLoop(ws).emitted| ==> Printable(ReadLoop(ws).emitted[i])
  {
    ReadLoopMatchesStream(ws);
    var s := Stream(ws[..FirstFatal(ws)]);
    PrintablesArePrintable(s[..IndexOfLF(s)]);
  }

  /** A wake-up that neither fails nor delivers a notification value (only
      standard input ready, another opcode, a PDU of three bytes or fewer)
      changes neither the outcome nor the output. */
  lemma {:induction false} IgnoredWakeup(before: seq<Wakeup>, w: Wakeup, after: seq<Wakeup>)
    requires Classify(w).Skip?
    ensures ReadLoop(before + [w] + after).status == ReadLoop(before + after).status
    ensures ReadLoop(before + [w] + after).emitted == ReadLoop(before + after).emitted
    decreases |before|
  {
    if before == [] {
      assert before + [w] + after == [w] + after;
      assert ([w] + after)[1..] == after;
      assert before + after == after;
    } else {
      var ws1, ws2 := before + [w] + after, before + after;
      assert ws1[0] == before[0] && ws2[0] == before[0];
      assert ws1[1..] == before[1..] + [w] + after;
      assert ws2[1..] == before[1..] + after;
      IgnoredWakeup(before[1..], w, after);
    }
  }

  /** The inner loop of `ble_readline` over one notification value: the
      printable bytes before the first line feed, and whether a line feed
      was met (when it is, the bytes after it are not looked at). */
  method ScanValue(value: seq<byte>) returns (sawLF: bool, printed: seq<byte>)
    ensures sawLF <==> LF in value
    ensures sawLF <==> IndexOfLF(value) < |value|
    ensures printed == Printables(value[..IndexOfLF(value)])
    ensures !sawLF ==> printed == Printables(value)
  {
    HasLF(value);
    printed := [];
    var i := 0;
    while i < |value|
      invariant 0 <= i <= |value|
      invariant forall j :: 0 <= j < i ==> value[j] != LF
      invariant printed == Printables(value[..i])
    {
      var c := value[i];
      assert value[..i + 1] == value[..i] + [c];
      if c == LF {
        IndexOfLFIs(value, i);
        return true, printed;
      }
      if 32 <= c <= 126 {
        printed := printed + [c];
      }
      assert value[..i + 1][..i] == value[..i];
      i := i + 1;
    }
    assert value[..i] == value;
    IndexOfLFNone(value);
    sawLF := false;
  }

  /** `ble_readline`: waits for wake-ups until a line feed arrives in a
      notification value or a wait or read fails, printing (returning in
      `out`) the printable bytes of the values as they come. */
  method ReadLine(t: Transport) returns (status: ReadStatus, out: seq<byte>)
    requires t.open
    modifies t`wakeups
    ensures ReadLoop(old(t.wakeups)) == ReadResult(status, out, t.wakeups)
  {
    out := [];
    ghost var all := t.wakeups;
    while true
      invariant t.open
      invariant ReadLoop(all) == PrintedFirst(out, ReadLoop(t.wakeups))
      decreases |t.wakeups|
    {
      ghost var ws := t.wakeups;
      var w := t.Await();
      if w.None? {
        return Blocked, out;
      }
      assert ws[0] == w.value && t.wakeups == ws[1..];
      match w.value {
        case WaitFailed =>
          return Failed, out;
        case InputOnly =>
        case ReadFailed =>
          return Failed, out;
        case Packet(bytes) =>
          var frame := Received(bytes);
          var n := |frame|;
          if n <= 0 {
            return Failed, out;
          }
          var op := frame[0];
          if op == ATT_OP_HANDLE_VALUE_NOTI && n > HEADER_LEN {
            assert Classify(ws[0]) == Deliver(frame[HEADER_LEN..]);
            var sawLF, printed := ScanValue(frame[HEADER_LEN..]);
            DeliverStep(ws, frame[HEADER_LEN..]);
            ghost var later := ReadLoop(t.wakeups);
            if sawLF {
              assert ReadLoop(ws) == ReadResult(LineRead, printed, t.wakeups);
              return LineRead, out + printed;
            }
            assert ReadLoop(ws) == PrintedFirst(printed, later);
            assert (out + printed) + later.emitted == out + (printed + later.emitted);
            out := out + printed;
          }
      }
    }
  }
}
