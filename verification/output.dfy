// Writing to a stream that takes what it likes: the loops behind send_to, send_all and
// io::copy, and the bytes they put on the wire.
module Output {
  import opened Bytes

  // What one call to the stream does: take up to n bytes, or one of three errors.
  datatype WriteOutcome = Accept(n: nat) | Block | Interrupt | Break

  // The bytes the stream has taken, and what its next calls will do.
  datatype Wire = Wire(sent: seq<byte>, script: seq<WriteOutcome>)

  datatype IoResult = Done(n: nat) | WouldBlock | Interrupted | Broken

  function Min(a: nat, b: nat): nat {
    if a <= b then a else b
  }

  function Next(w: Wire): WriteOutcome {
    if w.script == [] then Block else w.script[0]
  }

  function Advance(w: Wire): Wire {
    if w.script == [] then w else w.(script := w.script[1..])
  }

  function WriteOn(w: Wire, slice: seq<byte>): (Wire, IoResult) {
    match Next(w)
    case Accept(n) =>
      var k := Min(n, |slice|);
      (Advance(w).(sent := w.sent + slice[..k]), Done(k))
    case Block => (Advance(w), WouldBlock)
    case Interrupt => (Advance(w), Interrupted)
    case Break => (Advance(w), Broken)
  }

  function FlushOn(w: Wire): (Wire, IoResult) {
    match Next(w)
    case Accept(_) => (Advance(w), Done(0))
    case Block => (Advance(w), WouldBlock)
    case Interrupt => (Advance(w), Interrupted)
    case Break => (Advance(w), Broken)
  }

  function Interruptions(script: seq<WriteOutcome>): nat {
    if script == [] then 0 else (if script[0].Interrupt? then 1 else 0) + Interruptions(script[1..])
  }

  class Writer {
    var wire: Wire

    constructor (script: seq<WriteOutcome>)
      ensures wire == Wire([], script)
    {
      wire := Wire([], script);
    }

    method Take() returns (o: WriteOutcome)
      modifies this
      ensures o == Next(old(wire)) && wire == Advance(old(wire))
    {
      o := Next(wire);
      wire := Advance(wire);
    }

    method Write(slice: seq<byte>) returns (r: IoResult)
      modifies this
      ensures (wire, r) == WriteOn(old(wire), slice)
      ensures r.Done? ==> r.n <= |slice| && wire.sent == old(wire.sent) + slice[..r.n]
      ensures !r.Done? ==> wire.sent == old(wire.sent)
    {
      var o := Take();
      match o {
        case Accept(n) =>
          var k := Min(n, |slice|);
          wire := wire.(sent := wire.sent + slice[..k]);
          r := Done(k);
        case Block => r := WouldBlock;
        case Interrupt => r := Interrupted;
        case Break => r := Broken;
      }
    }

    method Flush() returns (r: IoResult)
      modifies this
      ensures (wire, r) == FlushOn(old(wire))
    {
      var o := Take();
      match o {
        case Accept(n) => r := Done(0);
        case Block => r := WouldBlock;
        case Interrupt => r := Interrupted;
        case Break => r := Broken;
      }
    }
  }

  // ------------------------------------------- a head and a body, sent from any offset

  // The slice send_to offers: the rest of the head, or after it the rest of the body.
  function Offer(head: seq<byte>, body: seq<byte>, writ: nat): seq<byte>
    requires writ <= |head| + |body|
  {
    if writ < |head| then head[writ..] else body[writ - |head|..]
  }

  // The offer always continues the flat form, and is empty exactly when all is sent.
  lemma {:induction false} OfferContinues(head: seq<byte>, body: seq<byte>, writ: nat)
    requires writ <= |head| + |body|
    ensures Offer(head, body, writ) <= (head + body)[writ..]
    ensures Offer(head, body, writ) == [] <==> writ == |head| + |body|
  {
    assert writ < |head| ==> (head + body)[writ..] == head[writ..] + body;
    assert writ >= |head| ==> (head + body)[writ..] == body[writ - |head|..];
  }

  // The wire, the cursor and the result after some calls.
  datatype Sending = Sending(wire: Wire, writ: nat, result: IoResult)

  function SendTo(head: seq<byte>, body: seq<byte>, writ: nat, w: Wire): (r: Sending)
    requires writ <= |head| + |body|
    ensures writ <= r.writ <= |head| + |body|
    ensures r.result.Interrupted? ==> |r.wire.script| < |w.script| && r.writ == writ
    ensures r.result.Done? ==> r.writ == writ + r.result.n
  {
    var (w', r) := WriteOn(w, Offer(head, body, writ));
    Sending(w', if r.Done? then writ + r.n else writ, r)
  }

  // The flush after the last turn.
  function Flushed(writ: nat, w: Wire, total: nat): Sending {
    var (w', f) := FlushOn(w);
    Sending(w', writ, if f.Done? then Done(total) else f)
  }

  // After something was written, or after an interruption, send_to is called again.
  predicate GoesOn(r: IoResult) {
    r.Interrupted? || (r.Done? && r.n > 0)
  }

  function Count(r: IoResult): nat {
    if r.Done? then r.n else 0
  }

  // send_all, from where the messenger stands.
  function SendAll(head: seq<byte>, body: seq<byte>, writ: nat, w: Wire, total: nat): (r: Sending)
    requires writ <= |head| + |body|
    ensures writ <= r.writ <= |head| + |body|
    decreases |head| + |body| - writ, |w.script|
  {
    var s := SendTo(head, body, writ, w);
    if GoesOn(s.result) then SendAll(head, body, s.writ, s.wire, total + Count(s.result))
    else if s.result.Done? then Flushed(writ, s.wire, total)
    else s
  }

  lemma {:induction false} SendToEmits(head: seq<byte>, body: seq<byte>, writ: nat, w: Wire)
    requires writ <= |head| + |body|
    ensures var r := SendTo(head, body, writ, w);
            r.wire.sent == w.sent + (head + body)[writ..r.writ]
  {
    OfferContinues(head, body, writ);
    var r := SendTo(head, body, writ, w);
    assert (head + body)[writ..r.writ] == (head + body)[writ..][..r.writ - writ];
  }

  // How often send_all calls send_to.
  function Turns(head: seq<byte>, body: seq<byte>, writ: nat, w: Wire): (n: nat)
    requires writ <= |head| + |body|
    decreases |head| + |body| - writ, |w.script|
  {
    var s := SendTo(head, body, writ, w);
    if GoesOn(s.result) then 1 + Turns(head, body, s.writ, s.wire) else 1
  }

  // At most once for each byte and each interruption still to come, and once more.
  lemma {:induction false} TurnsBounded(head: seq<byte>, body: seq<byte>, writ: nat, w: Wire)
    requires writ <= |head| + |body|
    ensures Turns(head, body, writ, w) <= |head| + |body| - writ + Interruptions(w.script) + 1
    decreases |head| + |body| - writ, |w.script|
  {
    var s := SendTo(head, body, writ, w);
    if GoesOn(s.result) {
      TurnsBounded(head, body, s.writ, s.wire);
    }
  }

  // What goes out from a to b and then from b to e goes out from a to e.
  lemma {:induction false} EmitJoins(flat: seq<byte>, a: nat, b: nat, e: nat, sent: seq<byte>)
    requires a <= b <= e <= |flat|
    ensures sent + flat[a..b] + flat[b..e] == sent + flat[a..e]
  {
    assert flat[a..b] + flat[b..e] == flat[a..e];
  }

  // Whatever the stream does, exactly the bytes between the two cursors are emitted, and a
  // success reports how many.
  lemma {:induction false} SendAllEmits(head: seq<byte>, body: seq<byte>, writ: nat, w: Wire, total: nat)
    requires writ <= |head| + |body|
    ensures var r := SendAll(head, body, writ, w, total);
            && r.wire.sent == w.sent + (head + body)[writ..r.writ]
            && (r.result.Done? ==> r.result.n == total + r.writ - writ)
    decreases |head| + |body| - writ, |w.script|
  {
    var s := SendTo(head, body, writ, w);
    SendToEmits(head, body, writ, w);
    if GoesOn(s.result) {
      var n := Count(s.result);
      SendAllEmits(head, body, s.writ, s.wire, total + n);
      EmitJoins(head + body, writ, s.writ, SendAll(head, body, s.writ, s.wire, total + n).writ, w.sent);
    }
  }

  // With h bytes of the head and b of the body to go: the stream takes 0 bytes of a slice
  // that is not empty, and the flush that follows succeeds.
  predicate StopsShort(h: nat, b: nat, script: seq<WriteOutcome>)
    decreases |script|
  {
    && h + b > 0 && script != []
    && match script[0]
       case Accept(n) =>
         if n == 0 then |script| > 1 && script[1].Accept?
         else if h > 0 then StopsShort(h - Min(n, h), b, script[1..])
         else StopsShort(0, b - Min(n, b), script[1..])
       case Interrupt => StopsShort(h, b, script[1..])
       case _ => false
  }

  function Left(part: seq<byte>, writ: nat): nat {
    if writ < |part| then |part| - writ else 0
  }

  predicate ShortFrom(head: seq<byte>, body: seq<byte>, writ: nat, script: seq<WriteOutcome>)
    requires writ <= |head| + |body|
  {
    StopsShort(Left(head, writ), |head| + |body| - writ - Left(head, writ), script)
  }

  lemma {:induction false} ShortTurn(head: seq<byte>, body: seq<byte>, writ: nat, w: Wire, s: Sending)
    requires writ <= |head| + |body| && s == SendTo(head, body, writ, w)
    ensures ShortFrom(head, body, writ, w.script) ==
            if GoesOn(s.result) then ShortFrom(head, body, s.writ, s.wire.script)
            else s.result.Done? && writ < |head| + |body| && Next(s.wire).Accept?
  {
    OfferContinues(head, body, writ);
  }

  // Each call, exactly: whether success leaves something unsent is decided by the script
  // and the two lengths.
  lemma {:induction false} ShortExact(head: seq<byte>, body: seq<byte>, writ: nat, w: Wire, total: nat)
    requires writ <= |head| + |body|
    ensures var r := SendAll(head, body, writ, w, total);
            r.result.Done? && r.writ < |head| + |body| <==> ShortFrom(head, body, writ, w.script)
    decreases |head| + |body| - writ, |w.script|
  {
    var s := SendTo(head, body, writ, w);
    ShortTurn(head, body, writ, w, s);
    if GoesOn(s.result) {
      ShortExact(head, body, s.writ, s.wire, total + Count(s.result));
    }
  }

  // The first Accept(0) has only accepts and interruptions before it, and an accept behind.
  predicate ZeroInTheWay(script: seq<WriteOutcome>) {
    && script != []
    && match script[0]
       case Accept(n) => if n == 0 then |script| > 1 && script[1].Accept? else ZeroInTheWay(script[1..])
       case Interrupt => ZeroInTheWay(script[1..])
       case _ => false
  }

  function Capacity(script: seq<WriteOutcome>): nat {
    if script == [] then 0 else (if script[0].Accept? then script[0].n else 0) + Capacity(script[1..])
  }

  lemma {:induction false} ShortNeedsZero(h: nat, b: nat, script: seq<WriteOutcome>)
    ensures StopsShort(h, b, script) ==> ZeroInTheWay(script)
    ensures ZeroInTheWay(script) && b > Capacity(script) ==> StopsShort(0, b, script)
    decreases |script|
  {
    if script != [] {
      match script[0]
      case Accept(n) =>
        if h > 0 {
          ShortNeedsZero(h - Min(n, h), b, script[1..]);
        }
        ShortNeedsZero(0, b - Min(n, b), script[1..]);
      case Interrupt => ShortNeedsZero(h, b, script[1..]);
      case _ =>
    }
  }

  ghost predicate SuccessMeansSent(script: seq<WriteOutcome>) {
    forall head, body, writ: nat, sent, total: nat | writ <= |head| + |body| ::
      var r := SendAll(head, body, writ, Wire(sent, script), total);
      r.result.Done? ==> r.writ == |head| + |body|
  }

  // Whatever is sent from wherever, success means that all is sent: exactly for the streams
  // in which no Accept(0) is in the way.
  lemma {:induction false} SuccessIsComplete(script: seq<WriteOutcome>)
    ensures SuccessMeansSent(script) <==> !ZeroInTheWay(script)
  {
    forall head, body, writ: nat, sent, total: nat | writ <= |head| + |body| && !ZeroInTheWay(script)
      ensures var r := SendAll(head, body, writ, Wire(sent, script), total);
              r.result.Done? ==> r.writ == |head| + |body|
    {
      ShortExact(head, body, writ, Wire(sent, script), total);
      ShortNeedsZero(Left(head, writ), |head| + |body| - writ - Left(head, writ), script);
    }
    if ZeroInTheWay(script) {
      var body := seq(Capacity(script) + 1, _ => 0 as byte);
      ShortNeedsZero(0, |body|, script);
      ShortExact([], body, 0, Wire([], script), 0);
      assert !SuccessMeansSent(script) by {
        assert SendAll([], body, 0, Wire([], script), 0).result.Done?;
      }
    }
  }

  // One Accept(0) and send_all reports success with everything still to send.
  lemma {:induction false} ZeroWriteLooksComplete(head: seq<byte>, body: seq<byte>)
    ensures var r := SendAll(head, body, 0, Wire([], [Accept(0), Accept(1)]), 0);
            r.result == Done(0) && r.writ == 0
  {
  }

  // Repeated send_all calls over the life of one message, each meeting its own outcomes.
  function SendRuns(head: seq<byte>, body: seq<byte>, writ: nat, sent: seq<byte>, scripts: seq<seq<WriteOutcome>>): (r: Sending)
    requires writ <= |head| + |body|
    ensures writ <= r.writ <= |head| + |body|
    decreases |scripts|
  {
    if scripts == [] then Sending(Wire(sent, []), writ, Done(0))
    else
      var s := SendAll(head, body, writ, Wire(sent, scripts[0]), 0);
      SendRuns(head, body, s.writ, s.wire.sent, scripts[1..])
  }

  lemma {:induction false} RunsEmit(head: seq<byte>, body: seq<byte>, writ: nat, sent: seq<byte>, scripts: seq<seq<WriteOutcome>>)
    requires writ <= |head| + |body|
    ensures var r := SendRuns(head, body, writ, sent, scripts);
            r.wire.sent == sent + (head + body)[writ..r.writ]
    decreases |scripts|
  {
    if scripts == [] {
      assert (head + body)[writ..writ] == [];
    } else {
      var s := SendAll(head, body, writ, Wire(sent, scripts[0]), 0);
      SendAllEmits(head, body, writ, Wire(sent, scripts[0]), 0);
      RunsEmit(head, body, s.writ, s.wire.sent, scripts[1..]);
      EmitJoins(head + body, writ, s.writ, SendRuns(head, body, s.writ, s.wire.sent, scripts[1..]).writ, sent);
    }
  }

  // Over any number of calls and any short writes, blocks and interruptions, the wire holds
  // exactly the first writ bytes of the flat form.
  lemma {:induction false} PartialWritesRefineFlat(head: seq<byte>, body: seq<byte>, scripts: seq<seq<WriteOutcome>>)
    ensures var r := SendRuns(head, body, 0, [], scripts);
            r.wire.sent == (head + body)[..r.writ]
  {
    RunsEmit(head, body, 0, [], scripts);
  }

  // ---------------------------------------------------------------- io::copy from a slice

  // The bytes copied so far are returned even when copy fails; its caller never sees them.
  datatype Copying = Copying(wire: Wire, copied: nat, result: IoResult)

  function Copy(slice: seq<byte>, w: Wire): (r: Copying)
    ensures r.copied <= |slice|
    ensures if r.result.Done? then r.copied == |slice| == r.result.n else r.copied < |slice|
    ensures !r.result.Interrupted?
    decreases |slice| + Interruptions(w.script)
  {
    if slice == [] then Copying(w, 0, Done(0))
    else
      var (w', r) := WriteOn(w, slice);
      match r
      case Done(n) =>
        if n == 0 then Copying(w', 0, Broken)
        else
          var c := Copy(slice[n..], w');
          Copying(c.wire, n + c.copied, if c.result.Done? then Done(|slice|) else c.result)
      case Interrupted => Copy(slice, w')
      case _ => Copying(w', 0, r)
  }

  lemma {:induction false} CopyEmits(slice: seq<byte>, w: Wire)
    ensures var r := Copy(slice, w);
            r.wire.sent == w.sent + slice[..r.copied]
    decreases |slice| + Interruptions(w.script)
  {
    if slice != [] {
      var (w', r) := WriteOn(w, slice);
      match r {
        case Done(n) =>
          if n > 0 {
            CopyEmits(slice[n..], w');
            var c := Copy(slice[n..], w').copied;
            assert slice[..n + c] == slice[..n] + slice[n..][..c];
          }
        case Interrupted => CopyEmits(slice, w');
        case _ =>
      }
    }
  }

  // A stream that takes everything at once.
  lemma {:induction false} TakesAll(response: seq<byte>, sent: seq<byte>)
    requires response != []
    ensures Copy(response, Wire(sent, [Accept(|response|), Accept(0)]))
         == Copying(Wire(sent + response, [Accept(0)]), |response|, Done(|response|))
  {
    var w := Wire(sent, [Accept(|response|), Accept(0)]);
    assert w.script[1..] == [Accept(0)];
    assert response[..|response|] == response && response[|response|..] == [];
    assert WriteOn(w, response) == (Wire(sent + response, [Accept(0)]), Done(|response|));
  }

  // write_all inside io::copy, as a loop on the writer.
  method CopyInto(slice: seq<byte>, wr: Writer) returns (r: IoResult)
    modifies wr
    ensures wr.wire == Copy(slice, old(wr.wire)).wire
    ensures r == Copy(slice, old(wr.wire)).result
  {
    var rest := slice;
    while rest != []
      invariant |rest| <= |slice|
      invariant Copy(slice, old(wr.wire)).wire == Copy(rest, wr.wire).wire
      invariant Copy(slice, old(wr.wire)).result
             == if Copy(rest, wr.wire).result.Done? then Done(|slice|) else Copy(rest, wr.wire).result
      decreases |rest| + Interruptions(wr.wire.script)
    {
      var o := wr.Write(rest);
      match o {
        case Done(n) =>
          if n == 0 { return Broken; }
          rest := rest[n..];
        case Interrupted =>
        case _ => return o;
      }
    }
    return Done(|slice|);
  }
}
