// How a send ends, from the lengths still to go and what the stream will do alone: how much it
// takes, and whether it blocks, fails or is done.
module Endings {
  import opened Bytes
  import opened Output

  // ---------------------------------------------------------------- a head and a body

  // How much of the next slice a write takes, with h bytes of the head and b of the body to go.
  function Bite(h: nat, b: nat, n: nat): nat {
    if h > 0 then Min(n, h) else Min(n, b)
  }

  function HeadLeft(h: nat, n: nat): nat {
    if h > 0 then h - Min(n, h) else 0
  }

  function BodyLeft(h: nat, b: nat, n: nat): nat {
    if h > 0 then b else b - Min(n, b)
  }

  // All that is taken, until a write takes nothing, blocks or breaks.
  function Takes(h: nat, b: nat, script: seq<WriteOutcome>): (taken: nat)
    ensures taken <= h + b
    decreases |script|
  {
    if script == [] then 0
    else
      match script[0]
      case Accept(n) =>
        var k := Bite(h, b, n);
        if k == 0 then 0 else k + Takes(HeadLeft(h, n), BodyLeft(h, b, n), script[1..])
      case Interrupt => Takes(h, b, script[1..])
      case _ => 0
  }

  // A flush fails if it breaks or is interrupted.
  predicate FlushFails(script: seq<WriteOutcome>) {
    script != [] && (script[0].Break? || script[0].Interrupt?)
  }

  predicate FlushBlocks(script: seq<WriteOutcome>) {
    script == [] || script[0].Block?
  }

  // A write breaks, or the flush behind the write that takes nothing fails.
  predicate Fails(h: nat, b: nat, script: seq<WriteOutcome>)
    decreases |script|
  {
    && script != []
    && match script[0]
       case Accept(n) =>
         if Bite(h, b, n) == 0 then FlushFails(script[1..])
         else Fails(HeadLeft(h, n), BodyLeft(h, b, n), script[1..])
       case Interrupt => Fails(h, b, script[1..])
       case Break => true
       case Block => false
  }

  // A write blocks, or that flush does.
  predicate Blocks(h: nat, b: nat, script: seq<WriteOutcome>)
    decreases |script|
  {
    || script == []
    || match script[0]
       case Accept(n) =>
         if Bite(h, b, n) == 0 then FlushBlocks(script[1..])
         else Blocks(HeadLeft(h, n), BodyLeft(h, b, n), script[1..])
       case Interrupt => Blocks(h, b, script[1..])
       case Break => false
       case Block => true
  }

  function BodyToGo(head: seq<byte>, body: seq<byte>, writ: nat): nat
    requires writ <= |head| + |body|
  {
    |head| + |body| - writ - Left(head, writ)
  }

  // Each call, exactly: how far it comes, and how it ends.
  predicate EndsAs(head: seq<byte>, body: seq<byte>, writ: nat, script: seq<WriteOutcome>, r: Sending)
    requires writ <= |head| + |body|
  {
    var h, b := Left(head, writ), BodyToGo(head, body, writ);
    && r.writ == writ + Takes(h, b, script)
    && (r.result.Broken? || r.result.Interrupted? <==> Fails(h, b, script))
    && (r.result.WouldBlock? <==> Blocks(h, b, script))
  }

  // One turn: what is left of the lengths after it.
  lemma {:induction false} TurnTakes(head: seq<byte>, body: seq<byte>, writ: nat, w: Wire, s: Sending)
    requires writ <= |head| + |body| && s == SendTo(head, body, writ, w)
    ensures var h, b := Left(head, writ), BodyToGo(head, body, writ);
            match Next(w)
            case Accept(n) =>
              && s.result == Done(Bite(h, b, n)) && s.wire.script == w.script[1..]
              && Left(head, s.writ) == HeadLeft(h, n) && BodyToGo(head, body, s.writ) == BodyLeft(h, b, n)
            case Interrupt => s.result.Interrupted? && s.writ == writ && s.wire.script == w.script[1..]
            case Block => s.result.WouldBlock? && s.writ == writ
            case Break => s.result.Broken? && s.writ == writ
  {
  }

  lemma {:induction false} SendAllEnds(head: seq<byte>, body: seq<byte>, writ: nat, w: Wire, total: nat)
    requires writ <= |head| + |body|
    ensures EndsAs(head, body, writ, w.script, SendAll(head, body, writ, w, total))
    decreases |head| + |body| - writ, |w.script|
  {
    var s := SendTo(head, body, writ, w);
    TurnTakes(head, body, writ, w, s);
    if GoesOn(s.result) {
      SendAllEnds(head, body, s.writ, s.wire, total + Count(s.result));
    }
  }

  // Until the stream first blocks or takes nothing it never breaks, and no accept is followed
  // by an interruption, so that no flush is interrupted.
  predicate Gentle(script: seq<WriteOutcome>) {
    || script == []
    || match script[0]
       case Accept(n) => !FlushFails(script[1..]) && (n == 0 || Gentle(script[1..]))
       case Interrupt => Gentle(script[1..])
       case Break => false
       case Block => true
  }

  lemma {:induction false} GentleNeverFails(h: nat, b: nat, script: seq<WriteOutcome>)
    requires Gentle(script)
    ensures !Fails(h, b, script)
    decreases |script|
  {
    if script != [] {
      match script[0]
      case Accept(n) => if Bite(h, b, n) > 0 { GentleNeverFails(HeadLeft(h, n), BodyLeft(h, b, n), script[1..]); }
      case Interrupt => GentleNeverFails(h, b, script[1..]);
      case _ =>
    }
  }

  lemma {:induction false} RoughFails(script: seq<WriteOutcome>) returns (b: nat)
    requires !Gentle(script)
    ensures Fails(0, b, script)
    decreases |script|
  {
    b := 0;
    match script[0] {
      case Accept(n) =>
        if !FlushFails(script[1..]) {
          var more := RoughFails(script[1..]);
          b := n + more;
        }
      case Interrupt => b := RoughFails(script[1..]);
      case _ =>
    }
  }

  ghost predicate NeverFails(script: seq<WriteOutcome>) {
    forall h: nat, b: nat :: !Fails(h, b, script)
  }

  // The streams on which no send of anything fails are exactly the gentle ones.
  lemma {:induction false} GentleExact(script: seq<WriteOutcome>)
    ensures Gentle(script) <==> NeverFails(script)
  {
    if Gentle(script) {
      forall h: nat, b: nat ensures !Fails(h, b, script) {
        GentleNeverFails(h, b, script);
      }
    } else {
      var b := RoughFails(script);
      assert exists h: nat, c: nat :: Fails(h, c, script);
    }
  }

  // A stream that only accepts and blocks is gentle, wherever it is joined.
  predicate OnlyAcceptsOrBlocks(script: seq<WriteOutcome>) {
    forall i | 0 <= i < |script| :: script[i].Accept? || script[i].Block?
  }

  lemma {:induction false} AcceptsAreGentle(script: seq<WriteOutcome>)
    requires OnlyAcceptsOrBlocks(script)
    ensures Gentle(script) && !FlushFails(script)
    decreases |script|
  {
    if script != [] {
      AcceptsAreGentle(script[1..]);
    }
  }

  // ---------------------------------------------------------------- a copy and its flush

  // io::copy of n bytes breaks if a write does or takes nothing; the flush comes right behind
  // the last byte.
  predicate AnswerFails(n: nat, script: seq<WriteOutcome>)
    decreases |script|
  {
    if n == 0 then FlushFails(script)
    else
      && script != []
      && match script[0]
         case Accept(k) => k == 0 || AnswerFails(n - Min(k, n), script[1..])
         case Interrupt => AnswerFails(n, script[1..])
         case Break => true
         case Block => false
  }

  predicate AnswerBlocks(n: nat, script: seq<WriteOutcome>)
    decreases |script|
  {
    if n == 0 then FlushBlocks(script)
    else
      || script == []
      || match script[0]
         case Accept(k) => k > 0 && AnswerBlocks(n - Min(k, n), script[1..])
         case Interrupt => AnswerBlocks(n, script[1..])
         case Break => false
         case Block => true
  }

  // The whole of it is taken, whether or not the flush then succeeds.
  predicate TakesWhole(n: nat, script: seq<WriteOutcome>)
    decreases |script|
  {
    || n == 0
    || (script != []
        && match script[0]
           case Accept(k) => k > 0 && TakesWhole(n - Min(k, n), script[1..])
           case Interrupt => TakesWhole(n, script[1..])
           case _ => false)
  }

  lemma {:induction false} CopyTurn(slice: seq<byte>, w: Wire)
    requires slice != []
    ensures var (w', r) := WriteOn(w, slice);
            match Next(w)
            case Accept(k) =>
              && r == Done(Min(k, |slice|)) && w'.script == w.script[1..] && |slice[Min(k, |slice|)..]| == |slice| - Min(k, |slice|)
            case Interrupt => r.Interrupted? && w'.script == w.script[1..]
            case Block => r.WouldBlock?
            case Break => r.Broken?
  {
  }

  // A copy and the flush behind it.
  lemma {:induction false} CopyEnds(slice: seq<byte>, w: Wire)
    ensures var c := Copy(slice, w);
            var f := FlushOn(c.wire).1;
            && (c.result.Done? <==> TakesWhole(|slice|, w.script))
            && ((if c.result.Done? then f.Broken? || f.Interrupted? else !c.result.WouldBlock?) <==> AnswerFails(|slice|, w.script))
            && ((if c.result.Done? then f.WouldBlock? else c.result.WouldBlock?) <==> AnswerBlocks(|slice|, w.script))
    decreases |slice| + Interruptions(w.script)
  {
    if slice != [] {
      var (w', r) := WriteOn(w, slice);
      CopyTurn(slice, w);
      match Next(w)
      case Accept(k) => if k > 0 { CopyEnds(slice[Min(k, |slice|)..], w'); }
      case Interrupt => CopyEnds(slice, w');
      case _ =>
    }
  }

  lemma {:induction false} GentleAnswer(n: nat, script: seq<WriteOutcome>)
    requires OnlyAcceptsOrBlocks(script)
    requires forall i | 0 <= i < |script| :: script[i] != Accept(0)
    ensures !AnswerFails(n, script)
    decreases |script|
  {
    if script != [] && n > 0 && script[0].Accept? {
      GentleAnswer(n - Min(script[0].n, n), script[1..]);
    }
  }
}
