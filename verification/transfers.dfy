// read2 and write2 of src/helpers.rs: fill a buffer, or write one, and say how far it went
// even when the stream fails on the way.
module Transfers {
  import opened Bytes
  import opened Output
  import opened Endings

  // A stream to read from: the bytes to come, and what its next calls will do (Accept(n)
  // gives up to n of them).
  class Reader {
    var pending: seq<byte>
    var script: seq<WriteOutcome>

    constructor (pending: seq<byte>, script: seq<WriteOutcome>)
      ensures this.pending == pending && this.script == script
    {
      this.pending, this.script := pending, script;
    }

    // Reads into dst[from..].
    method Read(dst: array<byte>, from: nat) returns (r: IoResult)
      requires from <= dst.Length
      modifies this, dst
      ensures var n := if r.Done? then r.n else 0;
              && n <= |old(pending)| && from + n <= dst.Length
              && pending == old(pending)[n..]
              && dst[..] == old(dst[..])[..from] + old(pending)[..n] + old(dst[..])[from + n..]
      ensures script == if old(script) == [] then [] else old(script)[1..]
      ensures Calls(Min(|old(pending)|, dst.Length - from), old(script), r)
    {
      var o := Block;
      if script != [] {
        o := script[0];
        script := script[1..];
      }
      match o {
        case Accept(n) =>
          var k := Min(n, Min(|pending|, dst.Length - from));
          forall i | 0 <= i < k {
            dst[from + i] := pending[i];
          }
          pending := pending[k..];
          r := Done(k);
        case Block => r := WouldBlock;
        case Interrupt => r := Interrupted;
        case Break => r := Broken;
      }
    }
  }

  datatype Ending = Complete | ConnectionAborted | Failed(error: IoResult)

  lemma {:induction false} ReadTurn(was: seq<byte>, source: seq<byte>, done: nat, n: nat, before: seq<byte>, after: seq<byte>)
    requires done + n <= |source| && done + n <= |was|
    requires before == source[..done] + was[done..]
    requires after == before[..done] + source[done..][..n] + before[done + n..]
    ensures after == source[..done + n] + was[done + n..] && source[done..][n..] == source[done + n..]
  {
    assert source[..done] + source[done..][..n] == source[..done + n];
    assert before[done + n..] == was[done + n..];
  }

  // The loop over n bytes blocks, or breaks, before a call that moves nothing.
  predicate Stalls(n: nat, script: seq<WriteOutcome>)
    decreases |script|
  {
    || script == []
    || match script[0]
       case Accept(k) => Min(k, n) > 0 && Stalls(n - Min(k, n), script[1..])
       case Interrupt => Stalls(n, script[1..])
       case Break => false
       case Block => true
  }

  predicate Snaps(n: nat, script: seq<WriteOutcome>)
    decreases |script|
  {
    && script != []
    && match script[0]
       case Accept(k) => Min(k, n) > 0 && Snaps(n - Min(k, n), script[1..])
       case Interrupt => Snaps(n, script[1..])
       case Break => true
       case Block => false
  }

  // How a loop over n bytes ends and how many it moves, from what the stream does.
  predicate Moved(n: nat, script: seq<WriteOutcome>, count: nat, r: Ending) {
    && count == Takes(0, n, script)
    && (r == Failed(WouldBlock) <==> Stalls(n, script))
    && (r == Failed(Broken) <==> Snaps(n, script))
    && (r.Failed? ==> r.error.WouldBlock? || r.error.Broken?)
  }

  // After done of n bytes, what the stream will still do decides as it did at first.
  predicate OnTheWay(n: nat, script: seq<WriteOutcome>, done: nat, now: seq<WriteOutcome>) {
    && done <= n && Takes(0, n, script) == done + Takes(0, n - done, now)
    && Stalls(n, script) == Stalls(n - done, now) && Snaps(n, script) == Snaps(n - done, now)
  }

  // What one call with n bytes to go does.
  predicate Calls(n: nat, now: seq<WriteOutcome>, o: IoResult) {
    match if now == [] then Block else now[0]
    case Accept(k) => o == Done(Min(k, n))
    case Block => o.WouldBlock?
    case Interrupt => o.Interrupted?
    case Break => o.Broken?
  }

  lemma {:induction false} CallMoves(n: nat, script: seq<WriteOutcome>, done: nat, now: seq<WriteOutcome>, o: IoResult)
    requires OnTheWay(n, script, done, now) && Calls(n - done, now, o)
    ensures var m := if o.Done? then o.n else 0;
            if (o.Done? && m > 0) || o.Interrupted? then
              now != [] && OnTheWay(n, script, done + m, now[1..])
            else Takes(0, n, script) == done && (Stalls(n, script) <==> o.WouldBlock?) && (Snaps(n, script) <==> o.Broken?)
  {
  }

  lemma {:induction false} MinLeft(a: nat, b: nat, done: nat)
    requires done <= a && done <= b
    ensures Min(a - done, b - done) == Min(a, b) - done
  {
  }

  // The first done bytes of the source are in the buffer, and the stream goes on from there.
  predicate Filling(rd: Reader, buffer: array<byte>, source: seq<byte>, was: seq<byte>, script: seq<WriteOutcome>, done: nat)
    reads rd, buffer
  {
    && done <= buffer.Length == |was| && done <= |source| && rd.pending == source[done..]
    && buffer[..] == source[..done] + was[done..]
    && OnTheWay(Min(|source|, |was|), script, done, rd.script)
  }

  // Where read2 ends after done bytes.
  predicate Filled(rd: Reader, buffer: array<byte>, source: seq<byte>, was: seq<byte>, script: seq<WriteOutcome>, done: nat, r: Ending)
    reads rd, buffer
  {
    && done <= buffer.Length == |was| && done <= |source| && rd.pending == source[done..]
    && buffer[..] == source[..done] + was[done..]
    && Moved(Min(|source|, |was|), script, done, r)
    && (r.Complete? ==> done == |was|) && (r.ConnectionAborted? ==> done < |was|)
  }

  function EndOf(o: IoResult, full: bool): Ending {
    if !o.Done? then Failed(o) else if full then Complete else ConnectionAborted
  }

  // read as the loop sees it: it has gone on, or this is how it ends.
  method ReadOn(rd: Reader, buffer: array<byte>, done: nat, ghost source: seq<byte>, ghost was: seq<byte>, ghost script: seq<WriteOutcome>)
    returns (o: IoResult)
    requires Filling(rd, buffer, source, was, script, done)
    modifies rd, buffer
    ensures if o.Done? && o.n > 0 then Filling(rd, buffer, source, was, script, done + o.n)
            else if o.Interrupted? then Filling(rd, buffer, source, was, script, done)
            else Filled(rd, buffer, source, was, script, done, EndOf(o, done == buffer.Length))
    ensures o.Interrupted? || (o.Done? && o.n > 0) ==> |rd.script| < |old(rd.script)|
  {
    ghost var before, now := buffer[..], rd.script;
    o := rd.Read(buffer, done);
    MinLeft(|source|, |was|, done);
    CallMoves(Min(|source|, |was|), script, done, now, o);
    ReadTurn(was, source, done, if o.Done? then o.n else 0, before, buffer[..]);
  }

  // Success is exactly a full buffer; whatever happens, the count says how much of the
  // stream is in the buffer, and the rest of both is as it was. How it ends and how far it
  // comes is decided by what the stream does.
  method Read2(rd: Reader, buffer: array<byte>) returns (bytesRead: nat, r: Ending)
    modifies rd, buffer
    ensures Filled(rd, buffer, old(rd.pending), old(buffer[..]), old(rd.script), bytesRead, r)
  {
    ghost var source, was, script := rd.pending, buffer[..], rd.script;
    bytesRead := 0;
    while true
      invariant Filling(rd, buffer, source, was, script, bytesRead)
      decreases |rd.script|
    {
      var o := ReadOn(rd, buffer, bytesRead, source, was, script);
      match o {
        case Done(n) =>
          if n == 0 { return bytesRead, if bytesRead == buffer.Length then Complete else ConnectionAborted; }
          bytesRead := bytesRead + n;
        case Interrupted =>
        case _ => return bytesRead, Failed(o);
      }
    }
  }

  // The stream takes 0 bytes while there are some of the n left.
  predicate ZeroTaken(n: nat, script: seq<WriteOutcome>)
    decreases |script|
  {
    && n > 0 && script != []
    && match script[0]
       case Accept(k) => k == 0 || ZeroTaken(n - Min(k, n), script[1..])
       case Interrupt => ZeroTaken(n, script[1..])
       case _ => false
  }

  // Whatever happens, exactly the counted bytes are on the wire, and success leaves some
  // unsent exactly if the stream took 0 bytes before the last. Unlike send_all, write2
  // reports the count also when the stream fails.
  method Write2(wr: Writer, buffer: seq<byte>) returns (bytesWrit: nat, r: Ending)
    modifies wr
    ensures bytesWrit <= |buffer| && wr.wire.sent == old(wr.wire.sent) + buffer[..bytesWrit]
    ensures r.Complete? && bytesWrit < |buffer| <==> ZeroTaken(|buffer|, old(wr.wire.script))
    ensures !r.ConnectionAborted? && Moved(|buffer|, old(wr.wire.script), bytesWrit, r)
  {
    bytesWrit := 0;
    ghost var script := wr.wire.script;
    while true
      invariant bytesWrit <= |buffer| && wr.wire.sent == old(wr.wire.sent) + buffer[..bytesWrit]
      invariant ZeroTaken(|buffer| - bytesWrit, wr.wire.script) == ZeroTaken(|buffer|, script)
      invariant OnTheWay(|buffer|, script, bytesWrit, wr.wire.script)
      decreases |buffer| - bytesWrit, |wr.wire.script|
    {
      ghost var w := wr.wire;
      var o := wr.Write(buffer[bytesWrit..]);
      WriteTurn(w, buffer, bytesWrit, wr.wire, o);
      CallMoves(|buffer|, script, bytesWrit, w.script, o);
      match o {
        case Done(n) =>
          if n == 0 { return bytesWrit, Complete; }
          bytesWrit := bytesWrit + n;
        case Interrupted =>
        case _ => return bytesWrit, Failed(o);
      }
    }
  }

  lemma {:induction false} WriteTurn(w: Wire, buffer: seq<byte>, done: nat, after: Wire, o: IoResult)
    requires done <= |buffer| && (after, o) == WriteOn(w, buffer[done..])
    ensures var n := if o.Done? then o.n else 0;
            && done + n <= |buffer| && after.sent == w.sent + buffer[done..done + n]
            && buffer[..done] + buffer[done..done + n] == buffer[..done + n]
            && ZeroTaken(|buffer| - done, w.script) ==
               if o == Done(0) then done < |buffer|
               else if o.Done? || o.Interrupted? then ZeroTaken(|buffer| - done - n, after.script)
               else false
    ensures o.Interrupted? ==> |after.script| < |w.script|
  {
    assert w.script != [] ==> after.script == w.script[1..];
  }
}
