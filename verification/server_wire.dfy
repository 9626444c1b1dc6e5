// What is on a connection's wire: the handshake response, then frames.
module ServerWire {
  import opened Bytes
  import opened WsParsing
  import opened Messaging
  import opened Output
  import opened Handshaking
  import opened ServerSteps
  import opened ServerClients

  predicate Begun(x: Outbound) {
    Sized(x.msg) && x.writ <= |Encode(x.msg)|
  }

  predicate AllBegun(xs: seq<Outbound>) {
    forall i | 0 <= i < |xs| :: Begun(xs[i])
  }

  // The bytes of every replaced messenger, as far as it got.
  function Parts(xs: seq<Outbound>): (r: seq<seq<byte>>)
    requires AllBegun(xs)
    ensures |r| == |xs|
  {
    seq(|xs|, i requires 0 <= i < |xs| => Encode(xs[i].msg)[..xs[i].writ])
  }

  // Everything a connection's messenger was ever given.
  function Given(c: Client): seq<Message> {
    seq(|c.trace.retired|, i requires 0 <= i < |c.trace.retired| => c.trace.retired[i].msg) + [c.msg]
  }

  // What came before the current messenger's bytes.
  function Before(c: Client): seq<byte>
    requires Runnable(c) && AllBegun(c.trace.retired)
  {
    Flatten(c.trace.attempts) + c.handshaker.buf[..c.handshaker.bytesWrit] + Flatten(Parts(c.trace.retired))
  }

  // A failed copy took some first bytes of the response, but not all of it.
  predicate Partial(attempt: seq<byte>, response: seq<byte>) {
    attempt == [] || attempt < response
  }

  // The wire, byte for byte: failed copies of the response, the response as far as counted,
  // and the first writ bytes of each messenger in turn.
  predicate WireExact(c: Client)
    requires Runnable(c)
  {
    && AllBegun(c.trace.retired)
    && c.sent == Before(c) + Encode(c.msg)[..c.writ]
    && (forall i | 0 <= i < |c.trace.attempts| :: Partial(c.trace.attempts[i], c.handshaker.buf))
    && (c.isHandshaking ==> c.trace.retired == [] && c.writ == 0)
    && (c.handshaker.bytesWrit == 0 || c.handshaker.bytesWrit == |c.handshaker.buf|)
    && (c.handshaker.buf == [] ==> c.isHandshaking)
  }

  lemma {:induction false} SendMessagesShape(c: Client, script: seq<WriteOutcome>)
    requires Runnable(c)
    ensures var d := SendMessages(c, script).0;
            && c.writ <= d.writ && d == c.(sent := d.sent, writ := d.writ)
            && d.sent == c.sent + Encode(c.msg)[c.writ..d.writ]
  {
    SendAllEmits(Header(c.msg), c.msg.content, c.writ, Wire(c.sent, script), 0);
  }

  lemma {:induction false} SendMessagesExact(c: Client, script: seq<WriteOutcome>)
    requires Runnable(c) && WireExact(c) && !c.isHandshaking
    ensures var d := SendMessages(c, script).0;
            WireExact(d) && Given(d) == Given(c) && !d.isHandshaking
  {
    SendMessagesShape(c, script);
    var d := SendMessages(c, script).0;
    assert Before(d) == Before(c);
    PrefixGrows(Before(c), Encode(c.msg), c.writ, d.writ);
  }

  lemma {:induction false} PrefixGrows(a: seq<byte>, s: seq<byte>, i: nat, j: nat)
    requires i <= j <= |s|
    ensures a + s[..i] + s[i..j] == a + s[..j]
  {
  }

  lemma {:induction false} ReplacedExact(c: Client, msg: Message)
    requires Runnable(c) && WireExact(c) && !c.isHandshaking && Sized(msg)
    ensures var d := Replaced(c, msg);
            WireExact(d) && Given(d) == Given(c) + [msg] && !d.isHandshaking
  {
    var d := Replaced(c, msg);
    var x := Outbound(c.msg, c.writ);
    assert Parts(c.trace.retired + [x]) == Parts(c.trace.retired) + [Encode(c.msg)[..c.writ]];
    FlattenSnoc(Parts(c.trace.retired), Encode(c.msg)[..c.writ]);
    assert Before(d) == Before(c) + Encode(c.msg)[..c.writ];
    assert Encode(msg)[..0] == [];
  }

  // The response is sent before anything else is.
  lemma {:induction false} AnsweredExact(c: Client, script: seq<WriteOutcome>)
    requires Runnable(c) && WireExact(c) && c.isHandshaking && c.handshaker.buf != []
    ensures var d := Answered(c, script).0;
            WireExact(d) && Given(d) == Given(c) && d.isHandshaking
  {
    var h := c.handshaker;
    var d := Answered(c, script).0;
    var s := SendResponse(h, Wire(c.sent, script));
    SendResponseEmits(h, Wire(c.sent, script));
    var lost := h.buf[h.bytesWrit..h.bytesWrit + s.lost];
    FlattenSnoc(c.trace.attempts, lost);
    NoParts(c);
    NoParts(d);
    if s.lost > 0 {
      assert h.bytesWrit == 0;
    } else {
      assert lost == [];
      PrefixGrows(Flatten(c.trace.attempts), h.buf, h.bytesWrit, s.state.bytesWrit);
    }
  }

  lemma {:induction false} NoParts(c: Client)
    requires Runnable(c) && c.trace.retired == [] && c.writ == 0
    ensures Before(c) + Encode(c.msg)[..c.writ] == Flatten(c.trace.attempts) + c.handshaker.buf[..c.handshaker.bytesWrit]
  {
  }

  lemma {:induction false} ShakenExact(cfg: Config, c: Client)
    requires Runnable(c) && WireExact(c) && c.isHandshaking && Ordered(cfg, c)
    ensures var d := Shaken(c, cfg.accept).0;
            WireExact(d) && Given(d) == Given(c) && d.isHandshaking
  {
    var d := Shaken(c, cfg.accept).0;
    ShakenSame(cfg, c);
    NoParts(c);
    NoParts(d);
    if c.handshaker.buf == [] {
      NoAttempts(c);
    }
  }

  lemma {:induction false} NoAttempts(c: Client)
    requires c.handshaker.buf == [] && forall i | 0 <= i < |c.trace.attempts| :: Partial(c.trace.attempts[i], c.handshaker.buf)
    ensures forall i | 0 <= i < |c.trace.attempts| :: c.trace.attempts[i] == []
  {
  }

  lemma {:induction false} FinishedExact(c: Client)
    requires Runnable(c) && WireExact(c) && c.handshaker.buf != []
    ensures var d := c.(isHandshaking := false);
            WireExact(d) && Given(d) == Given(c)
  {
    assert Before(c.(isHandshaking := false)) == Before(c);
  }

  lemma {:induction false} HandshakeExactTurn(cfg: Config, c: Client, script: seq<WriteOutcome>)
    requires Runnable(c) && WireExact(c) && c.isHandshaking && Ordered(cfg, c) && Conserved(c)
    ensures var (d, reply) := Shaken(c, cfg.accept);
            var r := HandshakeStage(cfg, c, script);
            var (e, script', o) := Answered(d, script);
            if reply.Progress? && reply.status.Responding? && o.Done?
            then WireExact(e) && Given(e) == Given(c) && r == HandshakeStage(cfg, e, script')
            else WireExact(r.c) && Given(r.c) == Given(c)
  {
    ShakenExact(cfg, c);
    ShakenKeeps(cfg, c);
    var (d, reply) := Shaken(c, cfg.accept);
    if reply.Progress? && reply.status.Responding? {
      AnsweredExact(d, script);
    } else if reply.Progress? && reply.status.Finished? {
      FinishedExact(d);
    }
  }

  lemma {:induction false} HandshakeExact(cfg: Config, c: Client, script: seq<WriteOutcome>)
    requires Runnable(c) && WireExact(c) && c.isHandshaking && !c.tlsHandshaking && Ordered(cfg, c) && Conserved(c)
    ensures var r := HandshakeStage(cfg, c, script);
            WireExact(r.c) && Given(r.c) == Given(c)
    decreases Ahead(c.handshaker)
  {
    HandshakeExactTurn(cfg, c, script);
    HandshakeTurn(cfg, c, script);
    var (d, reply) := Shaken(c, cfg.accept);
    var (e, script', r) := Answered(d, script);
    if reply.Progress? && reply.status.Responding? && r.Done? {
      HandshakeExact(cfg, e, script');
    }
  }

  lemma {:induction false} WriteExact(c: Client, script: seq<WriteOutcome>)
    requires Runnable(c) && WireExact(c)
    ensures var r := WriteStage(c, script);
            (r.Go? || r.Drop?) && WireExact(r.c) && Given(r.c) == Given(c)
  {
    var (w, f) := FlushOn(Wire(c.sent, script));
    if Tolerated(f) && !c.isHandshaking {
      SendMessagesExact(c, w.script);
    }
  }

  lemma {:induction false} ReadExact(cfg: Config, c: Client, io: Io, script: seq<WriteOutcome>)
    requires Runnable(c) && WireExact(c)
    ensures var r := ReadStage(cfg, c, io, script);
            !r.Crash? ==> WireExact(r.c) && Given(r.c) == Given(c)
  {
  }

  lemma {:induction false} ParseExact(c: Client, script: seq<WriteOutcome>)
    requires Runnable(c) && WireExact(c)
    ensures var r := ParseStage(c, script);
            !r.Crash? ==> WireExact(r.c) && Given(r.c) == Given(c)
  {
    var r := ParseStage(c, script);
    if r.Deliver? {
      DeliverShape(c, script);
      SameWire(c, r.c);
    } else if !r.Crash? {
      OtherShape(c, script);
      SameWire(c, r.c);
    }
  }

  lemma {:induction false} SameWire(c: Client, d: Client)
    requires Runnable(c) && WireExact(c) && Runnable(d)
    requires d.sent == c.sent && d.msg == c.msg && d.writ == c.writ && d.handshaker == c.handshaker
    requires d.isHandshaking == c.isHandshaking
    requires d.trace.retired == c.trace.retired && d.trace.attempts == c.trace.attempts
    ensures WireExact(d) && Given(d) == Given(c)
  {
  }

  // No event breaks it, however it ends.
  lemma {:induction false} HandleExact(cfg: Config, c: Client, io: Io)
    requires Runnable(c) && WireExact(c) && Ordered(cfg, c) && Conserved(c)
    ensures var r := Handle(cfg, c, io);
            !r.Crash? ==> WireExact(r.c) && Given(r.c) == Given(c)
  {
    if !c.tlsHandshaking {
      WriteKeeps(cfg, c, io.script);
      WriteExact(c, io.script);
      var w := if io.writable then WriteStage(c, io.script) else Go(c, io.script);
      if w.Go? {
        ReadOnExact(cfg, w.c, io, w.script);
      }
    }
  }

  lemma {:induction false} ReadOnExact(cfg: Config, c: Client, io: Io, script: seq<WriteOutcome>)
    requires Runnable(c) && WireExact(c) && Ordered(cfg, c) && Conserved(c) && !c.tlsHandshaking
    ensures var r := if io.readable then ReadStage(cfg, c, io, script) else Go(c, script);
            var t := if !r.Go? then r
                     else if r.c.isHandshaking then HandshakeStage(cfg, r.c, r.script)
                     else if io.readable then ParseStage(r.c, r.script)
                     else Stay(r.c);
            !t.Crash? ==> WireExact(t.c) && Given(t.c) == Given(c)
  {
    ReadExact(cfg, c, io, script);
    ReadKeeps(cfg, c, io, script);
    var r := if io.readable then ReadStage(cfg, c, io, script) else Go(c, script);
    if r.Go? {
      LastExact(cfg, r.c, io, r.script);
    }
  }

  lemma {:induction false} LastExact(cfg: Config, c: Client, io: Io, script: seq<WriteOutcome>)
    requires Runnable(c) && WireExact(c) && Ordered(cfg, c) && Conserved(c) && !c.tlsHandshaking
    ensures var r := if c.isHandshaking then HandshakeStage(cfg, c, script)
                     else if io.readable then ParseStage(c, script) else Stay(c);
            !r.Crash? ==> WireExact(r.c) && Given(r.c) == Given(c)
  {
    if c.isHandshaking {
      HandshakeExact(cfg, c, script);
    } else if io.readable {
      ParseExact(c, script);
    }
  }
}
