// What every event keeps true of a connection.
module ServerClients {
  import opened Bytes
  import opened WsFrame
  import opened WsParsing
  import opened Messaging
  import opened Output
  import opened InputBuffer
  import opened Handshaking
  import opened ServerSteps
  import HttpRequests
  import HttpIncremental

  // ---------------------------------------------------------------- order of events

  // The request in opening asked for this response.
  predicate Upgraded(cfg: Config, opening: seq<byte>, response: seq<byte>) {
    var r := HttpRequests.Deserialize(opening);
    && r.Ok? && r.value.1 == [] && WS_KEY in r.value.0.headers
    && response == Upgrade(r.value.0.headers[WS_KEY], cfg.accept)
  }

  // The delivered messages are what their bytes say.
  predicate Genuine(xs: seq<Inbound>) {
    forall i | 0 <= i < |xs| ::
      ParseMessage(None, xs[i].bytes).outcome == Parsed(xs[i].msg, []) && Sound(Some(xs[i].msg))
  }

  // No message before the handshake is over, and no end of the handshake before the whole
  // response is written.
  predicate Ordered(cfg: Config, c: Client) {
    && Sound(c.parser.incoming)
    && Genuine(c.trace.inbound)
    && (c.sentMessage <==> c.trace.inbound != [])
    && (c.isHandshaking ==> c.trace.inbound == [] && c.parser.incoming == None)
    && (!c.isHandshaking ==> c.handshaker.buf != [] && c.handshaker.bytesWrit == |c.handshaker.buf|)
    && (c.tlsHandshaking ==> c.isHandshaking)
    && (c.handshaker.bytesWrit == 0 || c.handshaker.bytesWrit == |c.handshaker.buf|)
    && (if c.handshaker.buf == [] then c.trace.opening == []
        else Upgraded(cfg, c.trace.opening, c.handshaker.buf))
  }

  // ---------------------------------------------------------------- received bytes

  function Pieces(xs: seq<Inbound>): (r: seq<seq<byte>>)
    ensures |r| == |xs|
  {
    seq(|xs|, i requires 0 <= i < |xs| => xs[i].bytes)
  }

  function Messages(xs: seq<Inbound>): (r: seq<Message>)
    ensures |r| == |xs|
  {
    seq(|xs|, i requires 0 <= i < |xs| => xs[i].msg)
  }

  // The buffer starts with a complete opening frame of a fragmented message.
  predicate Opened(data: seq<byte>) {
    var r := ReadFrame(data);
    r.Ok? && !r.value.0.fin && (r.value.0.opcode == Text || r.value.0.opcode == Binary)
  }

  // Every received byte went to the handshake, to a delivered message, or is in the buffer.
  predicate Conserved(c: Client) {
    && c.received == c.trace.opening + Flatten(Pieces(c.trace.inbound)) + c.buf.data
    && (c.parser.incoming.Some? ==> Opened(c.buf.data))
  }

  // ---------------------------------------------------------------- reading

  // The fields that Ordered speaks of are the same.
  predicate SameOrder(c: Client, d: Client) {
    && d.parser == c.parser && d.trace.inbound == c.trace.inbound && d.trace.opening == c.trace.opening
    && d.sentMessage == c.sentMessage && d.isHandshaking == c.isHandshaking
    && d.tlsHandshaking == c.tlsHandshaking && d.handshaker == c.handshaker
  }

  lemma {:induction false} ReadAppends(cfg: Config, c: Client, io: Io, script: seq<WriteOutcome>)
    requires Runnable(c)
    ensures var r := ReadStage(cfg, c, io, script);
            && !r.Stay? && !r.TlsDrop? && !r.Deliver?
            && (!r.Crash? ==> SameOrder(c, r.c) && r.c.trace == c.trace)
            && (r.Go? ==> r.c.received == c.received + Taken(io.chunks) && r.c.buf.data == c.buf.data + Taken(io.chunks))
  {
    if ReadStage(cfg, c, io, script).Go? {
      FilledAppends(cfg.form, c.buf, io.chunks);
    }
  }

  lemma {:induction false} AppendKeeps(c: Client, d: Client, more: seq<byte>)
    requires Conserved(c) && d.trace == c.trace && d.parser == c.parser
    requires d.received == c.received + more && d.buf.data == c.buf.data + more
    ensures Conserved(d)
  {
    var before := c.trace.opening + Flatten(Pieces(c.trace.inbound));
    assert before + c.buf.data + more == before + (c.buf.data + more);
    if c.parser.incoming.Some? {
      ReadFrameStable(c.buf.data, more);
    }
  }

  lemma {:induction false} ReadKeeps(cfg: Config, c: Client, io: Io, script: seq<WriteOutcome>)
    requires Runnable(c) && Ordered(cfg, c) && Conserved(c)
    ensures var r := ReadStage(cfg, c, io, script);
            && !r.Stay? && !r.TlsDrop? && !r.Deliver?
            && (!r.Crash? ==> Ordered(cfg, r.c) && SameOrder(c, r.c))
            && (r.Go? ==> Conserved(r.c))
  {
    ReadAppends(cfg, c, io, script);
    var r := ReadStage(cfg, c, io, script);
    if r.Go? {
      AppendKeeps(c, r.c, Taken(io.chunks));
    }
  }

  // ---------------------------------------------------------------- parsing

  // With a message held over a buffer that still starts with its first frame, the parser
  // can only report CUTTING_IN.
  lemma {:induction false} HeldCutsIn(p: ParserState, data: seq<byte>)
    requires p.skip == 0 && p.incoming.Some? && Opened(data)
    ensures ParseReply(p, data).1 == Error(CUTTING_IN)
  {
    assert data[0..] == data;
  }

  lemma {:induction false} WaitingOpens(data: seq<byte>)
    requires ParseMessage(None, data).outcome == Failed(WOULD_BLOCK) && ParseMessage(None, data).incoming.Some?
    ensures Opened(data)
  {
  }

  // Parsing from a fresh parser: the message depends only on the bytes it took.
  lemma {:induction false} FreshParse(data: seq<byte>)
    ensures var (q, reply) := ParseReply(ParserState(None, 0), data);
            && Sound(q.incoming)
            && (reply.Waiting? && q.incoming.Some? ==> Opened(data))
            && (reply.Message? ==> TookExactly(data, reply.msg, reply.rest))
  {
    assert data[0..] == data;
    TextStaysValid(None, data);
    var r := ParseMessage(None, data);
    if r.outcome == Failed(WOULD_BLOCK) && r.incoming.Some? {
      WaitingOpens(data);
    }
    if r.outcome.Parsed? {
      ParsedIsSuffix(None, data);
      var n := |data| - |r.outcome.rest|;
      assert data == data[..n] + r.outcome.rest && [] + r.outcome.rest == r.outcome.rest;
      ParseMessageShrinks(None, data[..n], [], r.outcome.rest, r.outcome.msg);
    }
  }

  predicate TookExactly(data: seq<byte>, m: Message, rest: seq<byte>) {
    && |rest| <= |data|
    && var bytes := data[..|data| - |rest|];
       data == bytes + rest && Sound(Some(m)) && ParseMessage(None, bytes).outcome == Parsed(m, [])
  }

  lemma {:induction false} PiecesSnoc(xs: seq<Inbound>, x: Inbound)
    ensures Flatten(Pieces(xs + [x])) == Flatten(Pieces(xs)) + x.bytes
  {
    assert Pieces(xs + [x]) == Pieces(xs) + [x.bytes];
    FlattenSnoc(Pieces(xs), x.bytes);
  }

  // Moving bytes from the buffer to the delivered messages.
  lemma {:induction false} MovesBytes(c: Client, x: Inbound, rest: seq<byte>)
    requires Conserved(c) && c.buf.data == x.bytes + rest
    ensures c.received == c.trace.opening + Flatten(Pieces(c.trace.inbound + [x])) + rest
  {
    var a, b := c.trace.opening, Flatten(Pieces(c.trace.inbound));
    PiecesSnoc(c.trace.inbound, x);
    assert a + b + (x.bytes + rest) == a + (b + x.bytes) + rest;
  }

  function Delivered(c: Client, x: Inbound, buf: BufferState): Client {
    c.(parser := ParserState(None, 0), sentMessage := true, buf := buf,
       trace := c.trace.(inbound := c.trace.inbound + [x]))
  }

  // Delivering a message that took exactly its bytes.
  lemma {:induction false} DeliverKeeps(cfg: Config, c: Client, x: Inbound, buf: BufferState)
    requires Ordered(cfg, c) && Conserved(c) && !c.isHandshaking
    requires c.buf.data == x.bytes + buf.data
    requires ParseMessage(None, x.bytes).outcome == Parsed(x.msg, []) && Sound(Some(x.msg))
    ensures Ordered(cfg, Delivered(c, x, buf)) && Conserved(Delivered(c, x, buf))
    ensures Messages(c.trace.inbound + [x]) == Messages(c.trace.inbound) + [x.msg]
  {
    MovesBytes(c, x, buf.data);
    assert Genuine(c.trace.inbound + [x]);
  }

  lemma {:induction false} DeliverShape(c: Client, script: seq<WriteOutcome>)
    requires Runnable(c) && ParseStage(c, script).Deliver?
    ensures var r := ParseStage(c, script);
            var reply := ParseReply(c.parser, c.buf.data).1;
            && reply.Message? && r.msg == reply.msg && |reply.rest| <= |c.buf.data|
            && r.c == Delivered(c, Inbound(c.buf.data[..|c.buf.data| - |reply.rest|], reply.msg), r.c.buf)
            && r.c.buf.data == reply.rest
  {
    var data := c.buf.data;
    assert data[..c.buf.read] == data;
    var (p, reply) := ParseReply(c.parser, data);
    ReplySplits(c.parser, data);
    DeliverIs(c, script, data, p, reply);
  }

  // The stage, from what the parser replied.
  lemma {:induction false} DeliverIs(c: Client, script: seq<WriteOutcome>, data: seq<byte>, p: ParserState, reply: Reply)
    requires Runnable(c) && data == c.buf.data && p.skip == 0
    requires reply.Message? ==> p.incoming == None && |reply.rest| <= |data| && reply.rest == data[|data| - |reply.rest|..]
    requires AfterParse(c, script, data, p, reply).Deliver?
    ensures var r := AfterParse(c, script, data, p, reply);
            && reply.Message? && r.msg == reply.msg && r.c.buf.data == reply.rest
            && r.c == Delivered(c, Inbound(data[..|data| - |reply.rest|], reply.msg), r.c.buf)
  {
  }

  lemma {:induction false} OtherShape(c: Client, script: seq<WriteOutcome>)
    requires Runnable(c) && !ParseStage(c, script).Deliver?
    ensures var r := ParseStage(c, script);
            var (q, reply) := ParseReply(c.parser, c.buf.data);
            && !r.TlsDrop?
            && (!r.Crash? ==> r.c == c || (r.c == c.(parser := q) && !reply.Message? && (r.Go? ==> reply.Waiting?) && !r.Stay?))
  {
    assert c.buf.data[..c.buf.read] == c.buf.data;
  }

  lemma {:induction false} DeliverStageKeeps(cfg: Config, c: Client, script: seq<WriteOutcome>)
    requires Runnable(c) && Ordered(cfg, c) && Conserved(c) && !c.isHandshaking
    requires ParseStage(c, script).Deliver?
    ensures var r := ParseStage(c, script);
            && Ordered(cfg, r.c) && Conserved(r.c) && !r.c.isHandshaking
            && Messages(r.c.trace.inbound) == Messages(c.trace.inbound) + [r.msg]
  {
    DeliverShape(c, script);
    var r := ParseStage(c, script);
    var reply := ParseReply(c.parser, c.buf.data).1;
    DeliveredFresh(c);
    var x := Inbound(c.buf.data[..|c.buf.data| - |reply.rest|], reply.msg);
    DeliverKeeps(cfg, c, x, r.c.buf);
  }

  lemma {:induction false} DeliveredFresh(c: Client)
    requires Runnable(c) && Conserved(c) && ParseReply(c.parser, c.buf.data).1.Message?
    ensures var reply := ParseReply(c.parser, c.buf.data).1; TookExactly(c.buf.data, reply.msg, reply.rest)
  {
    if c.parser.incoming.Some? {
      HeldCutsIn(c.parser, c.buf.data);
    }
    FreshParse(c.buf.data);
  }

  lemma {:induction false} OtherStageKeeps(cfg: Config, c: Client, script: seq<WriteOutcome>)
    requires Runnable(c) && Ordered(cfg, c) && Conserved(c) && !c.isHandshaking
    requires !ParseStage(c, script).Deliver? && !ParseStage(c, script).Crash?
    ensures var r := ParseStage(c, script);
            && !r.TlsDrop? && Ordered(cfg, r.c) && !r.c.isHandshaking
            && (r.Go? || r.Stay? ==> Conserved(r.c))
            && r.c.trace == c.trace
  {
    OtherShape(c, script);
    StillSound(c.parser, c.buf.data);
    if c.parser.incoming.Some? {
      HeldCutsIn(c.parser, c.buf.data);
    } else {
      FreshParse(c.buf.data);
    }
  }

  lemma {:induction false} StillSound(p: ParserState, data: seq<byte>)
    requires p.skip == 0 && Sound(p.incoming)
    ensures Sound(ParseReply(p, data).0.incoming)
  {
    assert data[0..] == data;
    TextStaysValid(p.incoming, data);
  }

  // ---------------------------------------------------------------- the handshake

  // Bytes only move from the front of the buffer to the opening.
  lemma {:induction false} ShakenShape(cfg: Config, c: Client)
    requires Runnable(c)
    ensures var d := Shaken(c, cfg.accept).0;
            && |d.buf.data| <= |c.buf.data| && d.received == c.received
            && var n := |c.buf.data| - |d.buf.data|;
               d.trace.opening == c.trace.opening + c.buf.data[..n] && d.buf.data == c.buf.data[n..]
  {
    var data := c.buf.data;
    assert data[..c.buf.read] == data;
    var reply := HandshakeStep(c.handshaker, data, cfg.accept).1;
    if reply.Progress? {
      RestIsShorter(c.handshaker, data, cfg.accept);
    } else {
      assert c.trace.opening + data[..0] == c.trace.opening;
    }
  }

  lemma {:induction false} ShakenMoves(cfg: Config, c: Client)
    requires Runnable(c) && Conserved(c) && c.trace.inbound == [] && c.parser.incoming == None
    ensures Conserved(Shaken(c, cfg.accept).0)
  {
    ShakenShape(cfg, c);
    ShakenSame(cfg, c);
    var d := Shaken(c, cfg.accept).0;
    NoPieces(c.trace.opening, c.buf.data, |c.buf.data| - |d.buf.data|);
  }

  lemma {:induction false} NoPieces(opening: seq<byte>, data: seq<byte>, n: nat)
    requires n <= |data|
    ensures Flatten(Pieces([])) == []
    ensures opening + [] + data == (opening + data[..n]) + [] + data[n..]
  {
  }

  lemma {:induction false} ShakenSame(cfg: Config, c: Client)
    requires Runnable(c)
    ensures var d := Shaken(c, cfg.accept).0;
            && d.isHandshaking == c.isHandshaking && d.tlsHandshaking == c.tlsHandshaking
            && d.sentMessage == c.sentMessage && d.parser == c.parser && d.trace.inbound == c.trace.inbound
            && d.handshaker.bytesWrit == c.handshaker.bytesWrit
            && (c.handshaker.buf != [] ==> d.handshaker == c.handshaker)
            && d.sent == c.sent && d.msg == c.msg && d.writ == c.writ
            && d.trace.retired == c.trace.retired && d.trace.attempts == c.trace.attempts
  {
  }

  // The bytes a handshake call consumed are one whole request, and it is answered.
  lemma {:induction false} ShakenKeeps(cfg: Config, c: Client)
    requires Runnable(c) && Ordered(cfg, c) && Conserved(c) && c.isHandshaking
    ensures var (d, reply) := Shaken(c, cfg.accept);
            && Ordered(cfg, d) && Conserved(d) && d.isHandshaking && d.tlsHandshaking == c.tlsHandshaking
            && (reply.Progress? && reply.status.Finished? ==> d.handshaker.bytesWrit == |d.handshaker.buf| && d.handshaker.buf != [])
  {
    ShakenMoves(cfg, c);
    ShakenSame(cfg, c);
    OpeningAnswered(cfg, c);
  }

  lemma {:induction false} OpeningAnswered(cfg: Config, c: Client)
    requires Runnable(c) && Ordered(cfg, c)
    ensures var (d, reply) := Shaken(c, cfg.accept);
            if d.handshaker.buf == [] then d.trace.opening == []
            else Upgraded(cfg, d.trace.opening, d.handshaker.buf)
  {
    var data := c.buf.data;
    assert data[..c.buf.read] == data;
    var (h, reply) := HandshakeStep(c.handshaker, data, cfg.accept);
    if reply.Progress? {
      if c.handshaker.buf == [] && reply.status.Responding? {
        HttpIncremental.DeserializeShrinks(data);
        assert [] + data[..|data| - |reply.rest|] == data[..|data| - |reply.rest|];
      } else {
        assert data[..0] == [];
        assert c.trace.opening + [] == c.trace.opening;
      }
    }
  }

  lemma {:induction false} AnsweredKeeps(cfg: Config, c: Client, script: seq<WriteOutcome>)
    requires Runnable(c) && Ordered(cfg, c) && Conserved(c) && c.isHandshaking
    ensures var d := Answered(c, script).0;
            Ordered(cfg, d) && Conserved(d) && d.isHandshaking && d.tlsHandshaking == c.tlsHandshaking
  {
  }

  lemma {:induction false} FinishedKeepsOrder(cfg: Config, c: Client)
    requires Ordered(cfg, c) && c.isHandshaking && !c.tlsHandshaking
    requires c.handshaker.bytesWrit == |c.handshaker.buf| && c.handshaker.buf != []
    ensures Ordered(cfg, c.(isHandshaking := false))
  {
  }

  lemma {:induction false} FinishedKeeps(cfg: Config, c: Client)
    requires Conserved(c)
    ensures Conserved(c.(isHandshaking := false))
  {
  }

  // One turn of the handshake loop: the stage it ends with, or the client of the next turn.
  lemma {:induction false} HandshakeTurn(cfg: Config, c: Client, script: seq<WriteOutcome>)
    requires Runnable(c) && Ordered(cfg, c) && Conserved(c) && c.isHandshaking && !c.tlsHandshaking
    ensures var (d, reply) := Shaken(c, cfg.accept);
            var r := HandshakeStage(cfg, c, script);
            var (e, script', o) := Answered(d, script);
            if reply.Progress? && reply.status.Responding? && o.Done?
            then Ordered(cfg, e) && Conserved(e) && e.isHandshaking && !e.tlsHandshaking && r == HandshakeStage(cfg, e, script')
            else Ordered(cfg, r.c) && Conserved(r.c)
  {
    ShakenKeeps(cfg, c);
    var (d, reply) := Shaken(c, cfg.accept);
    HandshakeUnrolls(cfg, c, script, d, reply);
    if reply.Progress? && reply.status.Responding? {
      AnswerKeeps(cfg, d, script);
    } else if reply.Progress? && reply.status.Finished? {
      FinishedKeepsOrder(cfg, d);
      FinishedKeeps(cfg, d);
    }
  }

  lemma {:induction false} AnswerKeeps(cfg: Config, d: Client, script: seq<WriteOutcome>)
    requires Runnable(d) && Ordered(cfg, d) && Conserved(d) && d.isHandshaking && !d.tlsHandshaking && d.handshaker.buf != []
    ensures var a := Answered(d, script);
            && Ordered(cfg, a.0) && Conserved(a.0) && a.0.isHandshaking && !a.0.tlsHandshaking
            && (!a.2.Done? ==> AfterAnswer(cfg, a).c == a.0)
            && (a.2.Done? ==> AfterAnswer(cfg, a) == HandshakeStage(cfg, a.0, a.1))
  {
    AnsweredKeeps(cfg, d, script);
  }

  lemma {:induction false} HandshakeKeeps(cfg: Config, c: Client, script: seq<WriteOutcome>)
    requires Runnable(c) && Ordered(cfg, c) && Conserved(c) && c.isHandshaking && !c.tlsHandshaking
    ensures var r := HandshakeStage(cfg, c, script);
            Ordered(cfg, r.c) && Conserved(r.c) && r.c.trace.inbound == []
    decreases Ahead(c.handshaker)
  {
    HandshakeTurn(cfg, c, script);
    HandshakeInbound(cfg, c, script);
    var (d, reply) := Shaken(c, cfg.accept);
    var (e, script', r) := Answered(d, script);
    if reply.Progress? && reply.status.Responding? && r.Done? {
      HandshakeKeeps(cfg, e, script');
    }
  }

  lemma {:induction false} AheadFalls(cfg: Config, c: Client, script: seq<WriteOutcome>)
    requires Runnable(c)
    requires Again(cfg, c, script)
    ensures Ahead(Answered(Shaken(c, cfg.accept).0, script).0.handshaker) < Ahead(c.handshaker)
  {
  }

  // The handshake goes on after this turn.
  predicate Again(cfg: Config, c: Client, script: seq<WriteOutcome>)
    requires Runnable(c)
  {
    var (d, reply) := Shaken(c, cfg.accept);
    reply.Progress? && reply.status.Responding? && Answered(d, script).2.Done?
  }

  lemma {:induction false} HandshakeInbound(cfg: Config, c: Client, script: seq<WriteOutcome>)
    requires Runnable(c)
    ensures HandshakeStage(cfg, c, script).c.trace.inbound == c.trace.inbound
    decreases Ahead(c.handshaker)
  {
    if Again(cfg, c, script) {
      var a := Answered(Shaken(c, cfg.accept).0, script);
      AheadFalls(cfg, c, script);
      HandshakeInbound(cfg, a.0, a.1);
    }
    TurnInbound(cfg, c, script);
  }

  lemma {:induction false} TurnInbound(cfg: Config, c: Client, script: seq<WriteOutcome>)
    requires Runnable(c)
    requires Again(cfg, c, script) ==>
               var a := Answered(Shaken(c, cfg.accept).0, script);
               HandshakeStage(cfg, a.0, a.1).c.trace.inbound == a.0.trace.inbound
    ensures HandshakeStage(cfg, c, script).c.trace.inbound == c.trace.inbound
  {
    ShakenInbound(cfg, c);
  }

  lemma {:induction false} ShakenInbound(cfg: Config, c: Client)
    requires Runnable(c)
    ensures Shaken(c, cfg.accept).0.trace.inbound == c.trace.inbound
    ensures Shaken(c, cfg.accept).1.Refused? ==> Shaken(c, cfg.accept).0 == c
  {
  }

  // ---------------------------------------------------------------- one poll event

  lemma {:induction false} WriteKeeps(cfg: Config, c: Client, script: seq<WriteOutcome>)
    requires Runnable(c) && Ordered(cfg, c) && Conserved(c)
    ensures var r := WriteStage(c, script);
            && (r.Go? || r.Drop?) && Ordered(cfg, r.c) && Conserved(r.c) && SameOrder(c, r.c)
  {
  }

  // What a stage leaves: a client in order, whose bytes are conserved while it lives.
  predicate Kept(cfg: Config, c: Client, r: Stage) {
    && (!r.Crash? ==> Ordered(cfg, r.c))
    && (r.Go? || r.Stay? || r.Deliver? ==> Conserved(r.c))
    && (r.Deliver? ==> Messages(r.c.trace.inbound) == Messages(c.trace.inbound) + [r.msg])
    && (!r.Crash? && !r.Deliver? ==> r.c.trace.inbound == c.trace.inbound)
    && (r.TlsDrop? ==> !r.c.sentMessage)
  }

  lemma {:induction false} HandleKeeps(cfg: Config, c: Client, io: Io)
    requires Runnable(c) && Ordered(cfg, c) && Conserved(c)
    ensures Kept(cfg, c, Handle(cfg, c, io))
  {
    if !c.tlsHandshaking {
      WriteKeeps(cfg, c, io.script);
      var w := if io.writable then WriteStage(c, io.script) else Go(c, io.script);
      if w.Go? {
        ReadKeeps(cfg, w.c, io, w.script);
        var r := if io.readable then ReadStage(cfg, w.c, io, w.script) else w;
        if r.Go? {
          LastKeeps(cfg, r.c, io, r.script);
        }
      }
    }
  }

  lemma {:induction false} LastKeeps(cfg: Config, c: Client, io: Io, script: seq<WriteOutcome>)
    requires Runnable(c) && Ordered(cfg, c) && Conserved(c) && !c.tlsHandshaking
    ensures Kept(cfg, c, if c.isHandshaking then HandshakeStage(cfg, c, script)
                         else if io.readable then ParseStage(c, script) else Stay(c))
  {
    if c.isHandshaking {
      HandshakeKeeps(cfg, c, script);
    } else if io.readable {
      var r := ParseStage(c, script);
      if r.Deliver? {
        DeliverStageKeeps(cfg, c, script);
      } else if !r.Crash? {
        OtherStageKeeps(cfg, c, script);
      }
    }
  }

  // ---------------------------------------------------------------- sending

  lemma {:induction false} SendKeeps(cfg: Config, c: Client, msg: Message, script: seq<WriteOutcome>)
    requires Runnable(c) && Ordered(cfg, c) && Conserved(c) && Sized(msg)
    ensures var d := SendStage(c, msg, script).c;
            Ordered(cfg, d) && Conserved(d) && SameOrder(c, d)
  {
  }
}
