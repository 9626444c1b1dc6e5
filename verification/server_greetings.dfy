// The upgrade handshake of one connection, exactly: when it waits, when it refuses, when
// answering costs the connection, and what it leaves behind.
module ServerGreetings {
  import opened Bytes
  import opened Output
  import opened Endings
  import opened InputBuffer
  import opened Handshaking
  import opened ServerSteps
  import HttpRequests

  // ---------------------------------------------------------------- answering

  function ToAnswer(h: HandshakerState): nat
    requires h.bytesWrit <= |h.buf|
  {
    |h.buf| - h.bytesWrit
  }

  lemma {:induction false} AnsweredEnds(d: Client, script: seq<WriteOutcome>)
    requires Runnable(d)
    ensures var (e, _, r) := Answered(d, script);
            var n := ToAnswer(d.handshaker);
            && (r.Broken? || r.Interrupted? <==> AnswerFails(n, script))
            && (r.WouldBlock? <==> AnswerBlocks(n, script))
            && e.handshaker.bytesWrit == (if TakesWhole(n, script) then |d.handshaker.buf| else d.handshaker.bytesWrit)
            && (TakesWhole(n, script) ==> e.sent == d.sent + d.handshaker.buf[d.handshaker.bytesWrit..])
            && e == d.(sent := e.sent, handshaker := e.handshaker, trace := d.trace.(attempts := e.trace.attempts))
  {
    var h := d.handshaker;
    var slice := h.buf[h.bytesWrit..];
    var w := Wire(d.sent, script);
    CopyEnds(slice, w);
    CopyEmits(slice, w);
    assert slice[..|slice|] == slice;
  }

  // With the response counted the handshake ends, whatever the stream does.
  lemma {:induction false} CountedFinishes(cfg: Config, c: Client, script: seq<WriteOutcome>)
    requires Runnable(c) && c.handshaker.buf != [] && c.handshaker.bytesWrit == |c.handshaker.buf|
    ensures var r := HandshakeStage(cfg, c, script);
            r == Stay(c.(buf := Consumed(c.buf, 0), isHandshaking := false))
  {
    var (d, reply) := Shaken(c, cfg.accept);
    HandshakeUnrolls(cfg, c, script, d, reply);
    assert c.trace.opening + c.buf.data[..0] == c.trace.opening;
  }

  // What becomes of a client whose response is being sent.
  predicate Answers(d: Client, script: seq<WriteOutcome>, r: Stage)
    requires Runnable(d)
  {
    var n := ToAnswer(d.handshaker);
    && (r.Drop? <==> AnswerFails(n, script))
    && (r.Stay? <==> !AnswerFails(n, script))
    && (r.Stay? ==>
          && r.c.parser == d.parser && r.c.trace.opening == d.trace.opening && r.c.trace.inbound == d.trace.inbound
          && r.c.handshaker.buf == d.handshaker.buf && r.c.buf.data == d.buf.data && r.c.received == d.received
          && r.c.sentMessage == d.sentMessage && r.c.tlsHandshaking == d.tlsHandshaking
          && (r.c.isHandshaking <==> d.isHandshaking && AnswerBlocks(n, script))
          && (TakesWhole(n, script) ==>
                r.c.sent == d.sent + d.handshaker.buf[d.handshaker.bytesWrit..] && r.c.handshaker.bytesWrit == |d.handshaker.buf|))
  }

  lemma {:induction false} AfterAnswerIs(cfg: Config, d: Client, script: seq<WriteOutcome>)
    requires Runnable(d) && d.handshaker.buf != []
    ensures Answers(d, script, AfterAnswer(cfg, Answered(d, script)))
  {
    AnsweredEnds(d, script);
    var a := Answered(d, script);
    if a.2.Done? {
      CountedFinishes(cfg, a.0, a.1);
    }
  }

  // ---------------------------------------------------------------- one handshake stage

  // The client with everything as it was, but its buffer marked as read.
  function Marked(c: Client): Client {
    c.(buf := Consumed(c.buf, 0))
  }

  lemma {:induction false} ConsumesNothing(c: Client, h: HandshakerState, status: HandshakeStatus)
    requires h == c.handshaker
    ensures Greeted(c, h, Progress(status, c.buf.data)) == Marked(c)
  {
    assert c.trace.opening + c.buf.data[..0] == c.trace.opening;
  }

  // The request is not there yet: nothing is consumed and nothing is written.
  lemma {:induction false} StageWaits(cfg: Config, c: Client, script: seq<WriteOutcome>)
    requires Runnable(c) && c.handshaker.buf == []
    requires HttpRequests.Deserialize(c.buf.data) == Err(HttpRequests.Incomplete)
    ensures HandshakeStage(cfg, c, script) == Stay(Marked(c)) && Marked(c).buf.data == c.buf.data
  {
    assert c.buf.data[..c.buf.read] == c.buf.data && c.buf.data[0..] == c.buf.data;
    var reply := Progress(Waiting, c.buf.data);
    ShakenIs(c, cfg.accept, c.handshaker, reply);
    ConsumesNothing(c, c.handshaker, Waiting);
    HandshakeUnrolls(cfg, c, script, Marked(c), reply);
  }

  predicate Refusable(data: seq<byte>) {
    var r := HttpRequests.Deserialize(data);
    if r.Ok? then WS_KEY !in r.value.0.headers else !r.error.Incomplete?
  }

  lemma {:induction false} StageRefuses(cfg: Config, c: Client, script: seq<WriteOutcome>)
    requires Runnable(c) && c.handshaker.buf == [] && Refusable(c.buf.data)
    ensures HandshakeStage(cfg, c, script) == Drop(c)
  {
    assert c.buf.data[..c.buf.read] == c.buf.data;
    ShakenIs(c, cfg.accept, c.handshaker, Refused);
    HandshakeUnrolls(cfg, c, script, c, Refused);
  }

  // The request is there, with the key: it is consumed and answered.
  predicate Asked(cfg: Config, c: Client, d: Client) {
    var r := HttpRequests.Deserialize(c.buf.data);
    && r.Ok? && WS_KEY in r.value.0.headers && |r.value.1| <= |c.buf.data|
    && d == Greeted(c, HandshakerState(Upgrade(r.value.0.headers[WS_KEY], cfg.accept), 0), Progress(Responding, r.value.1))
  }

  lemma {:induction false} StageAnswers(cfg: Config, c: Client, script: seq<WriteOutcome>) returns (d: Client)
    requires Runnable(c) && c.handshaker == HandshakerState([], 0)
    requires HttpRequests.Deserialize(c.buf.data).Ok? && WS_KEY in HttpRequests.Deserialize(c.buf.data).value.0.headers
    ensures Runnable(d) && Asked(cfg, c, d) && Answers(d, script, HandshakeStage(cfg, c, script))
  {
    var (request, rest) := HttpRequests.Deserialize(c.buf.data).value;
    var h := HandshakerState(Upgrade(request.headers[WS_KEY], cfg.accept), 0);
    var reply := Progress(Responding, rest);
    assert c.buf.data[..c.buf.read] == c.buf.data;
    ShakenIs(c, cfg.accept, h, reply);
    d := Greeted(c, h, reply);
    HandshakeUnrolls(cfg, c, script, d, reply);
    AfterAnswerIs(cfg, d, script);
  }

  // The response is there and not yet counted: it is sent from its cursor on.
  lemma {:induction false} StageResponds(cfg: Config, c: Client, script: seq<WriteOutcome>)
    requires Runnable(c) && c.handshaker.bytesWrit < |c.handshaker.buf|
    ensures Answers(Marked(c), script, HandshakeStage(cfg, c, script)) && Marked(c).buf.data == c.buf.data
  {
    assert c.buf.data[..c.buf.read] == c.buf.data && c.buf.data[0..] == c.buf.data;
    var reply := Progress(Responding, c.buf.data);
    ShakenIs(c, cfg.accept, c.handshaker, reply);
    ConsumesNothing(c, c.handshaker, Responding);
    HandshakeUnrolls(cfg, c, script, Marked(c), reply);
    AfterAnswerIs(cfg, Marked(c), script);
  }
}
