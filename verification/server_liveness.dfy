// A client that keeps its part keeps its connection: over whole runs, whatever the others do.
module ServerLiveness {
  import opened Bytes
  import opened Text
  import opened Output
  import opened Endings
  import opened WsParsing
  import opened WsResuming
  import opened Messaging
  import opened InputBuffer
  import opened Handshaking
  import opened ServerSteps
  import opened ServerClients
  import opened ServerStreams
  import opened ServerDeliveries
  import opened ServerLosses
  import opened ServerFates
  import opened ServerGreetings
  import HttpRequests
  import HttpIncremental

  // ---------------------------------------------------------------- the client's part

  // The client sends one request for the upgrade and then unfragmented messages.
  predicate Speech(request: seq<byte>, xs: seq<Single>) {
    Asks(request) && forall x <- xs :: Sendable(x)
  }

  // A client that has sent a part of its speech, and nothing was refused.
  predicate OnCourse(cfg: Config, c: Client, request: seq<byte>, xs: seq<Single>)
    requires Speech(request, xs)
  {
    && Runnable(c) && Ordered(cfg, c) && Conserved(c) && c.parser == ParserState(None, 0)
    && c.received <= request + StreamBytes(xs)
    && (c.handshaker.buf == [] ==> c.sent == [])
  }

  predicate WholeRequest(request: seq<byte>) {
    HttpRequests.Deserialize(request).Ok? && HttpRequests.Deserialize(request).value.1 == []
  }

  // After n bytes the request is whole, or it is not cut just after a CR of its head.
  predicate CutWell(request: seq<byte>, n: nat)
    requires WholeRequest(request)
  {
    n == 0 || n >= |request| - |HttpRequests.Head(request).value.1| || request[n - 1] != CR
  }

  // How much of the response is to be written once the request is there.
  function AnswerToGo(cfg: Config, c: Client, request: seq<byte>): nat
    requires Runnable(c) && Asks(request)
  {
    if c.handshaker.buf == [] then |Answer(cfg, request)| else ToAnswer(c.handshaker)
  }

  // If the request is there by now, and its response not yet counted, sending it does not fail.
  predicate AnswerEases(cfg: Config, c: Client, n: nat, script: seq<WriteOutcome>, request: seq<byte>)
    requires Runnable(c) && Asks(request)
  {
    n >= |request| && AnswerToGo(cfg, c, request) > 0 ==> !AnswerFails(AnswerToGo(cfg, c, request), script)
  }

  // The event does nothing to the client that ends a connection: its stream does not fail, and
  // the bytes it brings go on with the speech and do not stop just after a CR of the head.
  predicate Eases(cfg: Config, c: Client, io: Io, request: seq<byte>, xs: seq<Single>)
    requires Runnable(c) && Speech(request, xs)
  {
    if c.tlsHandshaking then !io.tls.TlsFailed?
    else
      && !(io.writable && WriteFails(c, io.script))
      && !(io.readable && io.readFails)
      && c.received + Brought(io) <= request + StreamBytes(xs)
      && (c.isHandshaking ==>
            var n := |c.received + Brought(io)|;
            CutWell(request, n) && AnswerEases(cfg, c, n, if io.writable then Rest(io.script) else io.script, request))
  }

  // ---------------------------------------------------------------- one stage

  lemma {:induction false} StillWaits(request: seq<byte>, data: seq<byte>)
    requires WholeRequest(request) && |data| < |request| && data == request[..|data|] && CutWell(request, |data|)
    ensures HttpRequests.Deserialize(data) == Err(HttpRequests.Incomplete)
  {
    HttpIncremental.DeserializePrefix(request, |data|);
    assert data != [] ==> data[|data| - 1] == request[|data| - 1];
  }

  // On every proper prefix of any accepted request, not cut just after a CR of its head: the
  // handshaker waits, and the stage consumes nothing, writes nothing and leaves all as it was.
  lemma {:induction false} RequestWaits(cfg: Config, c: Client, script: seq<WriteOutcome>, request: seq<byte>, n: nat)
    requires Runnable(c) && c.handshaker.buf == [] && WholeRequest(request)
    requires n < |request| && c.buf.data == request[..n] && CutWell(request, n)
    ensures HandshakeStep(c.handshaker, c.buf.data, cfg.accept) == (c.handshaker, Progress(HandshakeStatus.Waiting, c.buf.data))
    ensures var r := HandshakeStage(cfg, c, script);
            r == Stay(c.(buf := BufferState(c.buf.data, c.buf.read, c.buf.read)))
  {
    StillWaits(request, c.buf.data);
    StageWaits(cfg, c, script);
    assert c.buf.data[0..] == c.buf.data;
  }

  lemma {:induction false} RequestThere(request: seq<byte>, data: seq<byte>)
    requires Asks(request) && request <= data
    ensures HttpRequests.Deserialize(data) == Ok((HttpRequests.Deserialize(request).value.0, data[|request|..]))
  {
    HttpIncremental.DeserializeStable(request, data[|request|..]);
    assert data == request + data[|request|..] && [] + data[|request|..] == data[|request|..];
  }

  // While the request is awaited all that was received is in the buffer.
  lemma {:induction false} AllBuffered(cfg: Config, c: Client)
    requires Ordered(cfg, c) && Conserved(c) && c.handshaker.buf == []
    ensures c.buf.data == c.received && c.isHandshaking
  {
    assert Flatten(Pieces([])) == [];
    assert c.trace.opening + [] + c.buf.data == c.buf.data;
  }

  lemma {:induction false} PrefixCases(received: seq<byte>, request: seq<byte>, stream: seq<byte>)
    requires received <= request + stream
    ensures if |received| < |request| then received == request[..|received|] else request <= received
  {
    assert (request + stream)[..|request|] == request;
    if |received| < |request| {
      assert received == (request + stream)[..|received|];
    } else {
      assert received[..|request|] == request;
    }
  }

  // The handshake: it waits, or it is answered, and goes on.
  lemma {:induction false} GreetingStays(cfg: Config, c: Client, script: seq<WriteOutcome>, request: seq<byte>, xs: seq<Single>)
    requires Speech(request, xs) && OnCourse(cfg, c, request, xs) && c.isHandshaking && !c.tlsHandshaking
    requires CutWell(request, |c.received|) && AnswerEases(cfg, c, |c.received|, script, request)
    ensures var r := HandshakeStage(cfg, c, script); r.Stay? && OnCourse(cfg, r.c, request, xs)
  {
    HandshakeKeeps(cfg, c, script);
    if c.handshaker.buf == [] {
      AwaitedStays(cfg, c, script, request, xs);
    } else if c.handshaker.bytesWrit < |c.handshaker.buf| {
      RespondingStays(cfg, c, script, request, xs);
    } else {
      CountedFinishes(cfg, c, script);
    }
  }

  lemma {:induction false} AwaitedStays(cfg: Config, c: Client, script: seq<WriteOutcome>, request: seq<byte>, xs: seq<Single>)
    requires Speech(request, xs) && OnCourse(cfg, c, request, xs) && c.isHandshaking && !c.tlsHandshaking
    requires c.handshaker.buf == [] && CutWell(request, |c.received|) && AnswerEases(cfg, c, |c.received|, script, request)
    requires var r := HandshakeStage(cfg, c, script); Runnable(r.c) && Ordered(cfg, r.c) && (r.Stay? ==> Conserved(r.c))
    ensures var r := HandshakeStage(cfg, c, script); r.Stay? && OnCourse(cfg, r.c, request, xs)
  {
    AllBuffered(cfg, c);
    PrefixCases(c.received, request, StreamBytes(xs));
    if |c.received| < |request| {
      StillWaits(request, c.received);
      StageWaits(cfg, c, script);
    } else {
      RequestThere(request, c.received);
      var d := StageAnswers(cfg, c, script);
    }
  }

  lemma {:induction false} RequestGone(cfg: Config, c: Client, request: seq<byte>, xs: seq<Single>)
    requires Speech(request, xs) && OnCourse(cfg, c, request, xs) && c.handshaker.buf != []
    ensures c.trace.opening == request && c.handshaker.buf == Answer(cfg, request) && |c.received| >= |request|
  {
    OpeningIsPrefix(c);
    SameRequest(c.trace.opening, request, request + StreamBytes(xs));
  }

  lemma {:induction false} RespondingStays(cfg: Config, c: Client, script: seq<WriteOutcome>, request: seq<byte>, xs: seq<Single>)
    requires Speech(request, xs) && OnCourse(cfg, c, request, xs) && c.isHandshaking && !c.tlsHandshaking
    requires c.handshaker.bytesWrit < |c.handshaker.buf| && AnswerEases(cfg, c, |c.received|, script, request)
    requires var r := HandshakeStage(cfg, c, script); Runnable(r.c) && Ordered(cfg, r.c) && (r.Stay? ==> Conserved(r.c))
    ensures var r := HandshakeStage(cfg, c, script); r.Stay? && OnCourse(cfg, r.c, request, xs)
  {
    RequestGone(cfg, c, request, xs);
    StageResponds(cfg, c, script);
  }

  // The next frame of the speech is whole.
  predicate NextWhole(c: Client, xs: seq<Single>)
    requires forall x <- xs :: Sendable(x)
  {
    var n := |c.trace.inbound|;
    n < |xs| && |c.buf.data| >= |SingleBytes(xs[n])|
  }

  // Parsing: the next message if it is whole and new bytes have come, and otherwise waiting.
  lemma {:induction false} ParsingStays(cfg: Config, c: Client, script: seq<WriteOutcome>, request: seq<byte>, xs: seq<Single>)
    requires Speech(request, xs) && OnCourse(cfg, c, request, xs) && !c.isHandshaking
    ensures var r := ParseStage(c, script);
            && (r.Go? || r.Stay? || r.Deliver?) && OnCourse(cfg, r.c, request, xs)
            && (r.Deliver? <==> c.buf.prevRead < c.buf.read && NextWhole(c, xs))
            && (r.Deliver? ==> r.msg == MessageOf(xs[|c.trace.inbound|]))
  {
    var n := |c.trace.inbound|;
    AfterOpening(cfg, c, request, xs);
    PrefixParses(xs[n..], c.buf.data);
    ParsedStays(c, script, n < |xs| && |c.buf.data| >= |SingleBytes(xs[n])|, if n < |xs| then MessageOf(xs[n]) else DEFAULT_MESSAGE);
    var r := ParseStage(c, script);
    if r.Deliver? {
      DeliverShape(c, script);
      DeliverStageKeeps(cfg, c, script);
    } else {
      OtherStageKeeps(cfg, c, script);
    }
  }

  lemma {:induction false} ParsedStays(c: Client, script: seq<WriteOutcome>, whole: bool, msg: Message)
    requires Runnable(c) && c.parser == ParserState(None, 0)
    requires var r := ParseMessage(None, c.buf.data);
             if whole then r.outcome.Parsed? && r.outcome.msg == msg else r.outcome == Failed(WsFrame.WOULD_BLOCK) && r.incoming == None
    ensures var r := ParseStage(c, script);
            && (r.Go? || r.Stay? || r.Deliver?) && r.c.parser == c.parser && r.c.received == c.received
            && r.c.sent == c.sent && r.c.handshaker == c.handshaker
            && (r.Deliver? <==> c.buf.prevRead < c.buf.read && whole) && (r.Deliver? ==> r.msg == msg)
  {
    assert c.buf.data[..c.buf.read] == c.buf.data && c.buf.data[0..] == c.buf.data;
  }

  // ---------------------------------------------------------------- one event

  lemma {:induction false} WritingStays(cfg: Config, c: Client, script: seq<WriteOutcome>, request: seq<byte>, xs: seq<Single>)
    requires Speech(request, xs) && OnCourse(cfg, c, request, xs) && !WriteFails(c, script)
    ensures var r := WriteStage(c, script);
            && r.Go? && OnCourse(cfg, r.c, request, xs) && SameOrder(c, r.c) && r.c.buf == c.buf && r.c.received == c.received
            && (c.isHandshaking ==> r.script == Rest(script) && r.c.handshaker == c.handshaker)
  {
    WriteDrops(c, script);
    WriteKeeps(cfg, c, script);
    WritingScript(c, script);
  }

  lemma {:induction false} WritingScript(c: Client, script: seq<WriteOutcome>)
    requires Runnable(c)
    ensures var r := WriteStage(c, script); c.isHandshaking && r.Go? ==> r == Go(c, Rest(script))
  {
  }

  lemma {:induction false} ReadingStays(cfg: Config, c: Client, io: Io, script: seq<WriteOutcome>, request: seq<byte>, xs: seq<Single>)
    requires Speech(request, xs) && OnCourse(cfg, c, request, xs) && cfg.form.Append? && !io.readFails
    requires c.received + Taken(io.chunks) <= request + StreamBytes(xs)
    ensures var r := ReadStage(cfg, c, io, script);
            && r.Go? && r.script == script && OnCourse(cfg, r.c, request, xs) && SameOrder(c, r.c) && r.c.sent == c.sent
            && r.c.received == c.received + Taken(io.chunks) && r.c.buf.data == c.buf.data + Taken(io.chunks)
            && (if Taken(io.chunks) == [] then r.c.buf == c.buf else r.c.buf.prevRead < r.c.buf.read)
  {
    AppendFills(c.buf, io.chunks);
    ReadKeeps(cfg, c, io, script);
    ReadAppends(cfg, c, io, script);
    ReadMarks(cfg, c, io, script);
  }

  // The last stage of the event.
  lemma {:induction false} LastStays(cfg: Config, c: Client, readable: bool, script: seq<WriteOutcome>, request: seq<byte>, xs: seq<Single>)
    requires Speech(request, xs) && OnCourse(cfg, c, request, xs) && !c.tlsHandshaking
    requires c.isHandshaking ==> CutWell(request, |c.received|) && AnswerEases(cfg, c, |c.received|, script, request)
    ensures var r := if c.isHandshaking then HandshakeStage(cfg, c, script) else if readable then ParseStage(c, script) else Stay(c);
            (r.Go? || r.Stay? || r.Deliver?) && OnCourse(cfg, r.c, request, xs)
  {
    if c.isHandshaking {
      GreetingStays(cfg, c, script, request, xs);
    } else if readable {
      ParsingStays(cfg, c, script, request, xs);
    }
  }

  // The client before the last stage of the event, and the script that is left for it.
  predicate Prepared(cfg: Config, c: Client, io: Io, d: Client, script: seq<WriteOutcome>)
    requires Runnable(c)
  {
    && Runnable(d) && SameOrder(c, d) && d.received == c.received + Brought(io) && d.buf.data == c.buf.data + Brought(io)
    && (if Brought(io) == [] then d.buf == c.buf else d.buf.prevRead < d.buf.read)
    && (c.isHandshaking ==> script == (if io.writable then Rest(io.script) else io.script) && d.sent == c.sent)
    && Handle(cfg, c, io) ==
       if d.isHandshaking then HandshakeStage(cfg, d, script) else if io.readable then ParseStage(d, script) else Stay(d)
  }

  lemma {:induction false} Prepares(cfg: Config, c: Client, io: Io, request: seq<byte>, xs: seq<Single>) returns (d: Client, script: seq<WriteOutcome>)
    requires Speech(request, xs) && OnCourse(cfg, c, request, xs) && cfg.form.Append? && Eases(cfg, c, io, request, xs)
    requires !c.tlsHandshaking
    ensures OnCourse(cfg, d, request, xs) && Prepared(cfg, c, io, d, script)
  {
    var w := if io.writable then WriteStage(c, io.script) else Go(c, io.script);
    if io.writable {
      WritingStays(cfg, c, io.script, request, xs);
      WritingScript(c, io.script);
    }
    var r := if io.readable then ReadStage(cfg, w.c, io, w.script) else w;
    if io.readable {
      ReadingStays(cfg, w.c, io, w.script, request, xs);
    } else {
      assert c.received + [] == c.received && c.buf.data + [] == c.buf.data;
    }
    HandleGoes(cfg, c, io, w, r);
    d, script := r.c, r.script;
  }

  // Handling an event, once the stages before the last go on.
  lemma {:induction false} HandleGoes(cfg: Config, c: Client, io: Io, w: Stage, r: Stage)
    requires Runnable(c) && !c.tlsHandshaking
    requires w == (if io.writable then WriteStage(c, io.script) else Go(c, io.script)) && w.Go?
    requires r == (if io.readable then ReadStage(cfg, w.c, io, w.script) else w) && r.Go?
    ensures Handle(cfg, c, io) ==
            if r.c.isHandshaking then HandshakeStage(cfg, r.c, r.script)
            else if io.readable then ParseStage(r.c, r.script) else Stay(r.c)
  {
  }

  // No such event ends the connection.
  lemma {:induction false} EventStays(cfg: Config, c: Client, io: Io, request: seq<byte>, xs: seq<Single>)
    requires Speech(request, xs) && OnCourse(cfg, c, request, xs) && cfg.form.Append? && Eases(cfg, c, io, request, xs)
    ensures var r := Handle(cfg, c, io); (r.Go? || r.Stay? || r.Deliver?) && OnCourse(cfg, r.c, request, xs)
  {
    if !c.tlsHandshaking {
      var d, script := Prepares(cfg, c, io, request, xs);
      LastStays(cfg, d, io.readable, script, request, xs);
    } else {
      HandleKeeps(cfg, c, io);
    }
  }

  // An event that brings bytes hands on the next message exactly if it is then whole.
  lemma {:induction false} EventSpeaks(cfg: Config, c: Client, io: Io, request: seq<byte>, xs: seq<Single>)
    requires Speech(request, xs) && OnCourse(cfg, c, request, xs) && cfg.form.Append? && Eases(cfg, c, io, request, xs)
    requires !c.isHandshaking && Brought(io) != []
    ensures var r := Handle(cfg, c, io);
            var n := |c.trace.inbound|;
            if n < |xs| && |c.buf.data + Brought(io)| >= |SingleBytes(xs[n])| then r.Deliver? && r.msg == MessageOf(xs[n])
            else r.Go?
  {
    var d, script := Prepares(cfg, c, io, request, xs);
    ParsingStays(cfg, d, script, request, xs);
    ParsedGoes(d, script);
  }

  lemma {:induction false} ParsedGoes(c: Client, script: seq<WriteOutcome>)
    requires Runnable(c) && c.buf.prevRead < c.buf.read
    ensures !ParseStage(c, script).Stay?
  {
  }

  // ---------------------------------------------------------------- whole runs

  // The application sends to this client only after its handshake, and the stream takes it
  // without failing; the client keeps its part in every event.
  predicate EasesStep(cfg: Config, s: Server, e: Event, id: StreamId, request: seq<byte>, xs: seq<Single>)
    requires Ready(s) && Speech(request, xs)
  {
    id in s.clients ==>
      match e
      case Polled(other, io) => other == id ==> Eases(cfg, s.clients[id], io, request, xs)
      case Sent(other, msg, script) =>
        other == id && Sized(msg) ==> !s.clients[id].isHandshaking && !Fails(|Header(msg)|, |msg.content|, script)
      case _ => true
  }

  predicate EasesRun(cfg: Config, s: Server, events: seq<Event>, id: StreamId, request: seq<byte>, xs: seq<Single>)
    requires Ready(s) && Speech(request, xs)
    decreases |events|
  {
    events != [] ==>
      && EasesStep(cfg, s, events[0], id, request, xs)
      && (Step(cfg, s, events[0]).Some? ==> EasesRun(cfg, Step(cfg, s, events[0]).value, events[1..], id, request, xs))
  }

  // The client is there and on course.
  predicate Thriving(cfg: Config, s: Server, id: StreamId, request: seq<byte>, xs: seq<Single>)
    requires Speech(request, xs)
  {
    id in s.clients && OnCourse(cfg, s.clients[id], request, xs)
  }

  lemma {:induction false} SendStays(cfg: Config, c: Client, msg: Message, script: seq<WriteOutcome>, request: seq<byte>, xs: seq<Single>)
    requires Speech(request, xs) && OnCourse(cfg, c, request, xs) && !c.isHandshaking && Sized(msg)
    requires !Fails(|Header(msg)|, |msg.content|, script)
    ensures var r := SendStage(c, msg, script); r.Stay? && OnCourse(cfg, r.c, request, xs)
  {
    SendDrops(c, msg, script);
    SendKeeps(cfg, c, msg, script);
  }

  // The stage keeps the client, on course.
  predicate Keeps(cfg: Config, r: Stage, request: seq<byte>, xs: seq<Single>)
    requires Speech(request, xs)
  {
    (r.Go? || r.Stay? || r.Deliver?) && OnCourse(cfg, r.c, request, xs)
  }

  lemma {:induction false} SettleHolds(s: Server, other: StreamId, r: Stage, id: StreamId)
    requires id in s.clients && other in s.clients && !r.Crash?
    requires other == id ==> r.Go? || r.Stay? || r.Deliver?
    ensures var t := Settle(s, other, r).value;
            id in t.clients && t.clients[id] == if other == id then r.c else s.clients[id]
  {
  }

  lemma {:induction false} SettleThrives(cfg: Config, s: Server, other: StreamId, r: Stage, id: StreamId, request: seq<byte>, xs: seq<Single>)
    requires Speech(request, xs) && Thriving(cfg, s, id, request, xs) && other in s.clients && !r.Crash?
    requires other == id ==> Keeps(cfg, r, request, xs)
    ensures Thriving(cfg, Settle(s, other, r).value, id, request, xs)
  {
    SettleHolds(s, other, r, id);
  }

  lemma {:induction false} EventKeeps(cfg: Config, c: Client, io: Io, request: seq<byte>, xs: seq<Single>, r: Stage)
    requires Speech(request, xs) && OnCourse(cfg, c, request, xs) && cfg.form.Append? && Eases(cfg, c, io, request, xs)
    requires r == Handle(cfg, c, io)
    ensures Keeps(cfg, r, request, xs)
  {
    EventStays(cfg, c, io, request, xs);
  }

  lemma {:induction false} SendKeepsIt(cfg: Config, c: Client, msg: Message, script: seq<WriteOutcome>, request: seq<byte>, xs: seq<Single>, r: Stage)
    requires Speech(request, xs) && OnCourse(cfg, c, request, xs) && !c.isHandshaking && Sized(msg)
    requires !Fails(|Header(msg)|, |msg.content|, script) && r == SendStage(c, msg, script)
    ensures Keeps(cfg, r, request, xs)
  {
    SendStays(cfg, c, msg, script, request, xs);
  }

  lemma {:induction false} StepIs(cfg: Config, s: Server, id: StreamId, io: Io, r: Stage)
    requires Ready(s) && id in s.clients && r == Handle(cfg, s.clients[id], io)
    ensures Step(cfg, s, Polled(id, io)) == Settle(s, id, r)
  {
  }

  lemma {:induction false} PolledThrives(cfg: Config, s: Server, other: StreamId, io: Io, id: StreamId, request: seq<byte>, xs: seq<Single>, r: Stage)
    requires Ready(s) && cfg.form.Append? && Speech(request, xs) && Thriving(cfg, s, id, request, xs)
    requires other in s.clients && r == Handle(cfg, s.clients[other], io) && !r.Crash?
    requires other == id ==> Eases(cfg, s.clients[id], io, request, xs)
    ensures Thriving(cfg, Settle(s, other, r).value, id, request, xs)
  {
    if other == id { EventKeeps(cfg, s.clients[id], io, request, xs, r); }
    SettleThrives(cfg, s, other, r, id, request, xs);
  }

  lemma {:induction false} PolledStep(cfg: Config, s: Server, other: StreamId, io: Io, id: StreamId, request: seq<byte>, xs: seq<Single>)
    requires Ready(s) && cfg.form.Append? && Speech(request, xs) && Thriving(cfg, s, id, request, xs)
    requires Step(cfg, s, Polled(other, io)).Some? && (other == id ==> Eases(cfg, s.clients[id], io, request, xs))
    ensures Thriving(cfg, Step(cfg, s, Polled(other, io)).value, id, request, xs)
  {
    StepCrashes(cfg, s, other, io);
    var r := Handle(cfg, s.clients[other], io);
    StepIs(cfg, s, other, io, r);
    PolledThrives(cfg, s, other, io, id, request, xs, r);
  }

  lemma {:induction false} StepCrashes(cfg: Config, s: Server, other: StreamId, io: Io)
    requires Ready(s) && Step(cfg, s, Polled(other, io)).Some?
    ensures other in s.clients && !Handle(cfg, s.clients[other], io).Crash?
  {
  }

  lemma {:induction false} SentThrives(
      cfg: Config, s: Server, other: StreamId, msg: Message, script: seq<WriteOutcome>, id: StreamId, request: seq<byte>, xs: seq<Single>, r: Stage)
    requires Ready(s) && Speech(request, xs) && Thriving(cfg, s, id, request, xs) && other in s.clients && Sized(msg)
    requires r == SendStage(s.clients[other], msg, script) && !r.Crash?
    requires other == id ==> !s.clients[id].isHandshaking && !Fails(|Header(msg)|, |msg.content|, script)
    ensures Thriving(cfg, Settle(s, other, r).value, id, request, xs)
  {
    if other == id { SendKeepsIt(cfg, s.clients[id], msg, script, request, xs, r); }
    SettleThrives(cfg, s, other, r, id, request, xs);
  }

  lemma {:induction false} SentStep(
      cfg: Config, s: Server, other: StreamId, msg: Message, script: seq<WriteOutcome>, id: StreamId, request: seq<byte>, xs: seq<Single>)
    requires Ready(s) && Speech(request, xs) && Thriving(cfg, s, id, request, xs)
    requires Step(cfg, s, Sent(other, msg, script)).Some? && EasesStep(cfg, s, Sent(other, msg, script), id, request, xs)
    ensures Thriving(cfg, Step(cfg, s, Sent(other, msg, script)).value, id, request, xs)
  {
    SentSettles(cfg, s, other, msg, script);
    SentThrives(cfg, s, other, msg, script, id, request, xs, SendStage(s.clients[other], msg, script));
  }

  lemma {:induction false} StepThrives(cfg: Config, s: Server, e: Event, id: StreamId, request: seq<byte>, xs: seq<Single>)
    requires Ready(s) && cfg.form.Append? && Speech(request, xs) && Thriving(cfg, s, id, request, xs)
    requires EasesStep(cfg, s, e, id, request, xs) && Step(cfg, s, e).Some?
    ensures Thriving(cfg, Step(cfg, s, e).value, id, request, xs)
  {
    match e
    case Accepted(other) => OtherwiseThrives(cfg, s, other, id, request, xs);
    case Popped => OtherwiseThrives(cfg, s, 0, id, request, xs);
    case Polled(other, io) => PolledStep(cfg, s, other, io, id, request, xs);
    case Sent(other, msg, script) => SentStep(cfg, s, other, msg, script, id, request, xs);
  }

  lemma {:induction false} OtherwiseThrives(cfg: Config, s: Server, other: StreamId, id: StreamId, request: seq<byte>, xs: seq<Single>)
    requires Ready(s) && Speech(request, xs) && Thriving(cfg, s, id, request, xs)
    ensures Thriving(cfg, Step(cfg, s, Accepted(other)).value, id, request, xs)
    ensures Thriving(cfg, Pop(s), id, request, xs)
  {
    OtherwiseHolds(cfg, s, other, id);
  }

  lemma {:induction false} OtherwiseHolds(cfg: Config, s: Server, other: StreamId, id: StreamId)
    requires Ready(s) && id in s.clients
    ensures var t := Step(cfg, s, Accepted(other)).value; id in t.clients && t.clients[id] == s.clients[id]
    ensures Pop(s).clients == s.clients
  {
  }

  // Whatever events come, of this client and of others: if its stream never fails, and it
  // sends one request, not cut just after a CR of the head, and then unfragmented messages,
  // it keeps its connection.
  lemma {:induction false} RunThrives(cfg: Config, s: Server, events: seq<Event>, id: StreamId, request: seq<byte>, xs: seq<Single>)
    requires Ready(s) && cfg.form.Append? && Speech(request, xs) && Thriving(cfg, s, id, request, xs)
    requires EasesRun(cfg, s, events, id, request, xs) && Run(cfg, s, events).Some?
    ensures Thriving(cfg, Run(cfg, s, events).value, id, request, xs)
    decreases |events|
  {
    if events != [] {
      StepThrives(cfg, s, events[0], id, request, xs);
      RunThrives(cfg, Step(cfg, s, events[0]).value, events[1..], id, request, xs);
    }
  }

  // A new connection is on course.
  lemma {:induction false} NewIsOnCourse(cfg: Config, request: seq<byte>, xs: seq<Single>)
    requires Speech(request, xs)
    ensures OnCourse(cfg, NEW_CLIENT, request, xs)
  {
    assert Flatten(Pieces([])) == [];
    assert Conserved(NEW_CLIENT) && Ordered(cfg, NEW_CLIENT);
  }

  // ---------------------------------------------------------------- what such a client is given

  // With the request there and a stream that takes the response and accepts the flush, the
  // handshake is over after the event, and what was missing of the response is written.
  predicate TakesAnswer(cfg: Config, c: Client, io: Io, request: seq<byte>)
    requires Runnable(c) && Asks(request)
  {
    var n, script := AnswerToGo(cfg, c, request), if io.writable then Rest(io.script) else io.script;
    |c.received + Brought(io)| >= |request| && n > 0 && TakesWhole(n, script) && !AnswerBlocks(n, script)
  }

  predicate WasAnswered(cfg: Config, c: Client, d: Client, request: seq<byte>)
    requires Runnable(c) && Asks(request)
  {
    && !d.isHandshaking && d.handshaker.buf == Answer(cfg, request) && d.handshaker.bytesWrit == |d.handshaker.buf|
    && d.sent == c.sent + Answer(cfg, request)
  }

  // The stream takes all n bytes and accepts the flush behind them.
  predicate Swallows(n: nat, script: seq<WriteOutcome>) {
    TakesWhole(n, script) && !AnswerBlocks(n, script) && !AnswerFails(n, script)
  }

  lemma {:induction false} WholeToGo(cfg: Config, c: Client, request: seq<byte>)
    requires Runnable(c) && Ordered(cfg, c) && Asks(request) && AnswerToGo(cfg, c, request) > 0
    ensures c.handshaker.buf != [] ==> c.handshaker.bytesWrit == 0 && AnswerToGo(cfg, c, request) == |c.handshaker.buf|
    ensures c.handshaker.buf == [] ==> AnswerToGo(cfg, c, request) == |Answer(cfg, request)|
  {
  }

  lemma {:induction false} AwaitedAnswers(cfg: Config, c: Client, script: seq<WriteOutcome>, request: seq<byte>, xs: seq<Single>)
    requires Speech(request, xs) && OnCourse(cfg, c, request, xs) && !c.tlsHandshaking && c.handshaker.buf == []
    requires |c.received| >= |request|
    requires Swallows(|Answer(cfg, request)|, script)
    ensures var r := HandshakeStage(cfg, c, script); r.Stay? && WasAnswered(cfg, c, r.c, request)
  {
    AllBuffered(cfg, c);
    PrefixCases(c.received, request, StreamBytes(xs));
    RequestThere(request, c.received);
    var d := StageAnswers(cfg, c, script);
    assert d.handshaker.buf[0..] == d.handshaker.buf;
  }

  lemma {:induction false} RespondingAnswers(cfg: Config, c: Client, script: seq<WriteOutcome>, request: seq<byte>, xs: seq<Single>)
    requires Speech(request, xs) && OnCourse(cfg, c, request, xs) && !c.tlsHandshaking && c.isHandshaking
    requires c.handshaker.bytesWrit == 0 && c.handshaker.buf != []
    requires Swallows(|c.handshaker.buf|, script)
    ensures var r := HandshakeStage(cfg, c, script); r.Stay? && WasAnswered(cfg, c, r.c, request)
  {
    RequestGone(cfg, c, request, xs);
    StageResponds(cfg, c, script);
    assert c.handshaker.buf[0..] == c.handshaker.buf;
  }

  lemma {:induction false} StageGreets(cfg: Config, c: Client, script: seq<WriteOutcome>, request: seq<byte>, xs: seq<Single>)
    requires Speech(request, xs) && OnCourse(cfg, c, request, xs) && !c.tlsHandshaking && c.isHandshaking && |c.received| >= |request|
    requires AnswerToGo(cfg, c, request) > 0 && Swallows(AnswerToGo(cfg, c, request), script)
    ensures var r := HandshakeStage(cfg, c, script); r.Stay? && WasAnswered(cfg, c, r.c, request)
  {
    WholeToGo(cfg, c, request);
    if c.handshaker.buf == [] {
      AwaitedAnswers(cfg, c, script, request, xs);
    } else {
      RespondingAnswers(cfg, c, script, request, xs);
    }
  }

  lemma {:induction false} SameAnswer(cfg: Config, c: Client, d: Client, e: Client, request: seq<byte>)
    requires Runnable(c) && Runnable(d) && Asks(request) && c.handshaker == d.handshaker && c.sent == d.sent
    ensures AnswerToGo(cfg, c, request) == AnswerToGo(cfg, d, request)
    ensures WasAnswered(cfg, c, e, request) <==> WasAnswered(cfg, d, e, request)
  {
  }

  lemma {:induction false} EventUpgrades(cfg: Config, c: Client, io: Io, request: seq<byte>, xs: seq<Single>)
    requires Speech(request, xs) && OnCourse(cfg, c, request, xs) && cfg.form.Append? && Eases(cfg, c, io, request, xs)
    requires !c.tlsHandshaking && c.isHandshaking && TakesAnswer(cfg, c, io, request)
    ensures var r := Handle(cfg, c, io); r.Stay? && WasAnswered(cfg, c, r.c, request)
  {
    var d, script := Prepares(cfg, c, io, request, xs);
    SameAnswer(cfg, c, d, HandshakeStage(cfg, d, script).c, request);
    StageGreets(cfg, d, script, request, xs);
  }

  // From a new connection on: the request cut anywhere but just after a CR of its head, over
  // any events between events of others, while the response could not be asked for; then an
  // event that brings the rest of it and a stream that takes the response. The handshake is
  // over, and the response of that request is on the wire, once.
  lemma {:induction false} CutRequestUpgrades(
      cfg: Config, s: Server, events: seq<Event>, id: StreamId, io: Io, request: seq<byte>, xs: seq<Single>)
    requires Ready(s) && cfg.form.Append? && Speech(request, xs) && id in s.clients && s.clients[id] == NEW_CLIENT
    requires EasesRun(cfg, s, events, id, request, xs) && Run(cfg, s, events).Some?
    requires var t := Run(cfg, s, events).value;
             id in t.clients ==>
               && !t.clients[id].tlsHandshaking && |t.clients[id].received| < |request|
               && Eases(cfg, t.clients[id], io, request, xs) && TakesAnswer(cfg, t.clients[id], io, request)
    ensures var u := Step(cfg, Run(cfg, s, events).value, Polled(id, io));
            && u.Some? && id in u.value.clients && !u.value.clients[id].isHandshaking
            && u.value.clients[id].sent == Answer(cfg, request)
  {
    NewIsOnCourse(cfg, request, xs);
    RunThrives(cfg, s, events, id, request, xs);
    var t := Run(cfg, s, events).value;
    EndsUpgraded(cfg, t, id, io, request, xs);
  }

  lemma {:induction false} EndsUpgraded(cfg: Config, t: Server, id: StreamId, io: Io, request: seq<byte>, xs: seq<Single>)
    requires Ready(t) && cfg.form.Append? && Speech(request, xs) && Thriving(cfg, t, id, request, xs)
    requires var c := t.clients[id];
             && !c.tlsHandshaking && |c.received| < |request|
             && Eases(cfg, c, io, request, xs) && TakesAnswer(cfg, c, io, request)
    ensures var u := Step(cfg, t, Polled(id, io));
            u.Some? && id in u.value.clients && !u.value.clients[id].isHandshaking && u.value.clients[id].sent == Answer(cfg, request)
  {
    var c := t.clients[id];
    if c.handshaker.buf != [] { RequestGone(cfg, c, request, xs); }
    AllBuffered(cfg, c);
    var r := Handle(cfg, c, io);
    EventUpgrades(cfg, c, io, request, xs);
    StepIs(cfg, t, id, io, r);
    SettleHolds(t, id, r, id);
    assert [] + Answer(cfg, request) == Answer(cfg, request);
  }

  // Once upgraded: an event that brings bytes makes serve return the next message exactly if
  // its frame is then whole.
  lemma {:induction false} SpokenIsHeard(cfg: Config, s: Server, id: StreamId, io: Io, request: seq<byte>, xs: seq<Single>)
    requires Ready(s) && cfg.form.Append? && Speech(request, xs) && Thriving(cfg, s, id, request, xs)
    requires Eases(cfg, s.clients[id], io, request, xs) && !s.clients[id].isHandshaking && Brought(io) != []
    ensures var c, t := s.clients[id], Step(cfg, s, Polled(id, io));
            var n := |c.trace.inbound|;
            && t.Some? && id in t.value.clients
            && t.value.log ==
               if n < |xs| && |c.buf.data + Brought(io)| >= |SingleBytes(xs[n])| then s.log + [SentMessage(id, MessageOf(xs[n]))]
               else s.log
  {
    var r := Handle(cfg, s.clients[id], io);
    EventSpeaks(cfg, s.clients[id], io, request, xs);
    StepIs(cfg, s, id, io, r);
    SettleHears(s, id, r);
  }

  lemma {:induction false} SettleHears(s: Server, id: StreamId, r: Stage)
    requires id in s.clients && (r.Deliver? || r.Go?)
    ensures var t := Settle(s, id, r);
            && t.Some? && id in t.value.clients
            && t.value.log == if r.Deliver? then s.log + [SentMessage(id, r.msg)] else s.log
  {
  }

  // There are such runs: the TLS handshake, then the whole request at once and a stream that
  // takes the whole response.
  lemma {:induction false} SomeoneIsUpgraded(cfg: Config, id: StreamId, request: seq<byte>)
    requires Asks(request)
    ensures var s := Holding(map[id := NEW_CLIENT], []);
            var events := [Polled(id, TlsIo(TlsDone))];
            var io := ReadIo(request, [Accept(|Answer(cfg, request)|), Accept(0)]);
            && Ready(s) && EasesRun(cfg, s, events, id, request, [])
            && Run(cfg, s, events) == Some(Holding(map[id := OPEN_CLIENT], []))
            && |OPEN_CLIENT.received| < |request|
            && Eases(cfg, OPEN_CLIENT, io, request, []) && TakesAnswer(cfg, OPEN_CLIENT, io, request)
  {
    var s := Holding(map[id := NEW_CLIENT], []);
    var t := Holding(map[id := OPEN_CLIENT], []);
    var events := [Polled(id, TlsIo(TlsDone))];
    StaysIn(cfg, id, NEW_CLIENT, TlsIo(TlsDone));
    assert events[1..] == [] && Run(cfg, t, []) == Some(t);
    FirstRequest(cfg, request);
  }

  lemma {:induction false} SwallowsOnce(n: nat)
    requires n > 0
    ensures Swallows(n, [Accept(n), Accept(0)])
  {
    assert [Accept(n), Accept(0)][1..] == [Accept(0)];
  }

  lemma {:induction false} FirstBrings(form: WriteForm, request: seq<byte>, script: seq<WriteOutcome>)
    requires Asks(request)
    ensures Brought(ReadIo(request, script)) == request && OPEN_CLIENT.received + request == request
    ensures request + StreamBytes([]) == request && request != []
  {
    AsksSomething(request);
    FillsOnce(form, request);
  }

  lemma {:induction false} FirstRequest(cfg: Config, request: seq<byte>)
    requires Asks(request)
    ensures var io := ReadIo(request, [Accept(|Answer(cfg, request)|), Accept(0)]);
            && |OPEN_CLIENT.received| < |request|
            && Eases(cfg, OPEN_CLIENT, io, request, []) && TakesAnswer(cfg, OPEN_CLIENT, io, request)
  {
    var n := |Answer(cfg, request)|;
    FirstBrings(cfg.form, request, [Accept(n), Accept(0)]);
    SwallowsOnce(n);
    WholeIsCutWell(request);
    assert AnswerToGo(cfg, OPEN_CLIENT, request) == n;
  }

  lemma {:induction false} WholeIsCutWell(request: seq<byte>)
    requires WholeRequest(request)
    ensures CutWell(request, |request|)
  {
  }
}
