// When a disconnect is lost: exactly in which batches of events, and a run in which it is.
module ServerLosses {
  import opened Bytes
  import opened Text
  import opened Output
  import opened WsParsing
  import opened Messaging
  import opened WsResuming
  import opened InputBuffer
  import opened Handshaking
  import opened ServerSteps
  import opened ServerClients
  import opened ServerRuns
  import opened ServerHistories
  import HttpRequests
  import HttpRoundTrip

  // ---------------------------------------------------------------- one event

  predicate FailsTls(s: Server, e: Event) {
    e.Polled? && e.id in s.clients && s.clients[e.id].tlsHandshaking && e.io.tls.TlsFailed?
  }

  // The event drops a client that has sent a message.
  predicate DropsHeard(cfg: Config, s: Server, e: Event)
    requires Ready(s)
  {
    match e
    case Polled(id, io) =>
      id in s.clients && s.clients[id].sentMessage && Handle(cfg, s.clients[id], io).Drop?
    case Sent(id, msg, script) =>
      id in s.clients && Sized(msg) && s.clients[id].sentMessage && SendStage(s.clients[id], msg, script).Drop?
    case _ => false
  }

  // What an event other than a pop does to the queue and to the lost entries.
  lemma {:induction false} StepQueue(cfg: Config, s: Server, e: Event)
    requires Ready(s) && AllKept(cfg, s) && !e.Popped? && Step(cfg, s, e).Some?
    ensures var t := Step(cfg, s, e).value;
            if FailsTls(s, e) then
              if s.queued == [] then t.queued == [] && t.discarded == s.discarded
              else t.discarded == s.discarded + [s.queued[|s.queued| - 1]]
            else
              t.discarded == s.discarded && (t.queued != [] <==> s.queued != [] || DropsHeard(cfg, s, e))
  {
    match e
    case Accepted(id) =>
    case Polled(id, io) =>
      HandleKeeps(cfg, s.clients[id], io);
      OnlyTlsDrops(cfg, s.clients[id], io);
      DropKeepsHeard(cfg, s.clients[id], io);
      SettleQueue(s, id, Handle(cfg, s.clients[id], io));
    case Sent(id, msg, script) =>
      SettleQueue(s, id, SendStage(s.clients[id], msg, script));
  }

  lemma {:induction false} SettleQueue(s: Server, id: StreamId, r: Stage)
    requires id in s.clients && !r.Crash? && (r.TlsDrop? ==> !r.c.sentMessage)
    ensures var t := Settle(s, id, r).value;
            if r.TlsDrop? then
              if s.queued == [] then t.queued == [] && t.discarded == s.discarded
              else t.discarded == s.discarded + [s.queued[|s.queued| - 1]]
            else
              t.discarded == s.discarded && (t.queued != [] <==> s.queued != [] || (r.Drop? && r.c.sentMessage))
  {
  }

  // A drop does not change whether a message was sent.
  lemma {:induction false} DropKeepsHeard(cfg: Config, c: Client, io: Io)
    requires Runnable(c) && Ordered(cfg, c) && Conserved(c)
    ensures var r := Handle(cfg, c, io); r.Drop? ==> r.c.sentMessage == c.sentMessage
  {
    HandleKeeps(cfg, c, io);
  }

  // ---------------------------------------------------------------- one batch

  // A heard client's drop comes before a failed TLS handshake. heard: one came earlier.
  predicate Loses(cfg: Config, s: Server, events: seq<Event>, heard: bool)
    requires Ready(s)
    decreases |events|
  {
    && events != []
    && Step(cfg, s, events[0]).Some?
    && var t := Step(cfg, s, events[0]).value;
       if FailsTls(s, events[0]) then heard || Loses(cfg, t, events[1..], heard)
       else Loses(cfg, t, events[1..], heard || DropsHeard(cfg, s, events[0]))
  }

  lemma {:induction false} DiscardedGrows(cfg: Config, s: Server, events: seq<Event>)
    requires Ready(s) && AllKept(cfg, s) && Run(cfg, s, events).Some?
    ensures s.discarded <= Run(cfg, s, events).value.discarded
    decreases |events|
  {
    if events != [] {
      StepKeeps(cfg, s, events[0]);
      DiscardExact(cfg, s, events[0]);
      DiscardedGrows(cfg, Step(cfg, s, events[0]).value, events[1..]);
    }
  }

  // Between two looks at the queue, entries are lost exactly if some heard client, queued or
  // dropped on the way, is followed by a failed TLS handshake.
  lemma {:induction false} BatchLoses(cfg: Config, s: Server, events: seq<Event>)
    requires Ready(s) && AllKept(cfg, s) && Run(cfg, s, events).Some?
    requires forall i | 0 <= i < |events| :: !events[i].Popped?
    ensures Run(cfg, s, events).value.discarded != s.discarded <==> Loses(cfg, s, events, s.queued != [])
    decreases |events|
  {
    if events != [] {
      var t := Step(cfg, s, events[0]).value;
      StepKeeps(cfg, s, events[0]);
      StepQueue(cfg, s, events[0]);
      assert forall i | 0 <= i < |events[1..]| :: events[1..][i] == events[i + 1];
      if FailsTls(s, events[0]) && s.queued != [] {
        DiscardedGrows(cfg, t, events[1..]);
      } else {
        BatchLoses(cfg, t, events[1..]);
      }
    }
  }

  // ---------------------------------------------------------------- a run that loses one

  const OPEN_CLIENT := NEW_CLIENT.(tlsHandshaking := false)

  function TlsIo(outcome: TlsOutcome): Io {
    Io(outcome, false, false, [], [], false)
  }

  function ReadIo(chunk: seq<byte>, script: seq<WriteOutcome>): Io {
    Io(TlsDone, false, true, script, [chunk], false)
  }

  const BROKEN_IO := Io(TlsDone, true, false, [Break], [], false)

  // The handshake is over and nothing has come since.
  predicate Welcomed(c: Client) {
    && Runnable(c) && !c.tlsHandshaking && !c.isHandshaking
    && c.buf == EMPTY && c.parser == ParserState(None, 0)
  }

  lemma {:induction false} FillsOnce(form: WriteForm, chunk: seq<byte>)
    requires chunk != []
    ensures Filled(form, EMPTY, [chunk]) == Full(BufferState(chunk, |chunk|, 0))
    ensures Taken([chunk]) == chunk
  {
    StoreAllExact(form, EMPTY, chunk);
    assert [] + chunk == chunk && [chunk][1..] == [];
    assert chunk + Taken([]) == chunk;
  }

  predicate Asks(request: seq<byte>) {
    var r := HttpRequests.Deserialize(request);
    r.Ok? && r.value.1 == [] && WS_KEY in r.value.0.headers
  }

  function Answer(cfg: Config, request: seq<byte>): seq<byte>
    requires Asks(request)
  {
    Upgrade(HttpRequests.Deserialize(request).value.0.headers[WS_KEY], cfg.accept)
  }

  lemma {:induction false} AsksSomething(request: seq<byte>)
    requires Asks(request)
    ensures request != []
  {
    assert HttpRequests.ScanFrom([], 0) == Err(HttpRequests.Incomplete);
  }

  // The connection with the request in its buffer.
  function Asking(request: seq<byte>): Client {
    OPEN_CLIENT.(buf := BufferState(request, |request|, 0), received := request)
  }

  // ... and with the response ready to be sent.
  function Answering(cfg: Config, request: seq<byte>): Client
    requires Asks(request)
  {
    OPEN_CLIENT.(received := request, handshaker := HandshakerState(Answer(cfg, request), 0),
                 trace := NEW_CLIENT.trace.(opening := request))
  }

  lemma {:induction false} RequestRead(cfg: Config, request: seq<byte>, script: seq<WriteOutcome>)
    requires Asks(request)
    ensures ReadStage(cfg, OPEN_CLIENT, ReadIo(request, script), script) == Go(Asking(request), script)
  {
    AsksSomething(request);
    FillsOnce(cfg.form, request);
    assert [] + request == request;
  }

  lemma {:induction false} RequestStep(cfg: Config, request: seq<byte>)
    requires Asks(request)
    ensures HandshakeStep(HandshakerState([], 0), request, cfg.accept)
         == (HandshakerState(Answer(cfg, request), 0), Progress(Responding, []))
  {
  }

  lemma {:induction false} RequestShaken(cfg: Config, request: seq<byte>)
    requires Asks(request)
    ensures Shaken(Asking(request), cfg.accept) == (Answering(cfg, request), Progress(Responding, []))
  {
    RequestStep(cfg, request);
    assert request[..|request|] == request;
    ShakenIs(Asking(request), cfg.accept, HandshakerState(Answer(cfg, request), 0), Progress(Responding, []));
    RequestMoves(request);
  }

  lemma {:induction false} RequestMoves(request: seq<byte>)
    ensures Consumed(BufferState(request, |request|, 0), |request|) == EMPTY
    ensures [] + request[..|request|] == request
  {
  }

  lemma {:induction false} ResponseSent(cfg: Config, request: seq<byte>)
    requires Asks(request)
    ensures var d := Answering(cfg, request);
            var a := Answered(d, [Accept(|Answer(cfg, request)|), Accept(0)]);
            && a.2.Done?
            && a.0.(sent := d.sent, handshaker := d.handshaker, trace := d.trace) == d
            && Counts(a.0.handshaker)
  {
    var response := Answer(cfg, request);
    TakesAll(response, []);
    assert response[0..] == response;
  }

  predicate Counts(h: HandshakerState) {
    h.buf != [] && h.bytesWrit == |h.buf|
  }

  lemma {:induction false} HandshakeOver(cfg: Config, c: Client, script: seq<WriteOutcome>)
    requires Runnable(c) && !c.tlsHandshaking && c.buf == EMPTY && c.parser == ParserState(None, 0)
    requires Counts(c.handshaker)
    ensures HandshakeStage(cfg, c, script).Stay? && Welcomed(HandshakeStage(cfg, c, script).c)
  {
    var (d, reply) := Shaken(c, cfg.accept);
    HandshakeUnrolls(cfg, c, script, d, reply);
    assert c.buf.data[0..] == [];
  }

  lemma {:induction false} Upgrades(cfg: Config, request: seq<byte>)
    requires Asks(request)
    ensures var r := Handle(cfg, OPEN_CLIENT, ReadIo(request, [Accept(|Answer(cfg, request)|), Accept(0)]));
            r.Stay? && Welcomed(r.c)
  {
    var script := [Accept(|Answer(cfg, request)|), Accept(0)];
    RequestRead(cfg, request, script);
    RequestShaken(cfg, request);
    ResponseSent(cfg, request);
    var d := Answering(cfg, request);
    var a := Answered(d, script);
    HandshakeUnrolls(cfg, Asking(request), script, d, Progress(Responding, []));
    HandshakeOver(cfg, a.0, a.1);
  }

  lemma {:induction false} Speaks(cfg: Config, c: Client, x: Single)
    requires Welcomed(c) && Sendable(x)
    ensures var r := Handle(cfg, c, ReadIo(SingleBytes(x), []));
            r.Deliver? && r.msg == MessageOf(x) && r.c.sentMessage && !r.c.tlsHandshaking
  {
    var bytes := SingleBytes(x);
    FillsOnce(cfg.form, bytes);
    SingleParses(x, []);
    assert bytes + [] == bytes && bytes[0..] == bytes && bytes[..|bytes|] == bytes;
  }

  lemma {:induction false} Breaks(cfg: Config, c: Client)
    requires Runnable(c) && !c.tlsHandshaking
    ensures Handle(cfg, c, BROKEN_IO) == Drop(c)
  {
  }

  // A history with new ids that leads to s.
  predicate Leads(cfg: Config, events: seq<Event>, s: Server) {
    Run(cfg, NEW_SERVER, events) == Some(s) && AllNew(cfg, NEW_SERVER, events)
  }

  lemma {:induction false} NewOneMore(cfg: Config, s: Server, events: seq<Event>, e: Event)
    requires Ready(s) && Run(cfg, s, events).Some? && AllNew(cfg, s, events)
    requires NewId(Run(cfg, s, events).value, e)
    ensures AllNew(cfg, s, events + [e])
    decreases |events|
  {
    if events == [] {
      assert [] + [e] == [e] && [e][1..] == [];
    } else {
      assert (events + [e])[1..] == events[1..] + [e];
      NewOneMore(cfg, Step(cfg, s, events[0]).value, events[1..], e);
    }
  }

  lemma {:induction false} LeadsOn(cfg: Config, events: seq<Event>, s: Server, e: Event, t: Server)
    requires Ready(s) && Leads(cfg, events, s) && NewId(s, e) && Step(cfg, s, e) == Some(t)
    ensures Leads(cfg, events + [e], t)
  {
    RunOneMore(cfg, NEW_SERVER, events, e);
    NewOneMore(cfg, NEW_SERVER, events, e);
  }

  // A server with these connections and this log, and nothing queued, dropped or lost.
  function Holding(clients: map<StreamId, Client>, log: seq<Notification>): Server {
    Server(clients, [], log, [], [])
  }

  lemma {:induction false} StaysIn(cfg: Config, id: StreamId, c: Client, io: Io)
    requires Runnable(c) && Handle(cfg, c, io).Stay?
    ensures Step(cfg, Holding(map[id := c], []), Polled(id, io)) == Some(Holding(map[id := Handle(cfg, c, io).c], []))
  {
    assert map[id := c][id := Handle(cfg, c, io).c] == map[id := Handle(cfg, c, io).c];
  }

  // One client comes, shakes hands and says something.
  lemma {:induction false} OneSpeaks(cfg: Config, a: StreamId, request: seq<byte>, x: Single) returns (events: seq<Event>, c: Client)
    requires Asks(request) && Sendable(x)
    ensures Runnable(c) && c.sentMessage && !c.tlsHandshaking
    ensures Leads(cfg, events, Holding(map[a := c], [SentMessage(a, MessageOf(x))]))
  {
    var up := ReadIo(request, [Accept(|Answer(cfg, request)|), Accept(0)]);
    var s0 := Holding(map[a := NEW_CLIENT], []);
    LeadsOn(cfg, [], NEW_SERVER, Accepted(a), s0);
    var s1 := Holding(map[a := OPEN_CLIENT], []);
    StaysIn(cfg, a, NEW_CLIENT, TlsIo(TlsDone));
    LeadsOn(cfg, [] + [Accepted(a)], s0, Polled(a, TlsIo(TlsDone)), s1);
    Upgrades(cfg, request);
    var d := Handle(cfg, OPEN_CLIENT, up).c;
    StaysIn(cfg, a, OPEN_CLIENT, up);
    var past := [] + [Accepted(a)] + [Polled(a, TlsIo(TlsDone))];
    LeadsOn(cfg, past, s1, Polled(a, up), Holding(map[a := d], []));
    var said := ReadIo(SingleBytes(x), []);
    c := Says(cfg, a, d, x);
    LeadsOn(cfg, past + [Polled(a, up)], Holding(map[a := d], []), Polled(a, said), Holding(map[a := c], [SentMessage(a, MessageOf(x))]));
    events := past + [Polled(a, up)] + [Polled(a, said)];
  }

  lemma {:induction false} Says(cfg: Config, a: StreamId, d: Client, x: Single) returns (c: Client)
    requires Welcomed(d) && Sendable(x)
    ensures Runnable(c) && c.sentMessage && !c.tlsHandshaking
    ensures Step(cfg, Holding(map[a := d], []), Polled(a, ReadIo(SingleBytes(x), [])))
         == Some(Holding(map[a := c], [SentMessage(a, MessageOf(x))]))
  {
    Speaks(cfg, d, x);
    c := Handle(cfg, d, ReadIo(SingleBytes(x), [])).c;
    assert map[a := d][a := c] == map[a := c];
    assert [] + [SentMessage(a, MessageOf(x))] == [SentMessage(a, MessageOf(x))];
  }

  // The batch: the stream of a breaks, and the TLS handshake of b fails.
  function FatalBatch(a: StreamId, b: StreamId): seq<Event> {
    [Polled(a, BROKEN_IO), Polled(b, TlsIo(TlsFailed))]
  }

  lemma {:induction false} FirstFalls(cfg: Config, a: StreamId, b: StreamId, c: Client, log: seq<Notification>)
    requires a != b && Runnable(c) && c.sentMessage && !c.tlsHandshaking
    ensures Step(cfg, Holding(map[a := c, b := NEW_CLIENT], log), Polled(a, BROKEN_IO))
         == Some(Server(map[b := NEW_CLIENT], [a], log, [(a, c)], []))
  {
    Breaks(cfg, c);
    assert map[a := c, b := NEW_CLIENT] - {a} == map[b := NEW_CLIENT];
    assert [] + [a] == [a] && [] + [(a, c)] == [(a, c)];
  }

  lemma {:induction false} SecondFalls(cfg: Config, a: StreamId, b: StreamId, c: Client, log: seq<Notification>)
    ensures Step(cfg, Server(map[b := NEW_CLIENT], [a], log, [(a, c)], []), Polled(b, TlsIo(TlsFailed)))
         == Some(Server(map[], [], log, [(a, c), (b, NEW_CLIENT)], [a]))
  {
    assert map[b := NEW_CLIENT] - {b} == map[];
    assert [a][..0] == [] && [] + [a] == [a];
    assert [(a, c)] + [(b, NEW_CLIENT)] == [(a, c), (b, NEW_CLIENT)];
  }

  // It happens: the application has heard from a, a is gone, and nobody will ever say so.
  lemma {:induction false} DisconnectLost(cfg: Config, a: StreamId, b: StreamId, request: seq<byte>, x: Single)
    returns (events: seq<Event>, t: Server)
    requires a != b && Asks(request) && Sendable(x)
    ensures Leads(cfg, events + FatalBatch(a, b), t)
    ensures t.log == [SentMessage(a, MessageOf(x))] && t.queued == [] && t.discarded == [a]
    ensures a !in t.clients && WasDropped(t, a)
  {
    var c;
    events, c := OneSpeaks(cfg, a, request, x);
    var log := [SentMessage(a, MessageOf(x))];
    var s := Holding(map[a := c], log);
    var s1 := Holding(map[a := c, b := NEW_CLIENT], log);
    LeadsOn(cfg, events, s, Accepted(b), s1);
    events := events + [Accepted(b)];
    FirstFalls(cfg, a, b, c, log);
    var s2 := Server(map[b := NEW_CLIENT], [a], log, [(a, c)], []);
    LeadsOn(cfg, events, s1, Polled(a, BROKEN_IO), s2);
    SecondFalls(cfg, a, b, c, log);
    t := Server(map[], [], log, [(a, c), (b, NEW_CLIENT)], [a]);
    LeadsOn(cfg, events + [Polled(a, BROKEN_IO)], s2, Polled(b, TlsIo(TlsFailed)), t);
    assert events + [Polled(a, BROKEN_IO)] + [Polled(b, TlsIo(TlsFailed))] == events + FatalBatch(a, b);
    assert t.gone[0].0 == a;
  }

  // A request that asks for the upgrade exists.
  lemma {:induction false} SomeoneAsks() returns (request: seq<byte>)
    ensures Asks(request)
  {
    var field := HttpRoundTrip.Field(WS_KEY, [], [65], []);
    var r := HttpRoundTrip.Wish(HttpRequests.GET, [47], None, HttpRequests.V_1_1, [field], []);
    KeyIsPlain();
    assert HttpRoundTrip.WellFormedField(field);
    assert HttpRoundTrip.Framed([field], []);
    request := HttpRoundTrip.Print(r);
    HttpRoundTrip.RequestRoundTrip(r, false, []);
    assert [] + (request + []) == request;
    HttpRoundTrip.FieldMapValues([field], map[], 0);
  }

  lemma {:induction false} KeyIsPlain()
    ensures HttpRoundTrip.Plain(WS_KEY) && Lacks(WS_KEY, 58) && Trimmed(WS_KEY)
    ensures ToLower(WS_KEY) == WS_KEY && WS_KEY != HttpRequests.CONTENT_LENGTH
  {
    assert forall i | 0 <= i < |WS_KEY| :: WS_KEY[i] == 45 || 97 <= WS_KEY[i] <= 122;
    assert |WS_KEY| == 17 && |HttpRequests.CONTENT_LENGTH| == 14;
  }
}
