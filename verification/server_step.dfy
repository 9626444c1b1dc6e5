// The connection state machine of src/server_G.rs for WebSocket clients: what one event of
// the poll, one notification or one send does.
module ServerSteps {
  import opened Bytes
  import opened WsParsing
  import opened Messaging
  import opened Output
  import opened InputBuffer
  import opened Handshaking
  import HttpRequests
  import HttpIncremental

  type StreamId = nat

  // Which Buffer::write is used, and the accept function of the handshake.
  datatype Config = Config(form: WriteForm, accept: AcceptFn)

  // A message and the bytes it was parsed from.
  datatype Inbound = Inbound(bytes: seq<byte>, msg: Message)

  // A message given to the messenger and how much of it was written when it was replaced.
  datatype Outbound = Outbound(msg: Message, writ: nat)

  // What has happened on a connection: the bytes the handshake consumed, the delivered
  // messages, the replaced messengers, and what failed copies of the response wrote.
  datatype Trace = Trace(opening: seq<byte>, inbound: seq<Inbound>, retired: seq<Outbound>, attempts: seq<seq<byte>>)

  // A connection. received and sent are all bytes ever taken from and accepted by the stream.
  datatype Client = Client(
    tlsHandshaking: bool, received: seq<byte>, sent: seq<byte>,
    buf: BufferState, msg: Message, writ: nat, parser: ParserState, handshaker: HandshakerState,
    isHandshaking: bool, sentMessage: bool, trace: Trace)

  const NEW_CLIENT := Client(
    true, [], [], EMPTY, DEFAULT_MESSAGE, 0, ParserState(None, 0), HandshakerState([], 0),
    true, false, Trace([], [], [], []))

  // What every function below needs; it holds in every reachable state.
  predicate Runnable(c: Client) {
    && Sized(c.msg) && c.writ <= |Encode(c.msg)|
    && c.handshaker.bytesWrit <= |c.handshaker.buf|
    && c.buf.read == |c.buf.data| && c.parser.skip == 0
  }

  // ---------------------------------------------------------------- one poll event

  datatype TlsOutcome = TlsDone | TlsPending | TlsFailed

  // What the poll reports for a client, and what its stream will do.
  datatype Io = Io(
    tls: TlsOutcome, writable: bool, readable: bool, script: seq<WriteOutcome>,
    chunks: seq<seq<byte>>, readFails: bool)

  // How handling goes on: Go to the next stage with what is left of the script, Stay and
  // wait for the next event, Drop the client, Deliver its message, or a panic.
  datatype Stage =
    | Go(c: Client, script: seq<WriteOutcome>)
    | Stay(c: Client)
    | Drop(c: Client)
    | TlsDrop(c: Client)
    | Deliver(c: Client, msg: Message)
    | Crash

  // The messenger writes what it can.
  function SendMessages(c: Client, script: seq<WriteOutcome>): (r: (Client, seq<WriteOutcome>, IoResult))
    requires Runnable(c)
    ensures Runnable(r.0)
  {
    var s := SendAll(Header(c.msg), c.msg.content, c.writ, Wire(c.sent, script), 0);
    (c.(sent := s.wire.sent, writ := s.writ), s.wire.script, s.result)
  }

  function Tolerated(r: IoResult): bool {
    r.Done? || r.WouldBlock?
  }

  function WriteStage(c: Client, script: seq<WriteOutcome>): (r: Stage)
    requires Runnable(c)
    ensures !r.Crash? ==> Runnable(r.c)
  {
    var (w, f) := FlushOn(Wire(c.sent, script));
    if !Tolerated(f) then Drop(c)
    else if c.isHandshaking then Go(c, w.script)
    else
      var (c', script', r) := SendMessages(c, w.script);
      if Tolerated(r) then Go(c', script') else Drop(c')
  }

  function ReadStage(cfg: Config, c: Client, io: Io, script: seq<WriteOutcome>): (r: Stage)
    requires Runnable(c)
    ensures !r.Crash? ==> Runnable(r.c)
  {
    match Filled(cfg.form, c.buf, io.chunks)
    case Overrun => Crash
    case Jammed(b) =>
      FilledKeepsRead(cfg.form, c.buf, io.chunks);
      Drop(c.(buf := b, received := c.received + Taken(io.chunks)))
    case Full(b) =>
      FilledKeepsRead(cfg.form, c.buf, io.chunks);
      var c' := c.(buf := b, received := c.received + Taken(io.chunks));
      if io.readFails then Drop(c') else Go(c', script)
  }

  // parser.parse on the story so far; a message is handed to the application.
  function ParseStage(c: Client, script: seq<WriteOutcome>): (r: Stage)
    requires Runnable(c)
    ensures !r.Crash? ==> Runnable(r.c)
  {
    if !(c.buf.prevRead < c.buf.read) then Stay(c)
    else
      var story := c.buf.data[..c.buf.read];
      var (p, reply) := ParseReply(c.parser, story);
      ReplySplits(c.parser, story);
      AfterParse(c, script, story, p, reply)
  }

  // What the stage does with the parser's new state and reply.
  function AfterParse(c: Client, script: seq<WriteOutcome>, story: seq<byte>, p: ParserState, reply: Reply): (r: Stage)
    requires Runnable(c) && |story| == |c.buf.data|
    requires p.skip == 0 && (reply.Message? ==> |reply.rest| <= |story|)
    ensures !r.Crash? ==> Runnable(r.c)
  {
    match reply
    case Message(msg, rest) =>
      var n := |c.buf.data| - |rest|;
      Deliver(c.(parser := p, buf := Consumed(c.buf, n), sentMessage := true,
                 trace := c.trace.(inbound := c.trace.inbound + [Inbound(story[..n], msg)])), msg)
    case Waiting => Go(c.(parser := p), script)
    case Error(_) => Drop(c.(parser := p))
    case Panic => Crash
  }

  lemma {:induction false} ReplySplits(p: ParserState, buf: seq<byte>)
    requires p.skip == 0
    ensures var (q, r) := ParseReply(p, buf);
            && q.skip == 0
            && (r.Message? ==> q.incoming == None && |r.rest| < |buf| && r.rest == buf[|buf| - |r.rest|..])
  {
    if ParseReply(p, buf).1.Message? {
      ParsedSplits(p, buf);
    }
  }

  lemma {:induction false} ParsedSplits(p: ParserState, buf: seq<byte>)
    requires p.skip == 0 && ParseReply(p, buf).1.Message?
    ensures var (q, r) := ParseReply(p, buf);
            && q.skip == 0 && q.incoming == None
            && |r.rest| < |buf| && r.rest == buf[|buf| - |r.rest|..]
  {
    ParsedIsSuffix(p.incoming, buf[0..]);
  }

  // One call of the handshaker on the story so far, and the bytes it consumed.
  function Shaken(c: Client, accept: AcceptFn): (r: (Client, HandshakeReply))
    requires Runnable(c)
    ensures Runnable(r.0)
    ensures r.0.handshaker == HandshakeStep(c.handshaker, c.buf.data[..c.buf.read], accept).0
    ensures r.1.Progress? && r.1.status.Finished? ==> r.0.handshaker == c.handshaker
    ensures r.1.Progress? && r.1.status.Responding? ==> r.0.handshaker.buf != []
    ensures c.handshaker.buf != [] ==>
              r.1.Progress? && r.1.status == if c.handshaker.bytesWrit < |c.handshaker.buf| then Responding else Finished
  {
    var story := c.buf.data[..c.buf.read];
    var (h, reply) := HandshakeStep(c.handshaker, story, accept);
    match reply
    case Refused => (c, reply)
    case Progress(_, rest) =>
      RestIsShorter(c.handshaker, story, accept);
      var n := |c.buf.data| - |rest|;
      (c.(handshaker := h, buf := Consumed(c.buf, n), trace := c.trace.(opening := c.trace.opening + story[..n])), reply)
  }

  // One send_all of the handshaker.
  function Answered(c: Client, script: seq<WriteOutcome>): (r: (Client, seq<WriteOutcome>, IoResult))
    requires Runnable(c)
    ensures Runnable(r.0) && r.0.handshaker.buf == c.handshaker.buf
    ensures r.2.Done? ==> r.0.handshaker.bytesWrit == |c.handshaker.buf|
  {
    var h := c.handshaker;
    var s := SendResponse(h, Wire(c.sent, script));
    (c.(sent := s.wire.sent, handshaker := s.state,
        trace := c.trace.(attempts := c.trace.attempts + [h.buf[h.bytesWrit..h.bytesWrit + s.lost]])),
     s.wire.script, s.result)
  }

  // How many turns of the handshake are still possible.
  function Ahead(h: HandshakerState): nat {
    if h.buf == [] then 2 else if h.bytesWrit < |h.buf| then 1 else 0
  }

  // The application handshake; it comes round again each time a response was written.
  function HandshakeStage(cfg: Config, c: Client, script: seq<WriteOutcome>): (r: Stage)
    requires Runnable(c)
    ensures (r.Stay? || r.Drop?) && Runnable(r.c)
    decreases Ahead(c.handshaker)
  {
    var (d, reply) := Shaken(c, cfg.accept);
    match reply
    case Refused => Drop(c)
    case Progress(status, _) =>
      match status
      case Waiting => Stay(d)
      case Finished => Stay(d.(isHandshaking := false))
      case Responding =>
        var (e, script', r) := Answered(d, script);
        if r.Done? then HandshakeStage(cfg, e, script')
        else if r.WouldBlock? then Stay(e)
        else Drop(e)
  }

  // One turn of the handshake, from what its handshaker replied.
  lemma {:induction false} HandshakeUnrolls(cfg: Config, c: Client, script: seq<WriteOutcome>, d: Client, reply: HandshakeReply)
    requires Runnable(c) && (d, reply) == Shaken(c, cfg.accept)
    ensures HandshakeStage(cfg, c, script) ==
            if reply.Refused? then Drop(d)
            else if reply.status.Waiting? then Stay(d)
            else if reply.status.Finished? then Stay(d.(isHandshaking := false))
            else AfterAnswer(cfg, Answered(d, script))
    ensures reply.Progress? && reply.status.Responding? && Answered(d, script).2.Done? ==>
              Ahead(Answered(d, script).0.handshaker) < Ahead(c.handshaker)
  {
  }

  function AfterAnswer(cfg: Config, a: (Client, seq<WriteOutcome>, IoResult)): Stage
    requires Runnable(a.0)
  {
    if a.2.Done? then HandshakeStage(cfg, a.0, a.1) else if a.2.WouldBlock? then Stay(a.0) else Drop(a.0)
  }

  // What becomes of a connection when its handshaker turns into h and replies.
  function Greeted(c: Client, h: HandshakerState, reply: HandshakeReply): Client
    requires reply.Progress? ==> |reply.rest| <= |c.buf.data|
  {
    match reply
    case Refused => c
    case Progress(_, rest) =>
      var n := |c.buf.data| - |rest|;
      c.(handshaker := h, buf := Consumed(c.buf, n), trace := c.trace.(opening := c.trace.opening + c.buf.data[..n]))
  }

  lemma {:induction false} ShakenIs(c: Client, accept: AcceptFn, h: HandshakerState, reply: HandshakeReply)
    requires Runnable(c) && (h, reply) == HandshakeStep(c.handshaker, c.buf.data[..c.buf.read], accept)
    ensures reply.Progress? ==> |reply.rest| <= |c.buf.data|
    ensures Shaken(c, accept) == (Greeted(c, h, reply), reply) && Runnable(Greeted(c, h, reply))
    ensures reply.Refused? ==> h == c.handshaker
  {
    if reply.Progress? {
      RestIsShorter(c.handshaker, c.buf.data[..c.buf.read], accept);
    }
    assert c.buf.data[..c.buf.read] == c.buf.data;
  }

  lemma {:induction false} RestIsShorter(h: HandshakerState, buf: seq<byte>, accept: AcceptFn)
    requires HandshakeStep(h, buf, accept).1.Progress?
    ensures |HandshakeStep(h, buf, accept).1.rest| <= |buf|
    ensures HandshakeStep(h, buf, accept).1.rest == buf[|buf| - |HandshakeStep(h, buf, accept).1.rest|..]
  {
    if h.buf == [] && HttpRequests.Deserialize(buf).Ok? {
      HttpIncremental.DeserializeShrinks(buf);
    }
  }

  // Writing, reading, parsing and handshaking on one event.
  function Handle(cfg: Config, c: Client, io: Io): (r: Stage)
    requires Runnable(c)
    ensures !r.Crash? ==> Runnable(r.c)
  {
    if c.tlsHandshaking then
      match io.tls
      case TlsDone => Stay(c.(tlsHandshaking := false))
      case TlsPending => Stay(c)
      case TlsFailed => TlsDrop(c)
    else
      var w := if io.writable then WriteStage(c, io.script) else Go(c, io.script);
      if !w.Go? then w
      else
        var r := if io.readable then ReadStage(cfg, w.c, io, w.script) else w;
        if !r.Go? then r
        else if r.c.isHandshaking then HandshakeStage(cfg, r.c, r.script)
        else if io.readable then ParseStage(r.c, r.script)
        else Stay(r.c)
  }

  // ---------------------------------------------------------------- the server

  datatype Notification = SentMessage(id: StreamId, msg: Message) | Disconnected(id: StreamId)

  // clients and queued are the server's; log is what serve has returned, gone the dropped
  // clients, discarded the queue entries lost to a failed TLS handshake.
  datatype Server = Server(
    clients: map<StreamId, Client>, queued: seq<StreamId>,
    log: seq<Notification>, gone: seq<(StreamId, Client)>, discarded: seq<StreamId>)

  const NEW_SERVER := Server(map[], [], [], [], [])

  predicate Ready(s: Server) {
    forall id | id in s.clients :: Runnable(s.clients[id])
  }

  datatype Event =
    | Accepted(id: StreamId)
    | Polled(id: StreamId, io: Io)
    | Popped
    | Sent(id: StreamId, msg: Message, script: seq<WriteOutcome>)

  // drop_client.
  function Dropped(s: Server, id: StreamId, c: Client): Server {
    s.(clients := s.clients - {id},
       queued := if c.sentMessage then s.queued + [id] else s.queued,
       gone := s.gone + [(id, c)])
  }

  // The pop after a failed TLS handshake.
  function Discard(s: Server): Server {
    if s.queued == [] then s
    else
      var n := |s.queued| - 1;
      s.(queued := s.queued[..n], discarded := s.discarded + [s.queued[n]])
  }

  function Pop(s: Server): Server {
    if s.queued == [] then s
    else
      var n := |s.queued| - 1;
      s.(queued := s.queued[..n], log := s.log + [Disconnected(s.queued[n])])
  }

  // send_to_client: the messenger is replaced whatever it had left to write.
  function Replaced(c: Client, msg: Message): Client {
    c.(msg := msg, writ := 0, trace := c.trace.(retired := c.trace.retired + [Outbound(c.msg, c.writ)]))
  }

  function SendStage(c: Client, msg: Message, script: seq<WriteOutcome>): (r: Stage)
    requires Runnable(c) && Sized(msg)
    ensures (r.Stay? || r.Drop?) && Runnable(r.c)
  {
    var (d, _, r) := SendMessages(Replaced(c, msg), script);
    if Tolerated(r) then Stay(d) else Drop(d)
  }

  // What a client has become, put back into the server. None is a panic.
  function Settle(s: Server, id: StreamId, r: Stage): Option<Server> {
    match r
    case Go(c, _) => Some(s.(clients := s.clients[id := c]))
    case Stay(c) => Some(s.(clients := s.clients[id := c]))
    case Drop(c) => Some(Dropped(s, id, c))
    case TlsDrop(c) => Some(Discard(Dropped(s, id, c)))
    case Deliver(c, m) => Some(s.(clients := s.clients[id := c], log := s.log + [SentMessage(id, m)]))
    case Crash => None
  }

  // Events for unknown clients and sends to them panic.
  function Step(cfg: Config, s: Server, e: Event): (r: Option<Server>)
    requires Ready(s)
    ensures r.Some? ==> Ready(r.value)
  {
    match e
    case Accepted(id) => if id in s.clients then Some(s) else Some(s.(clients := s.clients[id := NEW_CLIENT]))
    case Polled(id, io) => if id !in s.clients then None else Settle(s, id, Handle(cfg, s.clients[id], io))
    case Popped => Some(Pop(s))
    case Sent(id, msg, script) =>
      if id !in s.clients || !Sized(msg) then None
      else
        Settle(s, id, SendStage(s.clients[id], msg, script))
  }

  function Run(cfg: Config, s: Server, events: seq<Event>): (r: Option<Server>)
    requires Ready(s)
    ensures r.Some? ==> Ready(r.value)
    decreases |events|
  {
    if events == [] then Some(s)
    else
      match Step(cfg, s, events[0])
      case None => None
      case Some(t) => Run(cfg, t, events[1..])
  }
}
