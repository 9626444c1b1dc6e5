// Which events deliver a message, and how many messages a run delivers.
module ServerDeliveries {
  import opened Bytes
  import opened WsFrame
  import opened WsParsing
  import opened WsResuming
  import opened Messaging
  import opened Output
  import opened InputBuffer
  import opened ServerSteps
  import opened ServerClients
  import opened ServerRuns
  import opened ServerHistories
  import opened ServerStreams
  import HttpRequests

  // ---------------------------------------------------------------- one event

  // A message can be parsed from what has been received.
  predicate HasMessage(c: Client, more: seq<byte>)
    requires Runnable(c)
  {
    ParseReply(c.parser, c.buf.data + more).1.Message?
  }

  // Whatever counts as new in the buffer has been looked at, and there was no message.
  predicate Looked(c: Client)
    requires Runnable(c)
  {
    !c.isHandshaking && c.buf.prevRead < c.buf.read ==> !HasMessage(c, [])
  }

  // The event brings bytes to an upgraded connection, nothing fails before they are parsed,
  // and then there is a message.
  predicate BringsOne(cfg: Config, c: Client, io: Io)
    requires Runnable(c)
  {
    && !c.tlsHandshaking && !c.isHandshaking && io.readable && Taken(io.chunks) != []
    && var w := if io.writable then WriteStage(c, io.script) else Go(c, io.script);
       && w.Go? && ReadStage(cfg, w.c, io, w.script).Go? && HasMessage(c, Taken(io.chunks))
  }

  lemma {:induction false} FilledMarks(form: WriteForm, b: BufferState, chunks: seq<seq<byte>>)
    requires Filled(form, b, chunks).Full?
    ensures var r := Filled(form, b, chunks).buffer;
            if Taken(chunks) == [] then r == b else r.prevRead < r.read
    decreases |chunks|
  {
    if chunks != [] && chunks[0] != [] {
      StoreAllExact(form, b, chunks[0]);
      FilledMarks(form, StoreAll(form, b, chunks[0]).buffer, chunks[1..]);
    }
  }

  lemma {:induction false} ReadMarks(cfg: Config, c: Client, io: Io, script: seq<WriteOutcome>)
    requires Runnable(c) && ReadStage(cfg, c, io, script).Go?
    ensures var d := ReadStage(cfg, c, io, script).c;
            && d.parser == c.parser && d.isHandshaking == c.isHandshaking
            && d.buf.data == c.buf.data + Taken(io.chunks)
            && if Taken(io.chunks) == [] then d.buf == c.buf else d.buf.prevRead < d.buf.read
  {
    FilledAppends(cfg.form, c.buf, io.chunks);
    FilledMarks(cfg.form, c.buf, io.chunks);
  }

  lemma {:induction false} WriteMarks(c: Client, script: seq<WriteOutcome>)
    requires Runnable(c)
    ensures var r := WriteStage(c, script);
            && (r.Go? || r.Drop?)
            && r.c.buf == c.buf && r.c.parser == c.parser && r.c.isHandshaking == c.isHandshaking
  {
  }

  // A waiting parser that is asked again about the same bytes still has no message.
  lemma {:induction false} WaitsAgain(p: ParserState, data: seq<byte>)
    requires p.skip == 0 && (p.incoming.Some? ==> Opened(data))
    requires ParseReply(p, data).1.Waiting?
    ensures !ParseReply(ParseReply(p, data).0, data).1.Message?
  {
    if p.incoming.Some? {
      HeldCutsIn(p, data);
    } else {
      assert p == ParserState(None, 0);
      LiteralRetry(data, []);
      assert data + [] == data;
    }
  }

  lemma {:induction false} ParseDelivers(c: Client, script: seq<WriteOutcome>)
    requires Runnable(c) && Conserved(c) && !c.isHandshaking
    ensures var r := ParseStage(c, script);
            && (r.Deliver? <==> c.buf.prevRead < c.buf.read && HasMessage(c, []))
            && (r.Go? || r.Stay? || r.Deliver? ==> Looked(r.c))
  {
    assert c.buf.data + [] == c.buf.data && c.buf.data[..c.buf.read] == c.buf.data;
    var r := ParseStage(c, script);
    if r.Deliver? {
      DeliverShape(c, script);
      DeliverMarks(c, script);
    } else if c.buf.prevRead < c.buf.read && ParseReply(c.parser, c.buf.data).1.Waiting? {
      WaitsAgain(c.parser, c.buf.data);
    }
  }

  lemma {:induction false} DeliverMarks(c: Client, script: seq<WriteOutcome>)
    requires Runnable(c) && ParseStage(c, script).Deliver?
    ensures ParseStage(c, script).c.buf.prevRead == ParseStage(c, script).c.buf.read
  {
  }

  lemma {:induction false} ShakenMarks(cfg: Config, c: Client)
    requires Runnable(c)
    ensures var (d, reply) := Shaken(c, cfg.accept);
            reply.Progress? ==> d.buf.prevRead == d.buf.read
  {
  }

  lemma {:induction false} CountedMarks(cfg: Config, c: Client, script: seq<WriteOutcome>)
    requires Runnable(c) && c.handshaker.buf != [] && c.handshaker.bytesWrit == |c.handshaker.buf|
    ensures var r := HandshakeStage(cfg, c, script); r.Stay? && r.c.buf.prevRead == r.c.buf.read
  {
    var (d, reply) := Shaken(c, cfg.accept);
    ShakenMarks(cfg, c);
    HandshakeUnrolls(cfg, c, script, d, reply);
  }

  // When the handshake is over, whatever came with the request counts as looked at.
  lemma {:induction false} HandshakeMarks(cfg: Config, c: Client, script: seq<WriteOutcome>)
    requires Runnable(c)
    ensures var r := HandshakeStage(cfg, c, script);
            r.Stay? && !r.c.isHandshaking ==> r.c.buf.prevRead == r.c.buf.read || !c.isHandshaking
  {
    var (d, reply) := Shaken(c, cfg.accept);
    ShakenMarks(cfg, c);
    ShakenSame(cfg, c);
    HandshakeUnrolls(cfg, c, script, d, reply);
    if reply.Progress? && reply.status.Responding? && Answered(d, script).2.Done? {
      ShakenHas(cfg, c);
      CountedMarks(cfg, Answered(d, script).0, Answered(d, script).1);
    }
  }

  lemma {:induction false} ShakenHas(cfg: Config, c: Client)
    requires Runnable(c)
    ensures var (d, reply) := Shaken(c, cfg.accept);
            reply.Progress? && reply.status.Responding? ==> d.handshaker.buf != []
  {
  }

  // An event delivers a message exactly if it brings bytes and then a message is there.
  lemma {:induction false} HandleDelivers(cfg: Config, c: Client, io: Io)
    requires Runnable(c) && Ordered(cfg, c) && Conserved(c) && Looked(c)
    ensures var r := Handle(cfg, c, io);
            && (r.Deliver? <==> BringsOne(cfg, c, io))
            && (r.Go? || r.Stay? || r.Deliver? ==> Looked(r.c))
  {
    if !c.tlsHandshaking {
      WriteMarks(c, io.script);
      WriteKeeps(cfg, c, io.script);
      var w := if io.writable then WriteStage(c, io.script) else Go(c, io.script);
      if w.Go? {
        ReadOnDelivers(cfg, w.c, io, w.script);
      }
    }
  }

  lemma {:induction false} ReadOnDelivers(cfg: Config, c: Client, io: Io, script: seq<WriteOutcome>)
    requires Runnable(c) && Ordered(cfg, c) && Conserved(c) && Looked(c) && !c.tlsHandshaking
    ensures var r := if io.readable then ReadStage(cfg, c, io, script) else Go(c, script);
            var t := if !r.Go? then r
                     else if r.c.isHandshaking then HandshakeStage(cfg, r.c, r.script)
                     else if io.readable then ParseStage(r.c, r.script)
                     else Stay(r.c);
            && (t.Deliver? <==> !c.isHandshaking && io.readable && Taken(io.chunks) != [] && r.Go? && HasMessage(c, Taken(io.chunks)))
            && (t.Go? || t.Stay? || t.Deliver? ==> Looked(t.c))
  {
    ReadKeeps(cfg, c, io, script);
    var r := if io.readable then ReadStage(cfg, c, io, script) else Go(c, script);
    if r.Go? {
      if io.readable { ReadMarks(cfg, c, io, script); }
      LastDelivers(cfg, r.c, io.readable, r.script);
      assert io.readable && !c.isHandshaking ==> r.c.buf.data + [] == c.buf.data + Taken(io.chunks);
    }
  }

  lemma {:induction false} LastDelivers(cfg: Config, c: Client, readable: bool, script: seq<WriteOutcome>)
    requires Runnable(c) && Ordered(cfg, c) && Conserved(c) && !c.tlsHandshaking
    requires !readable ==> Looked(c)
    ensures var t := if c.isHandshaking then HandshakeStage(cfg, c, script)
                     else if readable then ParseStage(c, script)
                     else Stay(c);
            && (t.Deliver? <==> !c.isHandshaking && readable && c.buf.prevRead < c.buf.read && HasMessage(c, []))
            && (t.Go? || t.Stay? || t.Deliver? ==> Looked(t.c))
  {
    if c.isHandshaking {
      HandshakeMarks(cfg, c, script);
    } else if readable {
      ParseDelivers(c, script);
    }
  }

  // ---------------------------------------------------------------- whole runs

  predicate AllLooked(s: Server)
    requires Ready(s)
  {
    forall id | id in s.clients :: Looked(s.clients[id])
  }

  predicate Brings(cfg: Config, s: Server, e: Event, id: StreamId)
    requires Ready(s)
  {
    e.Polled? && e.id == id && id in s.clients && BringsOne(cfg, s.clients[id], e.io)
  }

  // How often an event of the run brings bytes of this client and then a message is there.
  function Chances(cfg: Config, s: Server, events: seq<Event>, id: StreamId): nat
    requires Ready(s)
    decreases |events|
  {
    if events == [] then 0
    else
      (if Brings(cfg, s, events[0], id) then 1 else 0)
      + match Step(cfg, s, events[0])
        case None => 0
        case Some(t) => Chances(cfg, t, events[1..], id)
  }

  lemma {:induction false} SettleSays(s: Server, id: StreamId, r: Stage, other: StreamId)
    requires !r.Crash?
    ensures |SaidBy(Settle(s, id, r).value.log, other)| == |SaidBy(s.log, other)| + if r.Deliver? && id == other then 1 else 0
  {
    if r.Deliver? {
      SaidSnoc(s.log, SentMessage(id, r.msg), other);
    }
  }

  lemma {:induction false} SettleLooked(s: Server, id: StreamId, r: Stage)
    requires Ready(s) && AllLooked(s) && id in s.clients && !r.Crash? && Runnable(r.c)
    requires r.Go? || r.Stay? || r.Deliver? ==> Looked(r.c)
    ensures Ready(Settle(s, id, r).value) && AllLooked(Settle(s, id, r).value)
  {
  }

  lemma {:induction false} SendLooked(c: Client, msg: Message, script: seq<WriteOutcome>)
    requires Runnable(c) && Sized(msg) && Looked(c)
    ensures Looked(SendStage(c, msg, script).c) && !SendStage(c, msg, script).Deliver?
  {
  }

  lemma {:induction false} PopSays(s: Server, id: StreamId)
    requires Ready(s) && AllLooked(s)
    ensures Grew(s, Pop(s), id, false)
  {
    if s.queued != [] {
      SaidSnoc(s.log, Disconnected(s.queued[|s.queued| - 1]), id);
    }
  }

  // From s to t serve has returned one more message of this client, or none.
  predicate Grew(s: Server, t: Server, id: StreamId, more: bool) {
    Ready(t) && AllLooked(t) && |SaidBy(t.log, id)| == |SaidBy(s.log, id)| + if more then 1 else 0
  }

  lemma {:induction false} StepSays(cfg: Config, s: Server, e: Event, id: StreamId)
    requires Ready(s) && AllKept(cfg, s) && AllLooked(s) && Step(cfg, s, e).Some?
    ensures Grew(s, Step(cfg, s, e).value, id, Brings(cfg, s, e, id))
  {
    match e
    case Accepted(other) => AcceptedSays(cfg, s, other, id);
    case Popped => PopSays(s, id);
    case Polled(other, io) => PolledSays(cfg, s, other, io, id);
    case Sent(other, msg, script) => SentSays(s, other, msg, script, id);
  }

  lemma {:induction false} AcceptedSays(cfg: Config, s: Server, other: StreamId, id: StreamId)
    requires Ready(s) && AllLooked(s)
    ensures Grew(s, Step(cfg, s, Accepted(other)).value, id, false)
  {
    assert Looked(NEW_CLIENT);
  }

  lemma {:induction false} PolledSays(cfg: Config, s: Server, other: StreamId, io: Io, id: StreamId)
    requires Ready(s) && AllKept(cfg, s) && AllLooked(s) && other in s.clients
    requires Step(cfg, s, Polled(other, io)).Some?
    ensures Grew(s, Step(cfg, s, Polled(other, io)).value, id, Brings(cfg, s, Polled(other, io), id))
  {
    var r := Handle(cfg, s.clients[other], io);
    HandleDelivers(cfg, s.clients[other], io);
    SettleLooked(s, other, r);
    SettleSays(s, other, r, id);
  }

  lemma {:induction false} SentSays(s: Server, other: StreamId, msg: Message, script: seq<WriteOutcome>, id: StreamId)
    requires Ready(s) && AllLooked(s) && other in s.clients && Sized(msg)
    ensures Grew(s, Settle(s, other, SendStage(s.clients[other], msg, script)).value, id, false)
  {
    var r := SendStage(s.clients[other], msg, script);
    SendLooked(s.clients[other], msg, script);
    SettleLooked(s, other, r);
    SettleSays(s, other, r, id);
  }

  lemma {:induction false} RunSays(cfg: Config, s: Server, events: seq<Event>, id: StreamId)
    requires Ready(s) && AllKept(cfg, s) && AllLooked(s) && Run(cfg, s, events).Some?
    ensures var t := Run(cfg, s, events).value;
            && AllLooked(t)
            && |SaidBy(t.log, id)| == |SaidBy(s.log, id)| + Chances(cfg, s, events, id)
    decreases |events|
  {
    if events != [] {
      StepKeeps(cfg, s, events[0]);
      StepSays(cfg, s, events[0], id);
      RunSays(cfg, Step(cfg, s, events[0]).value, events[1..], id);
    }
  }

  // Over any run, whatever a client sends: serve has returned one message of it for each
  // event that brought bytes while, with them, a message was there; no other event counts.
  lemma {:induction false} DeliveredExactly(cfg: Config, events: seq<Event>, id: StreamId)
    requires Run(cfg, NEW_SERVER, events).Some?
    ensures |SaidBy(Run(cfg, NEW_SERVER, events).value.log, id)| == Chances(cfg, NEW_SERVER, events, id)
  {
    RunSays(cfg, NEW_SERVER, events, id);
  }

  // ---------------------------------------------------------------- messages that wait

  lemma {:induction false} StreamSnoc(xs: seq<Single>, n: nat)
    requires (forall x <- xs :: Sendable(x)) && n < |xs|
    ensures StreamBytes(xs[..n + 1]) == StreamBytes(xs[..n]) + SingleBytes(xs[n])
    decreases n
  {
    if n == 0 {
      assert xs[..1] == [xs[0]] && xs[..0] == [] && [xs[0]][1..] == [];
    } else {
      StreamSnoc(xs[1..], n - 1);
      assert xs[..n + 1][1..] == xs[1..][..n] && xs[..n][1..] == xs[1..][..n - 1];
    }
  }

  // Delivered pieces are the first frames of the stream, and the buffer is a part of the rest.
  lemma {:induction false} PiecesAre(inbound: seq<Inbound>, data: seq<byte>, xs: seq<Single>)
    requires forall x <- xs :: Sendable(x)
    requires Genuine(inbound) && Flatten(Pieces(inbound)) + data <= StreamBytes(xs)
    ensures |inbound| <= |xs| && Flatten(Pieces(inbound)) == StreamBytes(xs[..|inbound|])
    ensures data <= StreamBytes(xs[|inbound|..])
    decreases |inbound|
  {
    if inbound == [] {
      assert [] + data == data;
    } else {
      PiecesTail(inbound, data);
      FirstPiece(inbound[0], Flatten(Pieces(inbound[1..])) + data, xs);
      TailGenuine(inbound);
      PiecesAre(inbound[1..], data, xs[1..]);
      assert Pieces(inbound)[1..] == Pieces(inbound[1..]);
      StreamFirst(xs, |inbound|);
    }
  }

  lemma {:induction false} StreamFirst(xs: seq<Single>, n: nat)
    requires (forall x <- xs :: Sendable(x)) && 0 < n <= |xs|
    ensures StreamBytes(xs[..n]) == SingleBytes(xs[0]) + StreamBytes(xs[1..][..n - 1])
    ensures xs[1..][n - 1..] == xs[n..]
  {
    assert xs[..n][1..] == xs[1..][..n - 1];
  }

  // On a stream of unfragmented messages the parser holds nothing, and has a message exactly
  // if the whole next frame is in the buffer.
  lemma {:induction false} NextIsThere(c: Client, xs: seq<Single>)
    requires Runnable(c) && Conserved(c) && forall x <- xs :: Sendable(x)
    requires c.buf.data <= StreamBytes(xs)
    ensures HasMessage(c, []) <==> xs != [] && |c.buf.data| >= |SingleBytes(xs[0])|
  {
    PrefixParses(xs, c.buf.data);
    NothingHeld(c.buf.data, xs);
    assert c.buf.data + [] == c.buf.data && c.buf.data[0..] == c.buf.data;
  }

  lemma {:induction false} NothingHeld(data: seq<byte>, xs: seq<Single>)
    requires (forall x <- xs :: Sendable(x)) && data <= StreamBytes(xs)
    ensures !Opened(data)
  {
    if xs != [] {
      var s := SingleBytes(xs[0]);
      if |data| >= |s| {
        assert data == s + data[|s|..];
        ReadPrinted(SingleFrame(xs[0]), xs[0].piece.form, data[|s|..]);
      } else {
        assert data == s[..|data|];
        PrefixBlocks(SingleFrame(xs[0]), xs[0].piece.form, |data|);
      }
    }
  }

  lemma {:induction false} AfterOpening(cfg: Config, c: Client, request: seq<byte>, xs: seq<Single>)
    requires Ordered(cfg, c) && Conserved(c) && !c.isHandshaking
    requires HttpRequests.Deserialize(request).Ok? && HttpRequests.Deserialize(request).value.1 == []
    requires (forall x <- xs :: Sendable(x)) && c.received <= request + StreamBytes(xs)
    ensures var n := |c.trace.inbound|;
            && n <= |xs| && c.buf.data <= StreamBytes(xs[n..])
            && |c.received| == |request| + |StreamBytes(xs[..n])| + |c.buf.data|
  {
    OpeningIsPrefix(c);
    SameRequest(c.trace.opening, request, request + StreamBytes(xs));
    RestIsFrames(c, StreamBytes(xs));
    PiecesAre(c.trace.inbound, c.buf.data, xs);
  }

  // If a client sends one request and then unfragmented messages, of which n have been
  // delivered: the next one has been received in full and still is not delivered exactly if
  // the parser would find it in the buffer. Then no byte has come since it was last asked.
  lemma {:induction false} WaitsUndelivered(cfg: Config, events: seq<Event>, id: StreamId, request: seq<byte>, xs: seq<Single>)
    requires Run(cfg, NEW_SERVER, events).Some? && AllNew(cfg, NEW_SERVER, events)
    requires id in Run(cfg, NEW_SERVER, events).value.clients
    requires HttpRequests.Deserialize(request).Ok? && HttpRequests.Deserialize(request).value.1 == []
    requires forall x <- xs :: Sendable(x)
    requires var c := Run(cfg, NEW_SERVER, events).value.clients[id];
             !c.isHandshaking && c.received <= request + StreamBytes(xs)
    ensures var s := Run(cfg, NEW_SERVER, events).value;
            var c := s.clients[id];
            var n := |SaidBy(s.log, id)|;
            && NextIs(c, n, request, xs)
            && (HasMessage(c, []) ==> c.buf.prevRead >= c.buf.read)
  {
    var s := ClientOf(cfg, events, id);
    NextWaits(cfg, s.clients[id], request, xs);
  }

  // Message n has been received in full exactly if the parser would find it.
  predicate NextIs(c: Client, n: nat, request: seq<byte>, xs: seq<Single>)
    requires Runnable(c) && forall x <- xs :: Sendable(x)
  {
    && n <= |xs|
    && (n < |xs| && |c.received| >= |request| + |StreamBytes(xs[..n + 1])| <==> HasMessage(c, []))
  }

  lemma {:induction false} ClientOf(cfg: Config, events: seq<Event>, id: StreamId) returns (s: Server)
    requires Run(cfg, NEW_SERVER, events).Some? && AllNew(cfg, NEW_SERVER, events)
    requires id in Run(cfg, NEW_SERVER, events).value.clients
    ensures s == Run(cfg, NEW_SERVER, events).value
    ensures Ordered(cfg, s.clients[id]) && Conserved(s.clients[id]) && Looked(s.clients[id])
    ensures |SaidBy(s.log, id)| == |s.clients[id].trace.inbound|
  {
    s := Run(cfg, NEW_SERVER, events).value;
    RunKeeps(cfg, NEW_SERVER, events);
    RunLogged(cfg, NEW_SERVER, events);
    RunSays(cfg, NEW_SERVER, events, id);
  }

  lemma {:induction false} NextWaits(cfg: Config, c: Client, request: seq<byte>, xs: seq<Single>)
    requires Runnable(c) && Ordered(cfg, c) && Conserved(c) && !c.isHandshaking
    requires HttpRequests.Deserialize(request).Ok? && HttpRequests.Deserialize(request).value.1 == []
    requires (forall x <- xs :: Sendable(x)) && c.received <= request + StreamBytes(xs)
    ensures NextIs(c, |c.trace.inbound|, request, xs)
  {
    var n := |c.trace.inbound|;
    AfterOpening(cfg, c, request, xs);
    NextIsThere(c, xs[n..]);
    if n < |xs| {
      NextLength(xs, n);
    }
  }

  lemma {:induction false} NextLength(xs: seq<Single>, n: nat)
    requires (forall x <- xs :: Sendable(x)) && n < |xs|
    ensures xs[n..] != [] && xs[n..][0] == xs[n]
    ensures |StreamBytes(xs[..n + 1])| == |StreamBytes(xs[..n])| + |SingleBytes(xs[n])|
  {
    StreamSnoc(xs, n);
  }

  // ---------------------------------------------------------------- the literal write

  // The event has bytes for a connection with something buffered, or two chunks for any.
  predicate Overfills(c: Client, io: Io) {
    && !c.tlsHandshaking && io.readable && Taken(io.chunks) != []
    && (c.buf.read > 0 || (|io.chunks| > 1 && io.chunks[1] != []))
  }

  lemma {:induction false} LiteralEnds(cfg: Config, c: Client, io: Io)
    requires Runnable(c) && cfg.form.Literal? && Overfills(c, io)
    ensures Handle(cfg, c, io).Drop? || Handle(cfg, c, io).Crash?
  {
    WriteMarks(c, io.script);
    LiteralFilled(c.buf, io.chunks);
  }

  // Under the write of the source, such an event is the last of its connection: it drops the
  // client or panics the server.
  lemma {:induction false} LiteralEndsIt(cfg: Config, s: Server, id: StreamId, io: Io)
    requires Ready(s) && cfg.form.Literal? && id in s.clients && Overfills(s.clients[id], io)
    ensures var t := Step(cfg, s, Polled(id, io)); t.Some? ==> id !in t.value.clients
  {
    LiteralEnds(cfg, s.clients[id], io);
  }
}
