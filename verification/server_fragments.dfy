// Fragmented messages at the server: which event decides what becomes of the connection.
module ServerFragments {
  import opened Bytes
  import opened WsFrame
  import opened WsParsing
  import opened WsReassembly
  import opened WsPartial
  import opened Messaging
  import opened Output
  import opened InputBuffer
  import opened ServerSteps
  import opened ServerClients
  import opened ServerRuns
  import opened ServerHistories
  import opened ServerDeliveries

  // ---------------------------------------------------------------- one event

  // The event brings bytes to an upgraded connection and nothing fails before they are parsed.
  predicate Reaches(cfg: Config, c: Client, io: Io)
    requires Runnable(c)
  {
    && !c.tlsHandshaking && !c.isHandshaking && io.readable && Taken(io.chunks) != []
    && var w := if io.writable then WriteStage(c, io.script) else Go(c, io.script);
       w.Go? && ReadStage(cfg, w.c, io, w.script).Go?
  }

  // The stage follows the parser's reply.
  predicate Follows(r: Stage, p: ParserState, reply: Reply) {
    match reply
    case Message(msg, _) => r.Deliver? && r.msg == msg
    case Waiting => r.Go? && r.c.parser == p
    case Error(_) => r.Drop?
    case Panic => r.Crash?
  }

  lemma {:induction false} ReachedFollows(cfg: Config, c: Client, io: Io)
    requires Runnable(c) && Reaches(cfg, c, io)
    ensures var (p, reply) := ParseReply(c.parser, c.buf.data + Taken(io.chunks));
            Follows(Handle(cfg, c, io), p, reply)
  {
    WriteMarks(c, io.script);
    var w := if io.writable then WriteStage(c, io.script) else Go(c, io.script);
    ReadMarks(cfg, w.c, io, w.script);
    var r := ReadStage(cfg, w.c, io, w.script);
    StageFollows(r.c, r.script, c.buf.data + Taken(io.chunks));
  }

  lemma {:induction false} StageFollows(c: Client, script: seq<WriteOutcome>, data: seq<byte>)
    requires Runnable(c) && c.buf.prevRead < c.buf.read && c.buf.data == data
    ensures var (p, reply) := ParseReply(c.parser, data); Follows(ParseStage(c, script), p, reply)
  {
    assert data[..c.buf.read] == data;
  }

  // What the event makes of a connection whose stream goes on with this message, from the
  // frames that are then complete: nothing yet, the message, or the end.
  predicate Decides(text: bool, frags: seq<Fragment>, k: nat, r: Stage)
    requires k <= |frags|
  {
    match FateOf(text, [], frags[..k])
    case Bursts => r.Crash?
    case Invalid => r.Drop?
    case Joined(content) =>
      if k == |frags| then r.Deliver? && r.msg == Build(text, content)
      else r.Go? && r.c.parser.incoming == (if k == 0 then None else Some(Build(text, content)))
  }

  lemma {:induction false} FragmentsDecide(
      cfg: Config, c: Client, io: Io, text: bool, frags: seq<Fragment>, tail: seq<byte>)
    requires Runnable(c) && Reaches(cfg, c, io) && c.parser.incoming == None
    requires Writable(frags) && frags != []
    requires c.buf.data + Taken(io.chunks) <= MessageBytes(if text then Text else Binary, frags) + tail
    ensures var data := c.buf.data + Taken(io.chunks);
            Decides(text, frags, Complete(if text then Text else Binary, frags, |data|), Handle(cfg, c, io))
  {
    var op := if text then Text else Binary;
    var data := c.buf.data + Taken(io.chunks);
    ReachedFollows(cfg, c, io);
    PartParses(text, None, op, frags, data, tail);
    assert data[0..] == data;
    ReplyDecides(text, frags, Complete(op, frags, |data|), Handle(cfg, c, io), c.parser, data);
  }

  lemma {:induction false} ReplyDecides(text: bool, frags: seq<Fragment>, k: nat, r: Stage, p: ParserState, data: seq<byte>)
    requires k <= |frags| && p == ParserState(None, 0) && data[0..] == data
    requires Comes(text, None, frags, k, ParseMessage(None, data))
    requires Follows(r, ParseReply(p, data).0, ParseReply(p, data).1)
    ensures Decides(text, frags, k, r)
  {
  }

  // ---------------------------------------------------------------- a message half folded

  // A folded part of a message, and its bytes still unread.
  predicate Held(c: Client) {
    c.parser.incoming.Some? && !c.tlsHandshaking && !c.isHandshaking && c.buf.prevRead < c.buf.read
  }

  // The parser holds something only with those bytes unread.
  predicate Unread(c: Client) {
    c.parser.incoming.Some? ==> Held(c)
  }

  // The next readable event is the end of such a connection, whatever it brings: the parser
  // reads the first frame again and reports CUTTING_IN. Under the source's write it may be a
  // panic instead.
  lemma {:induction false} HeldEnds(cfg: Config, c: Client, io: Io)
    requires Runnable(c) && Conserved(c) && Held(c) && io.readable
    ensures var r := Handle(cfg, c, io); r.Drop? || (cfg.form.Literal? && r.Crash?)
  {
    WriteMarks(c, io.script);
    var w := if io.writable then WriteStage(c, io.script) else Go(c, io.script);
    if w.Go? {
      AppendReads(cfg, w.c, io, w.script);
      var r := ReadStage(cfg, w.c, io, w.script);
      if r.Go? {
        ReadMarks(cfg, w.c, io, w.script);
        StillOpened(c.buf.data, Taken(io.chunks));
        HeldCutsIn(r.c.parser, r.c.buf.data);
        StageFollows(r.c, r.script, r.c.buf.data);
      }
    }
  }

  lemma {:induction false} AppendReads(cfg: Config, c: Client, io: Io, script: seq<WriteOutcome>)
    requires Runnable(c)
    ensures var r := ReadStage(cfg, c, io, script);
            r.Go? || r.Drop? || (cfg.form.Literal? && r.Crash?)
  {
    if cfg.form.Append? {
      AppendFills(c.buf, io.chunks);
    }
  }

  lemma {:induction false} StillOpened(data: seq<byte>, more: seq<byte>)
    requires Opened(data)
    ensures Opened(data + more)
  {
    ReadFrameStable(data, more);
  }

  // Any other event leaves it as it is, or drops it.
  lemma {:induction false} HeldStays(cfg: Config, c: Client, io: Io)
    requires Runnable(c) && Held(c) && !io.readable
    ensures var r := Handle(cfg, c, io); r.Drop? || (r.Stay? && Held(r.c))
  {
    WriteMarks(c, io.script);
  }

  // ---------------------------------------------------------------- how it comes to hold

  lemma {:induction false} HandleUnread(cfg: Config, c: Client, io: Io)
    requires Runnable(c) && Ordered(cfg, c) && Conserved(c) && Unread(c)
    ensures var r := Handle(cfg, c, io); r.Go? || r.Stay? || r.Deliver? ==> Unread(r.c)
  {
    HandleKeeps(cfg, c, io);
    if c.parser.incoming.Some? {
      if io.readable { HeldEnds(cfg, c, io); } else { HeldStays(cfg, c, io); }
    } else if !c.tlsHandshaking && !c.isHandshaking {
      FreeUnread(cfg, c, io);
    } else {
      HandshakeUnread(cfg, c, io);
    }
  }

  lemma {:induction false} FreeUnread(cfg: Config, c: Client, io: Io)
    requires Runnable(c) && !c.tlsHandshaking && !c.isHandshaking && c.parser.incoming == None
    ensures var r := Handle(cfg, c, io); r.Go? || r.Stay? || r.Deliver? ==> Unread(r.c)
  {
    WriteMarks(c, io.script);
    WriteSame(c, io.script);
    var w := if io.writable then WriteStage(c, io.script) else Go(c, io.script);
    if w.Go? && io.readable {
      ReadAppends(cfg, w.c, io, w.script);
      var r := ReadStage(cfg, w.c, io, w.script);
      if r.Go? { ParseUnread(r.c, r.script); }
    }
  }

  lemma {:induction false} WriteSame(c: Client, script: seq<WriteOutcome>)
    requires Runnable(c)
    ensures WriteStage(c, script).c.tlsHandshaking == c.tlsHandshaking
  {
  }

  lemma {:induction false} ParseUnread(c: Client, script: seq<WriteOutcome>)
    requires Runnable(c) && !c.tlsHandshaking && !c.isHandshaking && c.parser.incoming == None
    ensures var r := ParseStage(c, script); r.Go? || r.Stay? || r.Deliver? ==> Unread(r.c)
  {
    if ParseStage(c, script).Deliver? {
      DeliverShape(c, script);
    } else {
      OtherShape(c, script);
    }
  }

  lemma {:induction false} HandshakeUnread(cfg: Config, c: Client, io: Io)
    requires Runnable(c) && Ordered(cfg, c) && Conserved(c) && (c.tlsHandshaking || c.isHandshaking)
    ensures var r := Handle(cfg, c, io); r.Go? || r.Stay? || r.Deliver? ==> Unread(r.c)
  {
    if !c.tlsHandshaking {
      WriteMarks(c, io.script);
      WriteKeeps(cfg, c, io.script);
      var w := if io.writable then WriteStage(c, io.script) else Go(c, io.script);
      if w.Go? {
        ReadKeeps(cfg, w.c, io, w.script);
        var r := if io.readable then ReadStage(cfg, w.c, io, w.script) else w;
        if r.Go? { ShakingUnread(cfg, r.c, r.script); }
      }
    }
  }

  lemma {:induction false} ShakingUnread(cfg: Config, c: Client, script: seq<WriteOutcome>)
    requires Runnable(c) && Ordered(cfg, c) && Conserved(c) && c.isHandshaking
    ensures HandshakeStage(cfg, c, script).c.parser.incoming == None
    decreases Ahead(c.handshaker)
  {
    var (d, reply) := Shaken(c, cfg.accept);
    ShakenSame(cfg, c);
    HandshakeUnrolls(cfg, c, script, d, reply);
    if reply.Progress? && reply.status.Responding? && Answered(d, script).2.Done? {
      ShakenHas(cfg, c);
      CountedParser(cfg, Answered(d, script).0, Answered(d, script).1);
    }
  }

  lemma {:induction false} CountedParser(cfg: Config, c: Client, script: seq<WriteOutcome>)
    requires Runnable(c) && c.handshaker.buf != [] && c.handshaker.bytesWrit == |c.handshaker.buf|
    ensures HandshakeStage(cfg, c, script).c.parser == c.parser
  {
    var (d, reply) := Shaken(c, cfg.accept);
    ShakenSame(cfg, c);
    HandshakeUnrolls(cfg, c, script, d, reply);
  }

  // ---------------------------------------------------------------- whole runs

  predicate AllUnread(s: Server) {
    forall id | id in s.clients :: Unread(s.clients[id])
  }

  lemma {:induction false} SettleUnread(s: Server, id: StreamId, r: Stage)
    requires AllUnread(s) && id in s.clients && !r.Crash?
    requires r.Go? || r.Stay? || r.Deliver? ==> Unread(r.c)
    ensures AllUnread(Settle(s, id, r).value)
  {
  }

  lemma {:induction false} SendUnread(c: Client, msg: Message, script: seq<WriteOutcome>)
    requires Runnable(c) && Sized(msg)
    ensures var d := SendStage(c, msg, script).c; (Unread(c) ==> Unread(d)) && (Held(c) ==> Held(d))
  {
  }

  lemma {:induction false} StepUnread(cfg: Config, s: Server, e: Event)
    requires Ready(s) && AllKept(cfg, s) && AllUnread(s) && Step(cfg, s, e).Some?
    ensures AllUnread(Step(cfg, s, e).value)
  {
    match e
    case Accepted(id) =>
    case Popped =>
    case Polled(id, io) =>
      HandleUnread(cfg, s.clients[id], io);
      SettleUnread(s, id, Handle(cfg, s.clients[id], io));
    case Sent(id, msg, script) =>
      SendUnread(s.clients[id], msg, script);
      SettleUnread(s, id, SendStage(s.clients[id], msg, script));
  }

  lemma {:induction false} RunUnread(cfg: Config, s: Server, events: seq<Event>)
    requires Ready(s) && AllKept(cfg, s) && AllUnread(s) && Run(cfg, s, events).Some?
    ensures AllUnread(Run(cfg, s, events).value)
    decreases |events|
  {
    if events != [] {
      StepKeeps(cfg, s, events[0]);
      StepUnread(cfg, s, events[0]);
      RunUnread(cfg, Step(cfg, s, events[0]).value, events[1..]);
    }
  }

  predicate Readable(e: Event, id: StreamId) {
    e.Polled? && e.id == id && e.io.readable
  }

  // Between two states nothing more of this client is delivered, and a readable event of it
  // (there was one if ended) has taken it away; otherwise it may still be there, and holds.
  ghost predicate Stuck(s: Server, t: Server, id: StreamId, ended: bool) {
    && SaidBy(t.log, id) == SaidBy(s.log, id)
    && (id in t.clients ==> !ended && Held(t.clients[id]))
    && (id !in t.clients ==> WasDropped(t, id))
  }

  lemma {:induction false} SettleStuck(s: Server, other: StreamId, r: Stage, id: StreamId, ended: bool)
    requires id in s.clients && Held(s.clients[id]) && other in s.clients && !r.Crash?
    requires other == id ==> r.Drop? || (!ended && r.Stay? && Held(r.c))
    requires other != id ==> !ended
    ensures Stuck(s, Settle(s, other, r).value, id, ended)
  {
    var t := Settle(s, other, r).value;
    if r.Deliver? {
      SaidSnoc(s.log, SentMessage(other, r.msg), id);
    }
    if r.Drop? || r.TlsDrop? {
      GoneStays(s, other, r.c);
      assert t.gone[|s.gone|] == (other, r.c);
      assert t.gone[|s.gone|].0 == other;
    }
  }

  // What the connection's own event makes of it.
  lemma {:induction false} HeldStage(cfg: Config, c: Client, io: Io)
    requires Runnable(c) && Conserved(c) && Held(c) && !Handle(cfg, c, io).Crash?
    ensures var r := Handle(cfg, c, io); r.Drop? || (!io.readable && r.Stay? && Held(r.c))
  {
    if io.readable { HeldEnds(cfg, c, io); } else { HeldStays(cfg, c, io); }
  }

  lemma {:induction false} PolledSettles(cfg: Config, s: Server, other: StreamId, io: Io)
    requires Ready(s) && other in s.clients && Step(cfg, s, Polled(other, io)).Some?
    ensures var r := Handle(cfg, s.clients[other], io);
            !r.Crash? && Step(cfg, s, Polled(other, io)) == Settle(s, other, r)
  {
  }

  lemma {:induction false} PolledStuck(cfg: Config, s: Server, other: StreamId, io: Io, id: StreamId)
    requires Ready(s) && AllKept(cfg, s) && id in s.clients && Held(s.clients[id])
    requires other in s.clients && Step(cfg, s, Polled(other, io)).Some?
    ensures Stuck(s, Step(cfg, s, Polled(other, io)).value, id, other == id && io.readable)
  {
    PolledSettles(cfg, s, other, io);
    if other == id {
      HeldStage(cfg, s.clients[id], io);
    }
    SettleStuck(s, other, Handle(cfg, s.clients[other], io), id, other == id && io.readable);
  }

  lemma {:induction false} SentStuck(cfg: Config, s: Server, other: StreamId, msg: Message, script: seq<WriteOutcome>, id: StreamId)
    requires Ready(s) && id in s.clients && Held(s.clients[id])
    requires Step(cfg, s, Sent(other, msg, script)).Some?
    ensures Stuck(s, Step(cfg, s, Sent(other, msg, script)).value, id, false)
  {
    SendUnread(s.clients[other], msg, script);
    SettleStuck(s, other, SendStage(s.clients[other], msg, script), id, false);
  }

  lemma {:induction false} OtherStuck(cfg: Config, s: Server, other: StreamId, id: StreamId)
    requires Ready(s) && id in s.clients && Held(s.clients[id])
    ensures Stuck(s, Step(cfg, s, Accepted(other)).value, id, false) && Stuck(s, Pop(s), id, false)
  {
    if s.queued != [] {
      SaidSnoc(s.log, Disconnected(s.queued[|s.queued| - 1]), id);
    }
  }

  lemma {:induction false} StepStuck(cfg: Config, s: Server, e: Event, id: StreamId)
    requires Ready(s) && AllKept(cfg, s) && id in s.clients && Held(s.clients[id]) && Step(cfg, s, e).Some?
    ensures Stuck(s, Step(cfg, s, e).value, id, Readable(e, id))
  {
    match e
    case Accepted(other) => OtherStuck(cfg, s, other, id);
    case Popped => OtherStuck(cfg, s, 0, id);
    case Polled(other, io) => PolledStuck(cfg, s, other, io, id);
    case Sent(other, msg, script) => SentStuck(cfg, s, other, msg, script, id);
  }

  // A client that is gone says nothing more, and does not come back.
  lemma {:induction false} StepGone(cfg: Config, s: Server, e: Event, id: StreamId)
    requires Ready(s) && id !in s.clients && WasDropped(s, id) && NewId(s, e) && Step(cfg, s, e).Some?
    ensures var t := Step(cfg, s, e).value;
            id !in t.clients && WasDropped(t, id) && SaidBy(t.log, id) == SaidBy(s.log, id)
  {
    match e
    case Accepted(other) =>
      var t := Step(cfg, s, e).value;
      assert t.gone == s.gone;
      StillDropped(s, t, id);
    case Popped =>
      if s.queued != [] { SaidSnoc(s.log, Disconnected(s.queued[|s.queued| - 1]), id); }
      StillDropped(s, Pop(s), id);
    case Polled(other, io) => SettleGone(s, other, Handle(cfg, s.clients[other], io), id);
    case Sent(other, msg, script) => SettleGone(s, other, SendStage(s.clients[other], msg, script), id);
  }

  lemma {:induction false} StillDropped(s: Server, t: Server, id: StreamId)
    requires WasDropped(s, id) && s.gone <= t.gone
    ensures WasDropped(t, id)
  {
    var k :| 0 <= k < |s.gone| && s.gone[k].0 == id;
    assert t.gone[k].0 == id;
  }

  lemma {:induction false} SettleGone(s: Server, other: StreamId, r: Stage, id: StreamId)
    requires id !in s.clients && WasDropped(s, id) && other in s.clients && !r.Crash?
    ensures var t := Settle(s, other, r).value;
            id !in t.clients && WasDropped(t, id) && SaidBy(t.log, id) == SaidBy(s.log, id)
  {
    StillDropped(s, Settle(s, other, r).value, id);
    if r.Deliver? {
      SaidSnoc(s.log, SentMessage(other, r.msg), id);
    }
  }

  predicate SomeReadable(events: seq<Event>, id: StreamId) {
    exists i | 0 <= i < |events| :: Readable(events[i], id)
  }

  lemma {:induction false} RunGone(cfg: Config, s: Server, events: seq<Event>, id: StreamId)
    requires Ready(s) && id !in s.clients && WasDropped(s, id) && AllNew(cfg, s, events) && Run(cfg, s, events).Some?
    ensures var t := Run(cfg, s, events).value;
            id !in t.clients && WasDropped(t, id) && SaidBy(t.log, id) == SaidBy(s.log, id)
    decreases |events|
  {
    if events != [] {
      StepGone(cfg, s, events[0], id);
      RunGone(cfg, Step(cfg, s, events[0]).value, events[1..], id);
    }
  }

  lemma {:induction false} ReadableStep(events: seq<Event>, id: StreamId)
    requires events != []
    ensures SomeReadable(events, id) == (Readable(events[0], id) || SomeReadable(events[1..], id))
  {
    assert forall i | 1 <= i < |events| :: events[i] == events[1..][i - 1];
    if i :| 0 <= i < |events[1..]| && Readable(events[1..][i], id) {
      assert events[i + 1] == events[1..][i];
    }
  }

  lemma {:induction false} StuckOn(s: Server, t: Server, u: Server, id: StreamId, now: bool, later: bool)
    requires Stuck(s, t, id, now)
    requires if id in t.clients then Stuck(t, u, id, later)
             else id !in u.clients && WasDropped(u, id) && SaidBy(u.log, id) == SaidBy(t.log, id)
    ensures Stuck(s, u, id, now || later)
  {
  }

  // Over any events with new ids: a connection that holds a part of a message delivers
  // nothing more, and its first readable event ends it.
  lemma {:induction false} RunStuck(cfg: Config, s: Server, events: seq<Event>, id: StreamId)
    requires Ready(s) && AllKept(cfg, s) && id in s.clients && Held(s.clients[id])
    requires AllNew(cfg, s, events) && Run(cfg, s, events).Some?
    ensures Stuck(s, Run(cfg, s, events).value, id, SomeReadable(events, id))
    decreases |events|
  {
    if events != [] {
      var t := Step(cfg, s, events[0]).value;
      StepKeeps(cfg, s, events[0]);
      StepStuck(cfg, s, events[0], id);
      ReadableStep(events, id);
      if id in t.clients {
        RunStuck(cfg, t, events[1..], id);
      } else {
        RunGone(cfg, t, events[1..], id);
      }
      StuckOn(s, t, Run(cfg, t, events[1..]).value, id, Readable(events[0], id), SomeReadable(events[1..], id));
    }
  }

  // What the later events can still do for a connection that holds.
  ghost predicate Ended(cfg: Config, t: Server, later: seq<Event>, id: StreamId)
    requires Ready(t)
  {
    AllNew(cfg, t, later) && Run(cfg, t, later).Some? ==>
      Stuck(t, Run(cfg, t, later).value, id, SomeReadable(later, id))
  }

  lemma {:induction false} HeldIsEnded(cfg: Config, t: Server, later: seq<Event>, id: StreamId)
    requires Ready(t) && AllKept(cfg, t) && AllUnread(t)
    requires id in t.clients && t.clients[id].parser.incoming.Some?
    ensures Ended(cfg, t, later, id)
  {
    if AllNew(cfg, t, later) && Run(cfg, t, later).Some? { RunStuck(cfg, t, later, id); }
  }

  // From any reachable server: the next bytes of a connection belong to a message in frames.
  // If with this event the first frame is complete and the last is not, and what is complete
  // joins, nothing more is ever delivered for it and its next readable event ends it. If the
  // last is complete too, the message is delivered now; if what is complete does not join,
  // the client is dropped or the server panics now; and before the first is complete the
  // event leaves nothing behind but bytes.
  lemma {:induction false} FragmentsInRun(
      cfg: Config, past: seq<Event>, id: StreamId, io: Io, later: seq<Event>, text: bool, frags: seq<Fragment>, tail: seq<byte>)
    requires Run(cfg, NEW_SERVER, past).Some? && id in Run(cfg, NEW_SERVER, past).value.clients
    requires var c := Run(cfg, NEW_SERVER, past).value.clients[id];
             && Reaches(cfg, c, io) && c.parser.incoming == None && Writable(frags) && frags != []
             && c.buf.data + Taken(io.chunks) <= MessageBytes(if text then Text else Binary, frags) + tail
    ensures var s := Run(cfg, NEW_SERVER, past).value;
            var k := Complete(if text then Text else Binary, frags, |s.clients[id].buf.data + Taken(io.chunks)|);
            var t := Step(cfg, s, Polled(id, io));
            && Decided(s, t, id, text, frags, k)
            && (0 < k < |frags| && AllJoin(text, 0, frags[..k]) ==> t.Some? && Ended(cfg, t.value, later, id))
  {
    var s := Run(cfg, NEW_SERVER, past).value;
    RunKeeps(cfg, NEW_SERVER, past);
    RunUnread(cfg, NEW_SERVER, past);
    var k := Complete(if text then Text else Binary, frags, |s.clients[id].buf.data + Taken(io.chunks)|);
    EventDecides(cfg, s, id, io, text, frags, tail);
    FateExact(text, [], frags[..k]);
    if 0 < k < |frags| && AllJoin(text, 0, frags[..k]) {
      StepKeeps(cfg, s, Polled(id, io));
      StepUnread(cfg, s, Polled(id, io));
      HeldIsEnded(cfg, Step(cfg, s, Polled(id, io)).value, later, id);
    }
  }

  lemma {:induction false} EventDecides(
      cfg: Config, s: Server, id: StreamId, io: Io, text: bool, frags: seq<Fragment>, tail: seq<byte>)
    requires Ready(s) && id in s.clients && Reaches(cfg, s.clients[id], io) && s.clients[id].parser.incoming == None
    requires Writable(frags) && frags != []
    requires s.clients[id].buf.data + Taken(io.chunks) <= MessageBytes(if text then Text else Binary, frags) + tail
    ensures var k := Complete(if text then Text else Binary, frags, |s.clients[id].buf.data + Taken(io.chunks)|);
            Decided(s, Step(cfg, s, Polled(id, io)), id, text, frags, k)
  {
    FragmentsDecide(cfg, s.clients[id], io, text, frags, tail);
    var k := Complete(if text then Text else Binary, frags, |s.clients[id].buf.data + Taken(io.chunks)|);
    DecidedBy(s, id, text, frags, k, Handle(cfg, s.clients[id], io));
    assert Step(cfg, s, Polled(id, io)) == Settle(s, id, Handle(cfg, s.clients[id], io));
  }

  // What the event has made of the server.
  predicate Decided(s: Server, t: Option<Server>, id: StreamId, text: bool, frags: seq<Fragment>, k: nat)
    requires k <= |frags|
  {
    match FateOf(text, [], frags[..k])
    case Bursts => t == None
    case Invalid => t.Some? && id !in t.value.clients && t.value.log == s.log
    case Joined(content) =>
      && t.Some? && id in t.value.clients
      && if k == |frags| then t.value.log == s.log + [SentMessage(id, Build(text, content))]
         else
           && t.value.log == s.log
           && t.value.clients[id].parser.incoming == if k == 0 then None else Some(Build(text, content))
  }

  lemma {:induction false} DecidedBy(s: Server, id: StreamId, text: bool, frags: seq<Fragment>, k: nat, r: Stage)
    requires k <= |frags| && Decides(text, frags, k, r)
    ensures Decided(s, Settle(s, id, r), id, text, frags, k)
  {
  }
}
