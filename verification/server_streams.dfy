// End to end: what a client's stream carries in each direction, over whole runs.
module ServerStreams {
  import opened Bytes
  import opened WsParsing
  import opened WsResuming
  import opened Messaging
  import opened Output
  import opened ServerSteps
  import opened ServerClients
  import opened ServerWire
  import opened ServerRuns
  import opened ServerHistories
  import HttpRequests
  import HttpIncremental

  // ---------------------------------------------------------------- the application's part

  // It sends only to ids it has heard from.
  predicate Heard(s: Server, e: Event) {
    e.Sent? ==> SaidBy(s.log, e.id) != []
  }

  // It replaces a messenger only between frames.
  predicate BetweenFrames(s: Server, e: Event)
    requires Ready(s)
  {
    e.Sent? && e.id in s.clients ==> AtBoundary(Outbound(s.clients[e.id].msg, s.clients[e.id].writ))
  }

  predicate AtBoundary(x: Outbound)
    requires Begun(x)
  {
    x.writ == 0 || x.writ == |Encode(x.msg)|
  }

  predicate AllHeard(cfg: Config, s: Server, events: seq<Event>)
    requires Ready(s)
    decreases |events|
  {
    events != [] ==>
      && Heard(s, events[0])
      && (Step(cfg, s, events[0]).Some? ==> AllHeard(cfg, Step(cfg, s, events[0]).value, events[1..]))
  }

  predicate AllBetween(cfg: Config, s: Server, events: seq<Event>)
    requires Ready(s)
    decreases |events|
  {
    events != [] ==>
      && BetweenFrames(s, events[0])
      && (Step(cfg, s, events[0]).Some? ==> AllBetween(cfg, Step(cfg, s, events[0]).value, events[1..]))
  }

  // ---------------------------------------------------------------- every wire, byte for byte

  predicate AllWires(s: Server)
    requires Ready(s)
  {
    && (forall id | id in s.clients :: WireExact(s.clients[id]))
    && (forall k | 0 <= k < |s.gone| :: Runnable(s.gone[k].1) && WireExact(s.gone[k].1))
  }

  lemma {:induction false} HeardIsDone(cfg: Config, s: Server, id: StreamId)
    requires AllKept(cfg, s) && Logged(s) && id in s.clients && SaidBy(s.log, id) != []
    ensures !s.clients[id].isHandshaking
  {
    assert Messages(s.clients[id].trace.inbound) != [];
  }

  lemma {:induction false} SendExact(c: Client, msg: Message, script: seq<WriteOutcome>)
    requires Runnable(c) && WireExact(c) && !c.isHandshaking && Sized(msg)
    ensures var d := SendStage(c, msg, script).c;
            WireExact(d) && Given(d) == Given(c) + [msg]
            && d.trace.retired == c.trace.retired + [Outbound(c.msg, c.writ)]
  {
    ReplacedExact(c, msg);
    SendMessagesExact(Replaced(c, msg), script);
    SendMessagesShape(Replaced(c, msg), script);
  }

  lemma {:induction false} SettleWires(s: Server, id: StreamId, r: Stage)
    requires Ready(s) && AllWires(s) && id in s.clients && !r.Crash? && Runnable(r.c) && WireExact(r.c)
    ensures Ready(Settle(s, id, r).value) && AllWires(Settle(s, id, r).value)
  {
  }

  lemma {:induction false} PolledWires(cfg: Config, s: Server, id: StreamId, io: Io)
    requires Ready(s) && AllWires(s) && id in s.clients
    requires Ordered(cfg, s.clients[id]) && Conserved(s.clients[id])
    ensures var t := Step(cfg, s, Polled(id, io)); t.Some? ==> AllWires(t.value)
  {
    HandleExact(cfg, s.clients[id], io);
    var r := Handle(cfg, s.clients[id], io);
    if !r.Crash? {
      SettleWires(s, id, r);
    }
  }

  lemma {:induction false} SentWires(cfg: Config, s: Server, id: StreamId, msg: Message, script: seq<WriteOutcome>)
    requires Ready(s) && AllWires(s) && id in s.clients && !s.clients[id].isHandshaking && Sized(msg)
    ensures AllWires(Step(cfg, s, Sent(id, msg, script)).value)
  {
    SendExact(s.clients[id], msg, script);
    SettleWires(s, id, SendStage(s.clients[id], msg, script));
  }

  lemma {:induction false} StepWires(cfg: Config, s: Server, e: Event)
    requires Ready(s) && AllKept(cfg, s) && Logged(s) && AllWires(s) && Heard(s, e)
    ensures Step(cfg, s, e).Some? ==> AllWires(Step(cfg, s, e).value)
  {
    match e
    case Accepted(id) => assert WireExact(NEW_CLIENT);
    case Popped =>
    case Polled(id, io) =>
      if id in s.clients {
        PolledWires(cfg, s, id, io);
      }
    case Sent(id, msg, script) =>
      if id in s.clients && Sized(msg) {
        HeardIsDone(cfg, s, id);
        SentWires(cfg, s, id, msg, script);
      }
  }

  // ---------------------------------------------------------------- what was given to send

  function SentTo(events: seq<Event>, id: StreamId): seq<Message> {
    if events == [] then []
    else
      var e := events[|events| - 1];
      SentTo(events[..|events| - 1], id) + if e.Sent? && e.id == id then [e.msg] else []
  }

  lemma {:induction false} SentSnoc(events: seq<Event>, e: Event, id: StreamId)
    ensures SentTo(events + [e], id) == SentTo(events, id) + if e.Sent? && e.id == id then [e.msg] else []
  {
    assert (events + [e])[..|events|] == events;
  }

  // A messenger was given the default message and then what the application sent.
  ghost predicate AllGiven(s: Server, past: seq<Event>) {
    && (forall id | id in s.clients :: Given(s.clients[id]) == [DEFAULT_MESSAGE] + SentTo(past, id))
    && (forall k | 0 <= k < |s.gone| :: Given(s.gone[k].1) == [DEFAULT_MESSAGE] + SentTo(past, s.gone[k].0))
    && (forall id :: id !in s.clients && !WasDropped(s, id) ==> SentTo(past, id) == [])
  }

  // Between past and now only id may have been sent to.
  ghost predicate OnlyTo(past: seq<Event>, now: seq<Event>, id: StreamId) {
    forall j :: j != id ==> SentTo(now, j) == SentTo(past, j)
  }

  lemma {:induction false} KeepGiven(s: Server, t: Server, past: seq<Event>, now: seq<Event>, id: StreamId, c: Client)
    requires AllGiven(s, past) && id in s.clients && NoneReused(s) && OnlyTo(past, now, id)
    requires t.clients == s.clients[id := c] && t.gone == s.gone
    requires Given(c) == [DEFAULT_MESSAGE] + SentTo(now, id)
    ensures AllGiven(t, now)
  {
    assert forall j :: WasDropped(t, j) <==> WasDropped(s, j);
  }

  lemma {:induction false} DropGivenGone(s: Server, t: Server, past: seq<Event>, now: seq<Event>, id: StreamId, c: Client, k: nat)
    requires AllGiven(s, past) && id in s.clients && NoneReused(s) && OnlyTo(past, now, id)
    requires t.gone == s.gone + [(id, c)] && k < |t.gone|
    requires Given(c) == [DEFAULT_MESSAGE] + SentTo(now, id)
    ensures Given(t.gone[k].1) == [DEFAULT_MESSAGE] + SentTo(now, t.gone[k].0)
  {
    if k < |s.gone| {
      assert t.gone[k] == s.gone[k] && s.gone[k].0 != id;
    }
  }

  lemma {:induction false} DropGivenOthers(s: Server, t: Server, past: seq<Event>, now: seq<Event>, id: StreamId, j: StreamId)
    requires AllGiven(s, past) && id in s.clients && OnlyTo(past, now, id)
    requires t.clients == s.clients - {id}
    requires WasDropped(t, j) <==> WasDropped(s, j) || j == id
    ensures j in t.clients ==> Given(t.clients[j]) == [DEFAULT_MESSAGE] + SentTo(now, j)
    ensures j !in t.clients && !WasDropped(t, j) ==> SentTo(now, j) == []
  {
  }

  lemma {:induction false} DropGiven(s: Server, t: Server, past: seq<Event>, now: seq<Event>, id: StreamId, c: Client)
    requires AllGiven(s, past) && id in s.clients && NoneReused(s) && OnlyTo(past, now, id)
    requires t.clients == s.clients - {id} && t.gone == s.gone + [(id, c)]
    requires forall j :: WasDropped(t, j) <==> WasDropped(s, j) || j == id
    requires Given(c) == [DEFAULT_MESSAGE] + SentTo(now, id)
    ensures AllGiven(t, now)
  {
    forall k | 0 <= k < |t.gone|
      ensures Given(t.gone[k].1) == [DEFAULT_MESSAGE] + SentTo(now, t.gone[k].0)
    {
      DropGivenGone(s, t, past, now, id, c, k);
    }
    forall j: StreamId
      ensures j in t.clients ==> Given(t.clients[j]) == [DEFAULT_MESSAGE] + SentTo(now, j)
      ensures j !in t.clients && !WasDropped(t, j) ==> SentTo(now, j) == []
    {
      DropGivenOthers(s, t, past, now, id, j);
    }
  }

  lemma {:induction false} SettleGiven(s: Server, past: seq<Event>, now: seq<Event>, id: StreamId, r: Stage)
    requires NoneReused(s) && AllGiven(s, past) && id in s.clients && !r.Crash? && OnlyTo(past, now, id)
    requires Given(r.c) == [DEFAULT_MESSAGE] + SentTo(now, id)
    ensures AllGiven(Settle(s, id, r).value, now)
  {
    SettleNoneReused(s, id, r);
    var t := Settle(s, id, r).value;
    if r.Drop? || r.TlsDrop? {
      DropGiven(s, t, past, now, id, r.c);
    } else {
      KeepGiven(s, t, past, now, id, r.c);
    }
  }

  lemma {:induction false} EventGiven(s: Server, past: seq<Event>, now: seq<Event>, id: StreamId, r: Stage)
    requires NoneReused(s) && AllGiven(s, past) && NoneTo(past, now) && id in s.clients
    requires !r.Crash? ==> Given(r.c) == Given(s.clients[id])
    ensures Settle(s, id, r).Some? ==> AllGiven(Settle(s, id, r).value, now)
  {
    if !r.Crash? { SettleGiven(s, past, now, id, r); }
  }

  lemma {:induction false} PolledGiven(cfg: Config, s: Server, past: seq<Event>, now: seq<Event>, id: StreamId, io: Io)
    requires Ready(s) && NoneReused(s) && AllGiven(s, past) && NoneTo(past, now) && id in s.clients
    requires WireExact(s.clients[id]) && Ordered(cfg, s.clients[id]) && Conserved(s.clients[id])
    ensures var t := Step(cfg, s, Polled(id, io)); t.Some? ==> AllGiven(t.value, now)
  {
    HandleExact(cfg, s.clients[id], io);
    EventGiven(s, past, now, id, Handle(cfg, s.clients[id], io));
  }

  lemma {:induction false} MessageGiven(s: Server, past: seq<Event>, now: seq<Event>, id: StreamId, c: Client, msg: Message)
    requires AllGiven(s, past) && id in s.clients && SentTo(now, id) == SentTo(past, id) + [msg]
    requires Given(c) == Given(s.clients[id]) + [msg]
    ensures Given(c) == [DEFAULT_MESSAGE] + SentTo(now, id)
  {
  }

  lemma {:induction false} SentGiven(s: Server, past: seq<Event>, now: seq<Event>, id: StreamId, msg: Message, script: seq<WriteOutcome>)
    requires Ready(s) && NoneReused(s) && AllGiven(s, past)
    requires id in s.clients && WireExact(s.clients[id]) && !s.clients[id].isHandshaking && Sized(msg)
    requires OnlyTo(past, now, id) && SentTo(now, id) == SentTo(past, id) + [msg]
    ensures AllGiven(Settle(s, id, SendStage(s.clients[id], msg, script)).value, now)
  {
    SendGiven(s, past, now, id, msg, script);
    SettleGiven(s, past, now, id, SendStage(s.clients[id], msg, script));
  }

  lemma {:induction false} SentStepGiven(cfg: Config, s: Server, past: seq<Event>, now: seq<Event>, id: StreamId, msg: Message, script: seq<WriteOutcome>)
    requires Ready(s) && NoneReused(s) && AllGiven(s, past)
    requires id in s.clients && WireExact(s.clients[id]) && !s.clients[id].isHandshaking && Sized(msg)
    requires OnlyTo(past, now, id) && SentTo(now, id) == SentTo(past, id) + [msg]
    ensures AllGiven(Step(cfg, s, Sent(id, msg, script)).value, now)
  {
    SentSettles(cfg, s, id, msg, script);
    SentGiven(s, past, now, id, msg, script);
  }

  lemma {:induction false} SentSettles(cfg: Config, s: Server, id: StreamId, msg: Message, script: seq<WriteOutcome>)
    requires Ready(s) && id in s.clients && Sized(msg)
    ensures Step(cfg, s, Sent(id, msg, script)) == Settle(s, id, SendStage(s.clients[id], msg, script))
    ensures Step(cfg, s, Sent(id, msg, script)).Some?
  {
  }

  lemma {:induction false} SendGiven(s: Server, past: seq<Event>, now: seq<Event>, id: StreamId, msg: Message, script: seq<WriteOutcome>)
    requires Ready(s) && AllGiven(s, past)
    requires id in s.clients && WireExact(s.clients[id]) && !s.clients[id].isHandshaking && Sized(msg)
    requires SentTo(now, id) == SentTo(past, id) + [msg]
    ensures Given(SendStage(s.clients[id], msg, script).c) == [DEFAULT_MESSAGE] + SentTo(now, id)
  {
    SendExact(s.clients[id], msg, script);
    MessageGiven(s, past, now, id, SendStage(s.clients[id], msg, script).c, msg);
  }

  lemma {:induction false} PoppedGiven(s: Server, past: seq<Event>, now: seq<Event>)
    requires AllGiven(s, past) && NoneTo(past, now)
    ensures AllGiven(Pop(s), now)
  {
    assert forall j :: WasDropped(Pop(s), j) <==> WasDropped(s, j);
  }

  ghost predicate NoneTo(past: seq<Event>, now: seq<Event>) {
    forall j :: SentTo(now, j) == SentTo(past, j)
  }

  lemma {:induction false} Recorded(past: seq<Event>, e: Event)
    ensures !e.Sent? ==> NoneTo(past, past + [e])
    ensures e.Sent? ==> OnlyTo(past, past + [e], e.id) && SentTo(past + [e], e.id) == SentTo(past, e.id) + [e.msg]
  {
    forall j ensures SentTo(past + [e], j) == SentTo(past, j) + if e.Sent? && e.id == j then [e.msg] else [] {
      SentSnoc(past, e, j);
    }
  }

  lemma {:induction false} StepGiven(cfg: Config, s: Server, past: seq<Event>, e: Event)
    requires Ready(s) && AllKept(cfg, s) && NoneReused(s) && Logged(s) && AllWires(s)
    requires NewId(s, e) && Heard(s, e) && AllGiven(s, past)
    ensures Step(cfg, s, e).Some? ==> AllGiven(Step(cfg, s, e).value, past + [e])
  {
    Recorded(past, e);
    match e
    case Accepted(id) => AcceptedGiven(cfg, s, past, past + [e], id);
    case Popped => PoppedGiven(s, past, past + [e]);
    case Polled(id, io) =>
      if id in s.clients {
        PolledGiven(cfg, s, past, past + [e], id, io);
      }
    case Sent(id, msg, script) =>
      if id in s.clients && Sized(msg) {
        HeardIsDone(cfg, s, id);
        SentStepGiven(cfg, s, past, past + [e], id, msg, script);
      }
  }

  lemma {:induction false} AcceptedGiven(cfg: Config, s: Server, past: seq<Event>, now: seq<Event>, id: StreamId)
    requires Ready(s) && AllGiven(s, past) && NewId(s, Accepted(id))
    requires NoneTo(past, now)
    ensures AllGiven(Step(cfg, s, Accepted(id)).value, now)
  {
    assert Given(NEW_CLIENT) == [DEFAULT_MESSAGE];
    assert forall j :: WasDropped(Step(cfg, s, Accepted(id)).value, j) <==> WasDropped(s, j);
  }

  lemma {:induction false} RunWires(cfg: Config, s: Server, past: seq<Event>, events: seq<Event>)
    requires Ready(s) && AllKept(cfg, s) && NoneReused(s) && Logged(s) && AllWires(s) && AllGiven(s, past)
    requires AllNew(cfg, s, events) && AllHeard(cfg, s, events)
    ensures Run(cfg, s, events).Some? ==>
              AllWires(Run(cfg, s, events).value) && AllGiven(Run(cfg, s, events).value, past + events)
    decreases |events|
  {
    if events == [] {
      assert past + [] == past;
    } else if Step(cfg, s, events[0]).Some? {
      StepKeeps(cfg, s, events[0]);
      StepLogged(cfg, s, events[0]);
      StepWires(cfg, s, events[0]);
      StepGiven(cfg, s, past, events[0]);
      RunWires(cfg, Step(cfg, s, events[0]).value, past + [events[0]], events[1..]);
      assert past + [events[0]] + events[1..] == past + events;
    }
  }

  // ---------------------------------------------------------------- whole frames

  // Every replaced messenger had written nothing or its whole frame.
  predicate Whole(xs: seq<Outbound>) {
    AllBegun(xs) && forall i | 0 <= i < |xs| :: AtBoundary(xs[i])
  }

  // The replaced messengers that had written their frame.
  function Completed(xs: seq<Outbound>): seq<Message> {
    if xs == [] then [] else (if xs[0].writ > 0 then [xs[0].msg] else []) + Completed(xs[1..])
  }

  predicate AllSized(ms: seq<Message>) {
    forall i | 0 <= i < |ms| :: Sized(ms[i])
  }

  function Frames(ms: seq<Message>): seq<byte>
    requires AllSized(ms)
    decreases |ms|
  {
    if ms == [] then [] else Encode(ms[0]) + Frames(ms[1..])
  }

  lemma {:induction false} WholeParts(xs: seq<Outbound>)
    requires Whole(xs)
    ensures AllSized(Completed(xs)) && Flatten(Parts(xs)) == Frames(Completed(xs))
    decreases |xs|
  {
    if xs != [] {
      assert Begun(xs[0]) && AtBoundary(xs[0]);
      WholeParts(xs[1..]);
      assert Parts(xs)[1..] == Parts(xs[1..]);
      if xs[0].writ > 0 {
        assert Encode(xs[0].msg)[..xs[0].writ] == Encode(xs[0].msg);
        assert Completed(xs)[1..] == Completed(xs[1..]);
      } else {
        assert Completed(xs) == Completed(xs[1..]);
        assert Encode(xs[0].msg)[..0] == [];
      }
    }
  }

  predicate AllWhole(s: Server) {
    && (forall id | id in s.clients :: Whole(s.clients[id].trace.retired))
    && (forall k | 0 <= k < |s.gone| :: Whole(s.gone[k].1.trace.retired))
  }

  lemma {:induction false} SettleWhole(s: Server, id: StreamId, r: Stage)
    requires AllWhole(s) && id in s.clients && !r.Crash? && Whole(r.c.trace.retired)
    ensures AllWhole(Settle(s, id, r).value)
  {
  }

  lemma {:induction false} PolledWhole(cfg: Config, s: Server, id: StreamId, io: Io)
    requires Ready(s) && AllWhole(s) && id in s.clients
    ensures var t := Step(cfg, s, Polled(id, io)); t.Some? ==> AllWhole(t.value)
  {
    HandleRetires(cfg, s.clients[id], io);
    var r := Handle(cfg, s.clients[id], io);
    if !r.Crash? {
      SettleWhole(s, id, r);
    }
  }

  lemma {:induction false} SentWhole(cfg: Config, s: Server, id: StreamId, msg: Message, script: seq<WriteOutcome>)
    requires Ready(s) && AllWhole(s) && id in s.clients
    requires WireExact(s.clients[id]) && !s.clients[id].isHandshaking && Sized(msg)
    requires AtBoundary(Outbound(s.clients[id].msg, s.clients[id].writ))
    ensures AllWhole(Step(cfg, s, Sent(id, msg, script)).value)
  {
    SendExact(s.clients[id], msg, script);
    SettleWhole(s, id, SendStage(s.clients[id], msg, script));
  }

  lemma {:induction false} StepWhole(cfg: Config, s: Server, e: Event)
    requires Ready(s) && AllKept(cfg, s) && Logged(s) && AllWires(s) && AllWhole(s)
    requires Heard(s, e) && BetweenFrames(s, e)
    ensures Step(cfg, s, e).Some? ==> AllWhole(Step(cfg, s, e).value)
  {
    match e
    case Accepted(id) =>
    case Popped =>
    case Polled(id, io) =>
      if id in s.clients {
        PolledWhole(cfg, s, id, io);
      }
    case Sent(id, msg, script) =>
      if id in s.clients && Sized(msg) {
        HeardIsDone(cfg, s, id);
        SentWhole(cfg, s, id, msg, script);
      }
  }

  // No event replaces a messenger.
  lemma {:induction false} HandleRetires(cfg: Config, c: Client, io: Io)
    requires Runnable(c)
    ensures var r := Handle(cfg, c, io);
            !r.Crash? ==> r.c.trace.retired == c.trace.retired
  {
    if !c.tlsHandshaking {
      var w := if io.writable then WriteStage(c, io.script) else Go(c, io.script);
      if w.Go? {
        ReadAppends(cfg, w.c, io, w.script);
        var r := if io.readable then ReadStage(cfg, w.c, io, w.script) else w;
        if r.Go? {
          LastRetires(cfg, r.c, io, r.script);
        }
      }
    }
  }

  lemma {:induction false} LastRetires(cfg: Config, c: Client, io: Io, script: seq<WriteOutcome>)
    requires Runnable(c)
    ensures var r := if c.isHandshaking then HandshakeStage(cfg, c, script)
                     else if io.readable then ParseStage(c, script) else Stay(c);
            !r.Crash? ==> r.c.trace.retired == c.trace.retired
  {
    if c.isHandshaking {
      HandshakeRetires(cfg, c, script);
    } else if io.readable {
      if ParseStage(c, script).Deliver? {
        DeliverShape(c, script);
      } else {
        OtherShape(c, script);
      }
    }
  }

  lemma {:induction false} HandshakeRetires(cfg: Config, c: Client, script: seq<WriteOutcome>)
    requires Runnable(c)
    ensures HandshakeStage(cfg, c, script).c.trace.retired == c.trace.retired
    decreases Ahead(c.handshaker)
  {
    if Again(cfg, c, script) {
      var a := Answered(Shaken(c, cfg.accept).0, script);
      AheadFalls(cfg, c, script);
      HandshakeRetires(cfg, a.0, a.1);
    }
    TurnRetires(cfg, c, script);
  }

  lemma {:induction false} TurnRetires(cfg: Config, c: Client, script: seq<WriteOutcome>)
    requires Runnable(c)
    requires Again(cfg, c, script) ==>
               var a := Answered(Shaken(c, cfg.accept).0, script);
               HandshakeStage(cfg, a.0, a.1).c.trace.retired == a.0.trace.retired
    ensures HandshakeStage(cfg, c, script).c.trace.retired == c.trace.retired
  {
    ShakenRetires(cfg, c);
  }

  lemma {:induction false} ShakenRetires(cfg: Config, c: Client)
    requires Runnable(c)
    ensures Shaken(c, cfg.accept).0.trace.retired == c.trace.retired
    ensures Shaken(c, cfg.accept).1.Refused? ==> Shaken(c, cfg.accept).0 == c
  {
  }

  lemma {:induction false} RunWhole(cfg: Config, s: Server, events: seq<Event>)
    requires Ready(s) && AllKept(cfg, s) && NoneReused(s) && Logged(s) && AllWires(s) && AllWhole(s)
    requires AllNew(cfg, s, events) && AllHeard(cfg, s, events) && AllBetween(cfg, s, events)
    ensures Run(cfg, s, events).Some? ==> AllWhole(Run(cfg, s, events).value)
    decreases |events|
  {
    if events != [] && Step(cfg, s, events[0]).Some? {
      StepKeeps(cfg, s, events[0]);
      StepLogged(cfg, s, events[0]);
      StepWires(cfg, s, events[0]);
      StepWhole(cfg, s, events[0]);
      RunWhole(cfg, Step(cfg, s, events[0]).value, events[1..]);
    }
  }

  // What went out on a connection: nothing but response bytes until the whole response is
  // out, then whole frames of messages it was given, then the current frame as far as
  // written. Only what failed copies of the response wrote can stand before it.
  predicate WellFramed(c: Client, given: seq<Message>)
    requires Runnable(c)
  {
    && Given(c) == [DEFAULT_MESSAGE] + given
    && Whole(c.trace.retired) && AllSized(Completed(c.trace.retired))
    && var lost := Flatten(c.trace.attempts);
       var response := c.handshaker.buf;
       if c.isHandshaking then
         c.sent == lost + response[..c.handshaker.bytesWrit]
       else
         && response != []
         && c.sent == lost + response + Frames(Completed(c.trace.retired)) + Encode(c.msg)[..c.writ]
  }

  lemma {:induction false} ClientFramed(cfg: Config, c: Client, given: seq<Message>)
    requires Runnable(c) && WireExact(c) && Ordered(cfg, c) && Whole(c.trace.retired)
    requires Given(c) == [DEFAULT_MESSAGE] + given
    ensures WellFramed(c, given)
  {
    WholeParts(c.trace.retired);
    FramedParts(c);
  }

  // The wire once the response is out, and before.
  lemma {:induction false} FramedParts(c: Client)
    requires Runnable(c) && WireExact(c) && Whole(c.trace.retired)
    requires AllSized(Completed(c.trace.retired)) && Flatten(Parts(c.trace.retired)) == Frames(Completed(c.trace.retired))
    ensures var lost := Flatten(c.trace.attempts);
            && (c.isHandshaking ==> c.sent == lost + c.handshaker.buf[..c.handshaker.bytesWrit])
            && (c.handshaker.bytesWrit == |c.handshaker.buf| ==>
                  c.sent == lost + c.handshaker.buf + Frames(Completed(c.trace.retired)) + Encode(c.msg)[..c.writ])
  {
    if c.isHandshaking {
      NoParts(c);
    }
  }

  // Over any run in which ids are new and the application sends only to ids it has heard
  // from and between frames, every connection, live or dropped, is well framed.
  lemma {:induction false} OutgoingStream(cfg: Config, events: seq<Event>)
    requires Run(cfg, NEW_SERVER, events).Some?
    requires AllNew(cfg, NEW_SERVER, events)
    requires AllHeard(cfg, NEW_SERVER, events) && AllBetween(cfg, NEW_SERVER, events)
    ensures var s := Run(cfg, NEW_SERVER, events).value;
            && (forall id | id in s.clients :: WellFramed(s.clients[id], SentTo(events, id)))
            && (forall k | 0 <= k < |s.gone| ::
                  Runnable(s.gone[k].1) && WellFramed(s.gone[k].1, SentTo(events, s.gone[k].0)))
  {
    var s := Run(cfg, NEW_SERVER, events).value;
    RunKeeps(cfg, NEW_SERVER, events);
    RunLogged(cfg, NEW_SERVER, events);
    RunWires(cfg, NEW_SERVER, [], events);
    RunWhole(cfg, NEW_SERVER, events);
    assert [] + events == events;
    forall id | id in s.clients ensures WellFramed(s.clients[id], SentTo(events, id)) {
      ClientFramed(cfg, s.clients[id], SentTo(events, id));
    }
    forall k | 0 <= k < |s.gone| ensures WellFramed(s.gone[k].1, SentTo(events, s.gone[k].0)) {
      ClientFramed(cfg, s.gone[k].1, SentTo(events, s.gone[k].0));
    }
  }

  lemma {:induction false} FramesSnoc(ms: seq<Message>, m: Message)
    requires AllSized(ms) && Sized(m)
    ensures AllSized(ms + [m]) && Frames(ms + [m]) == Frames(ms) + Encode(m)
    decreases |ms|
  {
    if ms == [] {
      assert ([] + [m])[1..] == [];
    } else {
      FramesSnoc(ms[1..], m);
      assert (ms + [m])[1..] == ms[1..] + [m];
    }
  }

  // ---------------------------------------------------------------- the incoming stream

  // The request a handshake consumed is the one the client's stream starts with.
  lemma {:induction false} SameRequest(opening: seq<byte>, request: seq<byte>, stream: seq<byte>)
    requires opening <= stream && request <= stream
    requires HttpRequests.Deserialize(opening).Ok? && HttpRequests.Deserialize(opening).value.1 == []
    requires HttpRequests.Deserialize(request).Ok? && HttpRequests.Deserialize(request).value.1 == []
    ensures opening == request
  {
    assert |opening| <= |request| ==> request[..|opening|] == opening;
    assert |request| <= |opening| ==> opening[..|request|] == request;
    if |opening| < |request| {
      HttpIncremental.DeserializePrefix(request, |opening|);
    } else if |request| < |opening| {
      HttpIncremental.DeserializePrefix(opening, |request|);
    }
  }

  // Pieces that each parse to one message, laid along a stream of frames, are its frames.
  lemma {:induction false} PiecesFollow(inbound: seq<Inbound>, data: seq<byte>, xs: seq<Single>)
    requires forall x <- xs :: Sendable(x)
    requires Genuine(inbound) && Flatten(Pieces(inbound)) + data <= StreamBytes(xs)
    ensures |inbound| <= |xs| && Messages(inbound) == MessagesOf(xs[..|inbound|])
    decreases |inbound|
  {
    if inbound != [] {
      var rest := Flatten(Pieces(inbound[1..])) + data;
      PiecesTail(inbound, data);
      FirstPiece(inbound[0], rest, xs);
      TailGenuine(inbound);
      PiecesFollow(inbound[1..], data, xs[1..]);
      MessagesStep(inbound, xs);
    }
  }

  lemma {:induction false} PiecesTail(inbound: seq<Inbound>, data: seq<byte>)
    requires inbound != []
    ensures Flatten(Pieces(inbound)) + data == inbound[0].bytes + (Flatten(Pieces(inbound[1..])) + data)
  {
    assert Pieces(inbound)[1..] == Pieces(inbound[1..]);
  }

  lemma {:induction false} TailGenuine(inbound: seq<Inbound>)
    requires Genuine(inbound) && inbound != []
    ensures Genuine(inbound[1..])
    ensures ParseMessage(None, inbound[0].bytes).outcome == Parsed(inbound[0].msg, [])
  {
  }

  lemma {:induction false} MessagesStep(inbound: seq<Inbound>, xs: seq<Single>)
    requires inbound != [] && xs != [] && inbound[0].msg == MessageOf(xs[0])
    requires |inbound| <= |xs| && Messages(inbound[1..]) == MessagesOf(xs[1..][..|inbound| - 1])
    ensures Messages(inbound) == MessagesOf(xs[..|inbound|])
  {
    assert Messages(inbound) == [inbound[0].msg] + Messages(inbound[1..]);
    assert MessagesOf(xs[..|inbound|]) == [MessageOf(xs[0])] + MessagesOf(xs[1..][..|inbound| - 1]);
  }

  lemma {:induction false} FirstPiece(x: Inbound, rest: seq<byte>, xs: seq<Single>)
    requires forall x <- xs :: Sendable(x)
    requires ParseMessage(None, x.bytes).outcome == Parsed(x.msg, [])
    requires x.bytes + rest <= StreamBytes(xs)
    ensures xs != [] && x.bytes == SingleBytes(xs[0]) && x.msg == MessageOf(xs[0])
    ensures rest <= StreamBytes(xs[1..])
  {
    assert x.bytes == (x.bytes + rest)[..|x.bytes|];
    PrefixParses(xs, x.bytes);
    assert StreamBytes(xs)[|SingleBytes(xs[0])|..] == StreamBytes(xs[1..]);
    assert rest == (x.bytes + rest)[|x.bytes|..];
  }

  lemma {:induction false} OpeningIsPrefix(c: Client)
    requires Conserved(c)
    ensures c.trace.opening <= c.received
  {
    assert c.received == c.trace.opening + (Flatten(Pieces(c.trace.inbound)) + c.buf.data);
  }

  lemma {:induction false} OpeningIsWhole(cfg: Config, c: Client)
    requires Ordered(cfg, c) && c.trace.inbound != []
    ensures HttpRequests.Deserialize(c.trace.opening).Ok? && HttpRequests.Deserialize(c.trace.opening).value.1 == []
  {
  }

  lemma {:induction false} OpeningIsRequest(cfg: Config, c: Client, request: seq<byte>, frames: seq<byte>)
    requires Ordered(cfg, c) && Conserved(c) && c.trace.inbound != []
    requires HttpRequests.Deserialize(request).Ok? && HttpRequests.Deserialize(request).value.1 == []
    requires c.received <= request + frames
    ensures c.trace.opening == request
  {
    OpeningIsPrefix(c);
    OpeningIsWhole(cfg, c);
    SameRequest(c.trace.opening, request, request + frames);
  }

  lemma {:induction false} RestIsFrames(c: Client, frames: seq<byte>)
    requires Conserved(c) && c.received <= c.trace.opening + frames
    ensures Flatten(Pieces(c.trace.inbound)) + c.buf.data <= frames
  {
    var tail := Flatten(Pieces(c.trace.inbound)) + c.buf.data;
    assert c.received == c.trace.opening + tail;
    assert tail == c.received[|c.trace.opening|..];
  }

  lemma {:induction false} ClientSaid(cfg: Config, c: Client, request: seq<byte>, xs: seq<Single>)
    requires Ordered(cfg, c) && Conserved(c)
    requires HttpRequests.Deserialize(request).Ok? && HttpRequests.Deserialize(request).value.1 == []
    requires forall x <- xs :: Sendable(x)
    requires c.received <= request + StreamBytes(xs)
    ensures var n := |c.trace.inbound|;
            n <= |xs| && Messages(c.trace.inbound) == MessagesOf(xs[..n])
  {
    if c.trace.inbound != [] {
      OpeningIsRequest(cfg, c, request, StreamBytes(xs));
      RestIsFrames(c, StreamBytes(xs));
      PiecesFollow(c.trace.inbound, c.buf.data, xs);
    }
  }

  lemma {:induction false} LiveSaid(cfg: Config, events: seq<Event>, id: StreamId)
    requires Run(cfg, NEW_SERVER, events).Some? && AllNew(cfg, NEW_SERVER, events)
    requires id in Run(cfg, NEW_SERVER, events).value.clients
    ensures var s := Run(cfg, NEW_SERVER, events).value;
            && Ordered(cfg, s.clients[id]) && Conserved(s.clients[id])
            && SaidBy(s.log, id) == Messages(s.clients[id].trace.inbound)
  {
    RunKeeps(cfg, NEW_SERVER, events);
    RunLogged(cfg, NEW_SERVER, events);
  }

  // Over any run with new ids: if all that a client has sent is a prefix of one complete
  // request followed by unfragmented messages, then what serve has returned for it is a
  // prefix of those messages, in order, once each.
  lemma {:induction false} IncomingStream(cfg: Config, events: seq<Event>, id: StreamId, request: seq<byte>, xs: seq<Single>)
    requires Run(cfg, NEW_SERVER, events).Some? && AllNew(cfg, NEW_SERVER, events)
    requires id in Run(cfg, NEW_SERVER, events).value.clients
    requires HttpRequests.Deserialize(request).Ok? && HttpRequests.Deserialize(request).value.1 == []
    requires forall x <- xs :: Sendable(x)
    requires Run(cfg, NEW_SERVER, events).value.clients[id].received <= request + StreamBytes(xs)
    ensures var said := SaidBy(Run(cfg, NEW_SERVER, events).value.log, id);
            |said| <= |xs| && said == MessagesOf(xs[..|said|])
  {
    LiveSaid(cfg, events, id);
    ClientSaid(cfg, Run(cfg, NEW_SERVER, events).value.clients[id], request, xs);
  }
}
