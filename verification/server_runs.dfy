// Safety of the server over whole runs: any events, any behaviour of the streams.
module ServerRuns {
  import opened Bytes
  import opened WsParsing
  import opened Messaging
  import opened Output
  import opened ServerSteps
  import opened ServerClients

  // ---------------------------------------------------------------- longer runs

  lemma {:induction false} RunOneMore(cfg: Config, s: Server, history: seq<Event>, e: Event)
    requires Ready(s)
    ensures Run(cfg, s, history + [e])
         == if Run(cfg, s, history).None? then None else Step(cfg, Run(cfg, s, history).value, e)
    decreases |history|
  {
    if history == [] {
      assert [] + [e] == [e] && [e][1..] == [];
    } else {
      assert (history + [e])[1..] == history[1..] + [e];
      if Step(cfg, s, history[0]).Some? {
        RunOneMore(cfg, Step(cfg, s, history[0]).value, history[1..], e);
      }
    }
  }

  lemma {:induction false} RunConcat(cfg: Config, s: Server, a: seq<Event>, b: seq<Event>)
    requires Ready(s) && Run(cfg, s, a).Some?
    ensures Run(cfg, s, a + b) == Run(cfg, Run(cfg, s, a).value, b)
    decreases |a|
  {
    if a == [] {
      assert [] + b == b;
    } else {
      assert (a + b)[1..] == a[1..] + b;
      RunConcat(cfg, Step(cfg, s, a[0]).value, a[1..], b);
    }
  }

  // ---------------------------------------------------------------- every connection

  predicate AllKept(cfg: Config, s: Server) {
    && (forall id | id in s.clients :: Ordered(cfg, s.clients[id]) && Conserved(s.clients[id]))
    && (forall k | 0 <= k < |s.gone| :: Ordered(cfg, s.gone[k].1))
  }

  lemma {:induction false} SettleKeeps(cfg: Config, s: Server, id: StreamId, r: Stage)
    requires AllKept(cfg, s) && id in s.clients && Kept(cfg, s.clients[id], r) && !r.Crash?
    ensures AllKept(cfg, Settle(s, id, r).value)
  {
  }

  lemma {:induction false} NewClientKept(cfg: Config)
    ensures Ordered(cfg, NEW_CLIENT) && Conserved(NEW_CLIENT)
  {
  }

  lemma {:induction false} AcceptedKeeps(cfg: Config, s: Server, id: StreamId)
    requires Ready(s) && AllKept(cfg, s)
    ensures AllKept(cfg, Step(cfg, s, Accepted(id)).value) && AllKept(cfg, Pop(s))
  {
    NewClientKept(cfg);
  }

  lemma {:induction false} StepKeeps(cfg: Config, s: Server, e: Event)
    requires Ready(s) && AllKept(cfg, s)
    ensures Step(cfg, s, e).Some? ==> AllKept(cfg, Step(cfg, s, e).value)
  {
    match e
    case Accepted(id) => AcceptedKeeps(cfg, s, id);
    case Popped => AcceptedKeeps(cfg, s, 0);
    case Polled(id, io) =>
      if id in s.clients {
        HandleKeeps(cfg, s.clients[id], io);
        var r := Handle(cfg, s.clients[id], io);
        if !r.Crash? { SettleKeeps(cfg, s, id, r); }
      }
    case Sent(id, msg, script) =>
      if id in s.clients && Sized(msg) {
        SendKeeps(cfg, s.clients[id], msg, script);
        SettleKeeps(cfg, s, id, SendStage(s.clients[id], msg, script));
      }
  }

  lemma {:induction false} RunKeeps(cfg: Config, s: Server, events: seq<Event>)
    requires Ready(s) && AllKept(cfg, s)
    ensures Run(cfg, s, events).Some? ==> AllKept(cfg, Run(cfg, s, events).value)
    decreases |events|
  {
    if events != [] && Step(cfg, s, events[0]).Some? {
      StepKeeps(cfg, s, events[0]);
      RunKeeps(cfg, Step(cfg, s, events[0]).value, events[1..]);
    }
  }

  // In every reachable state: a client that has sent a message is not handshaking, one that
  // is not handshaking has its whole response written, and that response answers the very
  // request its handshake consumed.
  lemma {:induction false} HandshakeBeforeMessages(cfg: Config, events: seq<Event>)
    requires Run(cfg, NEW_SERVER, events).Some?
    ensures var s := Run(cfg, NEW_SERVER, events).value;
            forall id | id in s.clients ::
              var c := s.clients[id];
              && (c.sentMessage ==> !c.isHandshaking)
              && (!c.isHandshaking ==>
                    && c.handshaker.bytesWrit == |c.handshaker.buf| > 0
                    && Upgraded(cfg, c.trace.opening, c.handshaker.buf))
  {
    RunKeeps(cfg, NEW_SERVER, events);
  }

  // In every reachable state: the bytes received from a live client are those consumed by
  // its handshake, then those of its delivered messages, then its buffer; each delivered
  // message is what its own bytes parse to.
  lemma {:induction false} ReceivedConserved(cfg: Config, events: seq<Event>)
    requires Run(cfg, NEW_SERVER, events).Some?
    ensures var s := Run(cfg, NEW_SERVER, events).value;
            forall id | id in s.clients ::
              var c := s.clients[id];
              && c.received == c.trace.opening + Flatten(Pieces(c.trace.inbound)) + c.buf.data
              && c.buf.read == |c.buf.data|
              && Genuine(c.trace.inbound)
  {
    RunKeeps(cfg, NEW_SERVER, events);
  }

  // The step from s to t has handed a message of this client to the application.
  predicate Announced(s: Server, t: Server, id: StreamId) {
    |t.log| > |s.log| && t.log[|s.log|].SentMessage? && t.log[|s.log|].id == id
  }

  // Settling a stage touches only its own client, and announces only its own message.
  lemma {:induction false} SettleIsLocal(s: Server, id: StreamId, r: Stage, other: StreamId)
    requires id in s.clients && !r.Crash?
    ensures var t := Settle(s, id, r).value;
            && (id in t.clients ==> t.clients[id] == r.c)
            && (other != id ==> (other in t.clients <==> other in s.clients))
            && (other != id && other in s.clients ==> t.clients[other] == s.clients[other])
            && (Announced(s, t, other) <==> other == id && r.Deliver?)
  {
  }

  // From s to t the handshake of id does not come back, and a message of id is announced
  // only if it was over.
  predicate StaysDone(s: Server, t: Server, id: StreamId)
    requires id in s.clients
  {
    && (!s.clients[id].isHandshaking && id in t.clients ==> !t.clients[id].isHandshaking)
    && (Announced(s, t, id) ==> !s.clients[id].isHandshaking)
  }

  // Once over, a handshake stays over, and a message is only delivered after it.
  lemma {:induction false} HandshakeStaysDone(cfg: Config, s: Server, e: Event, id: StreamId)
    requires Ready(s) && AllKept(cfg, s) && id in s.clients && Step(cfg, s, e).Some?
    ensures StaysDone(s, Step(cfg, s, e).value, id)
  {
    match e
    case Polled(other, io) => PolledStaysDone(cfg, s, other, io, id);
    case Sent(other, msg, script) => SentStaysDone(cfg, s, other, msg, script, id);
    case Accepted(other) => OthersStayDone(cfg, s, other, id);
    case Popped => OthersStayDone(cfg, s, id, id);
  }

  lemma {:induction false} OthersStayDone(cfg: Config, s: Server, other: StreamId, id: StreamId)
    requires Ready(s) && id in s.clients
    ensures StaysDone(s, Step(cfg, s, Accepted(other)).value, id) && StaysDone(s, Pop(s), id)
  {
  }

  lemma {:induction false} PolledStaysDone(cfg: Config, s: Server, other: StreamId, io: Io, id: StreamId)
    requires Ready(s) && AllKept(cfg, s) && id in s.clients && Step(cfg, s, Polled(other, io)).Some?
    ensures StaysDone(s, Step(cfg, s, Polled(other, io)).value, id)
  {
    HandleDone(cfg, s.clients[other], io);
    StageStaysDone(s, other, Handle(cfg, s.clients[other], io), id);
  }

  lemma {:induction false} SentStaysDone(cfg: Config, s: Server, other: StreamId, msg: Message, script: seq<WriteOutcome>, id: StreamId)
    requires Ready(s) && id in s.clients && Step(cfg, s, Sent(other, msg, script)).Some?
    ensures StaysDone(s, Step(cfg, s, Sent(other, msg, script)).value, id)
  {
    SettleIsLocal(s, other, SendStage(s.clients[other], msg, script), id);
  }

  lemma {:induction false} StageStaysDone(s: Server, other: StreamId, r: Stage, id: StreamId)
    requires other in s.clients && id in s.clients && !r.Crash?
    requires !s.clients[other].isHandshaking ==> !r.c.isHandshaking
    requires r.Deliver? ==> !s.clients[other].isHandshaking
    ensures StaysDone(s, Settle(s, other, r).value, id)
  {
    SettleIsLocal(s, other, r, id);
  }

  lemma {:induction false} HandleDone(cfg: Config, c: Client, io: Io)
    requires Runnable(c) && Ordered(cfg, c) && Conserved(c)
    ensures var r := Handle(cfg, c, io);
            && (!c.isHandshaking && !r.Crash? ==> !r.c.isHandshaking)
            && (r.Deliver? ==> !c.isHandshaking)
  {
    if !c.tlsHandshaking {
      WriteKeeps(cfg, c, io.script);
      var w := if io.writable then WriteStage(c, io.script) else Go(c, io.script);
      if w.Go? {
        ReadKeeps(cfg, w.c, io, w.script);
        var r := if io.readable then ReadStage(cfg, w.c, io, w.script) else w;
        if r.Go? {
          LastDone(cfg, r.c, io, r.script);
        }
      }
    }
  }

  lemma {:induction false} LastDone(cfg: Config, c: Client, io: Io, script: seq<WriteOutcome>)
    requires Runnable(c)
    ensures var r := if c.isHandshaking then HandshakeStage(cfg, c, script)
                     else if io.readable then ParseStage(c, script) else Stay(c);
            && (!c.isHandshaking && !r.Crash? ==> !r.c.isHandshaking)
            && (r.Deliver? ==> !c.isHandshaking)
            && !r.TlsDrop?
  {
    if !c.isHandshaking && io.readable {
      if ParseStage(c, script).Deliver? {
        DeliverShape(c, script);
      } else {
        OtherShape(c, script);
      }
    }
  }

  // ---------------------------------------------------------------- disconnects

  function DisconnectedIds(log: seq<Notification>): multiset<StreamId> {
    if log == [] then multiset{}
    else DisconnectedIds(log[..|log| - 1])
         + if log[|log| - 1].Disconnected? then multiset{log[|log| - 1].id} else multiset{}
  }

  // The ids of dropped clients that had sent a message, once per drop.
  function Owed(gone: seq<(StreamId, Client)>): multiset<StreamId> {
    if gone == [] then multiset{}
    else Owed(gone[..|gone| - 1])
         + if gone[|gone| - 1].1.sentMessage then multiset{gone[|gone| - 1].0} else multiset{}
  }

  // Delivered, queued and discarded disconnects are exactly the drops of such clients.
  predicate Balanced(s: Server) {
    DisconnectedIds(s.log) + multiset(s.queued) + multiset(s.discarded) == Owed(s.gone)
  }

  lemma {:induction false} LogGrows(log: seq<Notification>, n: Notification)
    ensures DisconnectedIds(log + [n]) == DisconnectedIds(log) + if n.Disconnected? then multiset{n.id} else multiset{}
  {
    assert (log + [n])[..|log|] == log;
  }

  lemma {:induction false} DropBalances(s: Server, id: StreamId, c: Client)
    requires Balanced(s)
    ensures Balanced(Dropped(s, id, c))
  {
    assert (s.gone + [(id, c)])[..|s.gone|] == s.gone;
    assert multiset(s.queued + [id]) == multiset(s.queued) + multiset{id};
  }

  lemma {:induction false} LastOfQueue(q: seq<StreamId>)
    requires q != []
    ensures multiset(q) == multiset(q[..|q| - 1]) + multiset{q[|q| - 1]}
  {
    assert q == q[..|q| - 1] + [q[|q| - 1]];
  }

  lemma {:induction false} DiscardBalances(s: Server)
    requires Balanced(s)
    ensures Balanced(Discard(s))
  {
    if s.queued != [] {
      LastOfQueue(s.queued);
      var id := s.queued[|s.queued| - 1];
      assert multiset(s.discarded + [id]) == multiset(s.discarded) + multiset{id};
    }
  }

  lemma {:induction false} PopBalances(s: Server)
    requires Balanced(s)
    ensures Balanced(Pop(s))
  {
    if s.queued != [] {
      LastOfQueue(s.queued);
      LogGrows(s.log, Disconnected(s.queued[|s.queued| - 1]));
    }
  }

  lemma {:induction false} StepBalances(cfg: Config, s: Server, e: Event)
    requires Ready(s) && Balanced(s)
    ensures Step(cfg, s, e).Some? ==> Balanced(Step(cfg, s, e).value)
  {
    match e
    case Accepted(id) =>
    case Popped => PopBalances(s);
    case Polled(id, io) =>
      if id in s.clients {
        var r := Handle(cfg, s.clients[id], io);
        if !r.Crash? { SettleBalances(s, id, r); }
      }
    case Sent(id, msg, script) =>
      if id in s.clients && Sized(msg) {
        SettleBalances(s, id, SendStage(s.clients[id], msg, script));
      }
  }

  lemma {:induction false} DeliverBalances(s: Server, id: StreamId, c: Client, m: Message)
    requires Balanced(s)
    ensures Balanced(Settle(s, id, Deliver(c, m)).value)
  {
    LogGrows(s.log, SentMessage(id, m));
  }

  lemma {:induction false} SettleBalances(s: Server, id: StreamId, r: Stage)
    requires Balanced(s) && !r.Crash?
    ensures Balanced(Settle(s, id, r).value)
  {
    if r.Drop? || r.TlsDrop? {
      DropStageBalances(s, id, r);
    } else if r.Deliver? {
      DeliverBalances(s, id, r.c, r.msg);
    } else {
      StayStageBalances(s, id, r);
    }
  }

  lemma {:induction false} DropStageBalances(s: Server, id: StreamId, r: Stage)
    requires Balanced(s) && (r.Drop? || r.TlsDrop?)
    ensures Balanced(Settle(s, id, r).value)
  {
    DropBalances(s, id, r.c);
    DiscardBalances(Dropped(s, id, r.c));
  }

  lemma {:induction false} StayStageBalances(s: Server, id: StreamId, r: Stage)
    requires Balanced(s) && (r.Go? || r.Stay?)
    ensures Balanced(Settle(s, id, r).value)
  {
    StayBalances(s, s.clients[id := r.c]);
  }

  lemma {:induction false} StayBalances(s: Server, clients: map<StreamId, Client>)
    requires Balanced(s)
    ensures Balanced(s.(clients := clients))
  {
  }

  // Over any run, whatever ids are chosen: delivered + queued + discarded = owed.
  lemma {:induction false} DisconnectsConserved(cfg: Config, s: Server, events: seq<Event>)
    requires Ready(s) && Balanced(s)
    ensures Run(cfg, s, events).Some? ==> Balanced(Run(cfg, s, events).value)
    decreases |events|
  {
    if events != [] && Step(cfg, s, events[0]).Some? {
      StepBalances(cfg, s, events[0]);
      DisconnectsConserved(cfg, Step(cfg, s, events[0]).value, events[1..]);
    }
  }

  // A disconnect is lost exactly when a TLS handshake fails while some entry is queued.
  lemma {:induction false} DiscardExact(cfg: Config, s: Server, e: Event)
    requires Ready(s) && AllKept(cfg, s) && Step(cfg, s, e).Some?
    ensures var t := Step(cfg, s, e).value;
            var fails := e.Polled? && s.clients[e.id].tlsHandshaking && e.io.tls.TlsFailed?;
            t.discarded == if fails && s.queued != [] then s.discarded + [s.queued[|s.queued| - 1]] else s.discarded
  {
    if e.Polled? {
      HandleKeeps(cfg, s.clients[e.id], e.io);
      OnlyTlsDrops(cfg, s.clients[e.id], e.io);
    }
  }

  lemma {:induction false} OnlyTlsDrops(cfg: Config, c: Client, io: Io)
    requires Runnable(c) && Ordered(cfg, c) && Conserved(c)
    ensures Handle(cfg, c, io).TlsDrop? <==> c.tlsHandshaking && io.tls.TlsFailed?
  {
    if !c.tlsHandshaking {
      WriteKeeps(cfg, c, io.script);
      var w := if io.writable then WriteStage(c, io.script) else Go(c, io.script);
      if w.Go? {
        ReadKeeps(cfg, w.c, io, w.script);
        var r := if io.readable then ReadStage(cfg, w.c, io, w.script) else w;
        if r.Go? {
          LastDone(cfg, r.c, io, r.script);
        }
      }
    }
  }
}
