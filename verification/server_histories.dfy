// Notifications and wires over whole runs in which no id is used twice.
module ServerHistories {
  import opened WsParsing
  import opened Messaging
  import opened Output
  import opened ServerSteps
  import opened ServerClients
  import opened ServerRuns

  // ---------------------------------------------------------------- ids

  predicate WasDropped(s: Server, id: StreamId) {
    exists k :: 0 <= k < |s.gone| && s.gone[k].0 == id
  }

  predicate NoneReused(s: Server) {
    && (forall j, k | 0 <= j < k < |s.gone| :: s.gone[j].0 != s.gone[k].0)
    && (forall k | 0 <= k < |s.gone| :: s.gone[k].0 !in s.clients)
  }

  // The random id is one never seen before.
  predicate NewId(s: Server, e: Event) {
    e.Accepted? ==> e.id !in s.clients && !WasDropped(s, e.id)
  }

  // Every accepted id of the run is new.
  predicate AllNew(cfg: Config, s: Server, events: seq<Event>)
    requires Ready(s)
    decreases |events|
  {
    events != [] ==>
      && NewId(s, events[0])
      && (Step(cfg, s, events[0]).Some? ==> AllNew(cfg, Step(cfg, s, events[0]).value, events[1..]))
  }

  // ---------------------------------------------------------------- what was announced

  // The messages serve has returned for id, in order.
  function SaidBy(log: seq<Notification>, id: StreamId): seq<Message> {
    if log == [] then []
    else
      var n := log[|log| - 1];
      SaidBy(log[..|log| - 1], id) + if n.SentMessage? && n.id == id then [n.msg] else []
  }

  lemma {:induction false} SaidSnoc(log: seq<Notification>, n: Notification, id: StreamId)
    ensures SaidBy(log + [n], id) == SaidBy(log, id) + if n.SentMessage? && n.id == id then [n.msg] else []
  {
    assert (log + [n])[..|log|] == log;
  }

  // For every id ever accepted, the log holds exactly the messages of its connection.
  ghost predicate Logged(s: Server) {
    && (forall id | id in s.clients :: SaidBy(s.log, id) == Messages(s.clients[id].trace.inbound))
    && (forall k | 0 <= k < |s.gone| :: SaidBy(s.log, s.gone[k].0) == Messages(s.gone[k].1.trace.inbound))
    && (forall id :: id !in s.clients && !WasDropped(s, id) ==> SaidBy(s.log, id) == [])
  }

  lemma {:induction false} SettleNoneReused(s: Server, id: StreamId, r: Stage)
    requires NoneReused(s) && id in s.clients && !r.Crash?
    ensures NoneReused(Settle(s, id, r).value)
    ensures forall j :: WasDropped(Settle(s, id, r).value, j)
              <==> WasDropped(s, j) || ((r.Drop? || r.TlsDrop?) && j == id)
  {
    if r.Drop? || r.TlsDrop? {
      var t := Settle(s, id, r).value;
      assert t.gone == s.gone + [(id, r.c)];
      assert WasDropped(t, id) by { assert t.gone[|s.gone|].0 == id; }
      forall j | WasDropped(s, j) ensures WasDropped(t, j) {
        var k :| 0 <= k < |s.gone| && s.gone[k].0 == j;
        assert t.gone[k].0 == j;
      }
    }
  }

  lemma {:induction false} SettleLogged(cfg: Config, s: Server, id: StreamId, r: Stage)
    requires NoneReused(s) && Logged(s) && id in s.clients && !r.Crash? && Kept(cfg, s.clients[id], r)
    ensures Logged(Settle(s, id, r).value)
  {
    var t := Settle(s, id, r).value;
    SettleNoneReused(s, id, r);
    if r.Deliver? {
      forall j ensures SaidBy(t.log, j) == SaidBy(s.log, j) + if j == id then [r.msg] else [] {
        SaidSnoc(s.log, SentMessage(id, r.msg), j);
      }
    }
  }

  lemma {:induction false} AcceptedLogged(cfg: Config, s: Server, id: StreamId)
    requires Ready(s) && NoneReused(s) && Logged(s) && NewId(s, Accepted(id))
    ensures var t := Step(cfg, s, Accepted(id)).value; NoneReused(t) && Logged(t)
  {
    assert Messages(NEW_CLIENT.trace.inbound) == [];
    var t := Step(cfg, s, Accepted(id)).value;
    assert forall j :: WasDropped(t, j) <==> WasDropped(s, j);
  }

  lemma {:induction false} PopLogged(s: Server)
    requires NoneReused(s) && Logged(s)
    ensures NoneReused(Pop(s)) && Logged(Pop(s))
  {
    if s.queued != [] {
      var n := Disconnected(s.queued[|s.queued| - 1]);
      forall j ensures SaidBy(s.log + [n], j) == SaidBy(s.log, j) { SaidSnoc(s.log, n, j); }
      assert forall j :: WasDropped(Pop(s), j) <==> WasDropped(s, j);
    }
  }

  lemma {:induction false} StepLogged(cfg: Config, s: Server, e: Event)
    requires Ready(s) && AllKept(cfg, s) && NoneReused(s) && Logged(s) && NewId(s, e)
    ensures Step(cfg, s, e).Some? ==> NoneReused(Step(cfg, s, e).value) && Logged(Step(cfg, s, e).value)
  {
    match e
    case Accepted(id) => AcceptedLogged(cfg, s, id);
    case Popped => PopLogged(s);
    case Polled(id, io) => if id in s.clients { PolledLogged(cfg, s, id, io); }
    case Sent(id, msg, script) => if id in s.clients && Sized(msg) { SentLogged(cfg, s, id, msg, script); }
  }

  lemma {:induction false} PolledLogged(cfg: Config, s: Server, id: StreamId, io: Io)
    requires Ready(s) && AllKept(cfg, s) && NoneReused(s) && Logged(s) && id in s.clients
    ensures var t := Settle(s, id, Handle(cfg, s.clients[id], io));
            t.Some? ==> NoneReused(t.value) && Logged(t.value)
  {
    HandleKeeps(cfg, s.clients[id], io);
    StageLogged(cfg, s, id, Handle(cfg, s.clients[id], io));
  }

  lemma {:induction false} SentLogged(cfg: Config, s: Server, id: StreamId, msg: Message, script: seq<WriteOutcome>)
    requires Ready(s) && AllKept(cfg, s) && NoneReused(s) && Logged(s) && id in s.clients && Sized(msg)
    ensures var t := Settle(s, id, SendStage(s.clients[id], msg, script));
            t.Some? ==> NoneReused(t.value) && Logged(t.value)
  {
    SendKeeps(cfg, s.clients[id], msg, script);
    StageLogged(cfg, s, id, SendStage(s.clients[id], msg, script));
  }

  lemma {:induction false} StageLogged(cfg: Config, s: Server, id: StreamId, r: Stage)
    requires NoneReused(s) && Logged(s) && id in s.clients && Kept(cfg, s.clients[id], r)
    ensures !r.Crash? ==> NoneReused(Settle(s, id, r).value) && Logged(Settle(s, id, r).value)
  {
    if !r.Crash? {
      SettleNoneReused(s, id, r);
      SettleLogged(cfg, s, id, r);
    }
  }

  lemma {:induction false} RunLogged(cfg: Config, s: Server, events: seq<Event>)
    requires Ready(s) && AllKept(cfg, s) && NoneReused(s) && Logged(s) && AllNew(cfg, s, events)
    ensures Run(cfg, s, events).Some? ==>
              NoneReused(Run(cfg, s, events).value) && Logged(Run(cfg, s, events).value)
    decreases |events|
  {
    if events != [] && Step(cfg, s, events[0]).Some? {
      StepKeeps(cfg, s, events[0]);
      StepLogged(cfg, s, events[0]);
      RunLogged(cfg, Step(cfg, s, events[0]).value, events[1..]);
    }
  }

  // ---------------------------------------------------------------- disconnects in the log

  predicate HeardBefore(log: seq<Notification>, n: nat, id: StreamId) {
    exists j :: 0 <= j < n && j < |log| && log[j].SentMessage? && log[j].id == id
  }

  // Whoever may yet be reported gone has been heard, and whoever was reported gone had been.
  predicate Heralded(s: Server) {
    && (forall id | id in s.clients && s.clients[id].sentMessage :: HeardBefore(s.log, |s.log|, id))
    && (forall i | 0 <= i < |s.queued| :: HeardBefore(s.log, |s.log|, s.queued[i]))
    && (forall k | 0 <= k < |s.log| && s.log[k].Disconnected? :: HeardBefore(s.log, k, s.log[k].id))
  }

  lemma {:induction false} HeardGrows(log: seq<Notification>, n: Notification)
    ensures forall k, id | 0 <= k <= |log| && HeardBefore(log, k, id) ::
              HeardBefore(log + [n], k, id) && HeardBefore(log + [n], |log| + 1, id)
    ensures n.SentMessage? ==> HeardBefore(log + [n], |log| + 1, n.id)
  {
    forall k, id | 0 <= k <= |log| && HeardBefore(log, k, id)
      ensures HeardBefore(log + [n], k, id) && HeardBefore(log + [n], |log| + 1, id)
    {
      var j :| 0 <= j < k && j < |log| && log[j].SentMessage? && log[j].id == id;
      assert (log + [n])[j] == log[j];
    }
    assert (log + [n])[|log|] == n;
  }

  lemma {:induction false} DeliverHeralded(s: Server, id: StreamId, c: Client, m: Message)
    requires Heralded(s) && id in s.clients
    ensures Heralded(Settle(s, id, Deliver(c, m)).value)
  {
    HeardGrows(s.log, SentMessage(id, m));
  }

  lemma {:induction false} DropHeralded(s: Server, id: StreamId, c: Client)
    requires Heralded(s) && id in s.clients && (c.sentMessage ==> s.clients[id].sentMessage)
    ensures Heralded(Dropped(s, id, c)) && Heralded(Discard(Dropped(s, id, c)))
  {
  }

  lemma {:induction false} StayHeralded(s: Server, id: StreamId, c: Client)
    requires Heralded(s) && id in s.clients && (c.sentMessage ==> s.clients[id].sentMessage)
    ensures Heralded(s.(clients := s.clients[id := c]))
  {
  }

  lemma {:induction false} SettleHeralded(cfg: Config, s: Server, id: StreamId, r: Stage)
    requires AllKept(cfg, s) && Heralded(s) && id in s.clients && !r.Crash? && Kept(cfg, s.clients[id], r)
    ensures Heralded(Settle(s, id, r).value)
  {
    match r
    case Deliver(c, m) => DeliverHeralded(s, id, c, m);
    case Drop(c) => DropHeralded(s, id, c);
    case TlsDrop(c) => DropHeralded(s, id, c);
    case Go(c, _) => StayHeralded(s, id, c);
    case Stay(c) => StayHeralded(s, id, c);
  }

  lemma {:induction false} AcceptedHeralded(cfg: Config, s: Server, id: StreamId)
    requires Ready(s) && Heralded(s)
    ensures Heralded(Step(cfg, s, Accepted(id)).value)
  {
  }

  lemma {:induction false} PopHeralded(s: Server)
    requires Heralded(s)
    ensures Heralded(Pop(s))
  {
    if s.queued != [] {
      HeardGrows(s.log, Disconnected(s.queued[|s.queued| - 1]));
    }
  }

  lemma {:induction false} PolledHeralded(cfg: Config, s: Server, id: StreamId, io: Io)
    requires Ready(s) && AllKept(cfg, s) && Heralded(s)
    ensures Step(cfg, s, Polled(id, io)).Some? ==> Heralded(Step(cfg, s, Polled(id, io)).value)
  {
    if id in s.clients {
      HandleKeeps(cfg, s.clients[id], io);
      var r := Handle(cfg, s.clients[id], io);
      if !r.Crash? { SettleHeralded(cfg, s, id, r); }
    }
  }

  lemma {:induction false} SentHeralded(cfg: Config, s: Server, id: StreamId, msg: Message, script: seq<WriteOutcome>)
    requires Ready(s) && AllKept(cfg, s) && Heralded(s)
    ensures Step(cfg, s, Sent(id, msg, script)).Some? ==> Heralded(Step(cfg, s, Sent(id, msg, script)).value)
  {
    if id in s.clients && Sized(msg) {
      SendKeeps(cfg, s.clients[id], msg, script);
      SettleHeralded(cfg, s, id, SendStage(s.clients[id], msg, script));
    }
  }

  lemma {:induction false} StepHeralded(cfg: Config, s: Server, e: Event)
    requires Ready(s) && AllKept(cfg, s) && Heralded(s)
    ensures Step(cfg, s, e).Some? ==> Heralded(Step(cfg, s, e).value)
  {
    match e
    case Accepted(id) => AcceptedHeralded(cfg, s, id);
    case Popped => PopHeralded(s);
    case Polled(id, io) => PolledHeralded(cfg, s, id, io);
    case Sent(id, msg, script) => SentHeralded(cfg, s, id, msg, script);
  }

  lemma {:induction false} RunHeralded(cfg: Config, s: Server, events: seq<Event>)
    requires Ready(s) && AllKept(cfg, s) && Heralded(s)
    ensures Run(cfg, s, events).Some? ==> Heralded(Run(cfg, s, events).value)
    decreases |events|
  {
    if events != [] && Step(cfg, s, events[0]).Some? {
      StepKeeps(cfg, s, events[0]);
      StepHeralded(cfg, s, events[0]);
      RunHeralded(cfg, Step(cfg, s, events[0]).value, events[1..]);
    }
  }

  lemma {:induction false} OwedOnce(gone: seq<(StreamId, Client)>, id: StreamId)
    requires forall j, k | 0 <= j < k < |gone| :: gone[j].0 != gone[k].0
    ensures Owed(gone)[id] <= 1
    ensures (forall k | 0 <= k < |gone| :: gone[k].0 != id) ==> Owed(gone)[id] == 0
    decreases |gone|
  {
    if gone != [] {
      OwedOnce(gone[..|gone| - 1], id);
    }
  }

  // Over any run: every Disconnected(id) comes after a SentMessage(id, _). If no id is used
  // twice, each id is reported gone at most once.
  lemma {:induction false} DisconnectsOrderly(cfg: Config, events: seq<Event>)
    requires Run(cfg, NEW_SERVER, events).Some?
    ensures var s := Run(cfg, NEW_SERVER, events).value;
            && (forall k | 0 <= k < |s.log| && s.log[k].Disconnected? :: HeardBefore(s.log, k, s.log[k].id))
            && (AllNew(cfg, NEW_SERVER, events) ==> forall id :: DisconnectedIds(s.log)[id] <= 1)
  {
    var s := Run(cfg, NEW_SERVER, events).value;
    RunHeralded(cfg, NEW_SERVER, events);
    if AllNew(cfg, NEW_SERVER, events) {
      RunLogged(cfg, NEW_SERVER, events);
      DisconnectsConserved(cfg, NEW_SERVER, events);
      forall id ensures DisconnectedIds(s.log)[id] <= 1 {
        OwedOnce(s.gone, id);
        assert DisconnectedIds(s.log)[id] <= (DisconnectedIds(s.log) + multiset(s.queued) + multiset(s.discarded))[id];
      }
    }
  }

  // ---------------------------------------------------------------- lost disconnects

  predicate QueuedGone(s: Server) {
    forall i | 0 <= i < |s.queued| :: WasDropped(s, s.queued[i])
  }

  lemma {:induction false} GoneStays(s: Server, id: StreamId, c: Client)
    ensures WasDropped(Dropped(s, id, c), id)
    ensures forall j | WasDropped(s, j) :: WasDropped(Dropped(s, id, c), j)
  {
    var t := Dropped(s, id, c);
    assert t.gone[|s.gone|].0 == id;
    forall j | WasDropped(s, j) ensures WasDropped(t, j) {
      var k :| 0 <= k < |s.gone| && s.gone[k].0 == j;
      assert t.gone[k].0 == j;
    }
  }

  lemma {:induction false} DropQueuedGone(s: Server, id: StreamId, c: Client)
    requires QueuedGone(s)
    ensures QueuedGone(Dropped(s, id, c)) && QueuedGone(Discard(Dropped(s, id, c)))
  {
    GoneStays(s, id, c);
    var t := Dropped(s, id, c);
    forall i | 0 <= i < |t.queued| ensures WasDropped(t, t.queued[i]) {
      assert i < |s.queued| ==> t.queued[i] == s.queued[i];
    }
    assert forall j :: WasDropped(Discard(t), j) <==> WasDropped(t, j);
  }

  lemma {:induction false} SameGone(s: Server, t: Server)
    requires QueuedGone(s) && t.gone == s.gone && t.queued <= s.queued
    ensures QueuedGone(t)
  {
    forall i | 0 <= i < |t.queued| ensures WasDropped(t, t.queued[i]) {
      assert t.queued[i] == s.queued[i];
      var k :| 0 <= k < |s.gone| && s.gone[k].0 == s.queued[i];
      assert t.gone[k].0 == t.queued[i];
    }
  }

  lemma {:induction false} SettleQueuedGone(s: Server, id: StreamId, r: Stage)
    requires QueuedGone(s) && !r.Crash?
    ensures QueuedGone(Settle(s, id, r).value)
  {
    if r.Drop? || r.TlsDrop? {
      DropQueuedGone(s, id, r.c);
    } else {
      SameGone(s, Settle(s, id, r).value);
    }
  }

  lemma {:induction false} StepQueuedGone(cfg: Config, s: Server, e: Event)
    requires Ready(s) && QueuedGone(s)
    ensures Step(cfg, s, e).Some? ==> QueuedGone(Step(cfg, s, e).value)
  {
    match e
    case Accepted(id) => SameGone(s, Step(cfg, s, e).value);
    case Popped => SameGone(s, Pop(s));
    case Polled(id, io) =>
      if id in s.clients && !Handle(cfg, s.clients[id], io).Crash? {
        SettleQueuedGone(s, id, Handle(cfg, s.clients[id], io));
      }
    case Sent(id, msg, script) =>
      if id in s.clients && Sized(msg) {
        SettleQueuedGone(s, id, SendStage(s.clients[id], msg, script));
      }
  }

  lemma {:induction false} RunQueuedGone(cfg: Config, s: Server, events: seq<Event>)
    requires Ready(s) && QueuedGone(s)
    ensures Run(cfg, s, events).Some? ==> QueuedGone(Run(cfg, s, events).value)
    decreases |events|
  {
    if events != [] && Step(cfg, s, events[0]).Some? {
      StepQueuedGone(cfg, s, events[0]);
      RunQueuedGone(cfg, Step(cfg, s, events[0]).value, events[1..]);
    }
  }

  // After any run in which ids are new, a disconnect that is lost belongs to another client
  // than the one whose TLS handshake failed, and to one that is gone.
  lemma {:induction false} LostToAnother(cfg: Config, events: seq<Event>, id: StreamId, io: Io)
    requires Run(cfg, NEW_SERVER, events).Some? && AllNew(cfg, NEW_SERVER, events)
    requires var s := Run(cfg, NEW_SERVER, events).value;
             id in s.clients && s.clients[id].tlsHandshaking && io.tls.TlsFailed?
    ensures var s := Run(cfg, NEW_SERVER, events).value;
            var t := Step(cfg, s, Polled(id, io));
            && t.Some?
            && if s.queued == [] then t.value.discarded == s.discarded
               else
                 var lost := s.queued[|s.queued| - 1];
                 t.value.discarded == s.discarded + [lost] && lost != id && WasDropped(s, lost)
  {
    var s := Run(cfg, NEW_SERVER, events).value;
    RunKeeps(cfg, NEW_SERVER, events);
    RunLogged(cfg, NEW_SERVER, events);
    RunQueuedGone(cfg, NEW_SERVER, events);
    DiscardExact(cfg, s, Polled(id, io));
  }
}
