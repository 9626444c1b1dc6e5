// The server object of src/server_G.rs: its connections, its queue and the loops of serve.
// Whatever is called, its state is the one that its history leads to in the state machine.
module ServerObjects {
  import opened Bytes
  import opened WsParsing
  import opened Messaging
  import opened Output
  import opened ServerSteps
  import opened Connections
  import ServerClients
  import ServerRuns
  import ServerHistories
  import ServerLosses

  // A call of serve as it begins: the history, the reports still pending, and the polls it
  // may make.
  datatype Call = Call(history: seq<Event>, pending: seq<Report>, polls: seq<seq<Report>>)

  // What a poll reports: the listener, with the random ids that will be drawn if a
  // connection is waiting, or a stream.
  datatype Report = Listener(draws: seq<StreamId>) | Stream(id: StreamId, io: Io)

  // A call of serve returns a notification, panics, or still waits when the polls end.
  datatype Answer = Notified(n: Notification) | Idle | Aborted

  // The state after a history, or a panic.
  function Reaches(cfg: Config, history: seq<Event>): (r: Option<Server>)
    ensures r.Some? ==> Ready(r.value)
  {
    Run(cfg, NEW_SERVER, history)
  }

  class ServerG {
    var clients: map<StreamId, Connection>
    var queuedDisconnects: seq<StreamId>
    var events: seq<Report>
    var eventsProcessed: nat
    const cfg: Config
    ghost var log: seq<Notification>
    ghost var gone: seq<(StreamId, Client)>
    ghost var discarded: seq<StreamId>
    ghost var history: seq<Event>
    ghost var repr: set<object>

    constructor (cfg: Config)
      ensures Valid() && fresh(repr) && this.cfg == cfg
      ensures Reached() && history == [] && log == [] && queuedDisconnects == []
    {
      clients, queuedDisconnects, events, eventsProcessed := map[], [], [], 0;
      this.cfg := cfg;
      log, gone, discarded, history := [], [], [], [];
      repr := {this};
    }

    ghost predicate Owned()
      reads this, repr
    {
      && this in repr
      && (forall k | k in clients :: clients[k] in repr && clients[k].Footprint() <= repr - {this})
      && (forall j, k | j in clients && k in clients && j != k :: clients[j].Footprint() !! clients[k].Footprint())
    }

    ghost predicate Valid()
      reads this, repr
    {
      Owned() && forall k | k in clients :: clients[k].Valid() && clients[k].Settings() == cfg
    }

    ghost function Connected(): map<StreamId, Client>
      requires Owned()
      reads this, repr
    {
      map k | k in clients :: clients[k].State()
    }

    ghost function State(): Server
      requires Owned()
      reads this, repr
    {
      Server(Connected(), queuedDisconnects, log, gone, discarded)
    }

    // The history leads to this very state.
    ghost predicate Reached()
      requires Owned()
      reads this, repr
    {
      Reaches(cfg, history) == Some(State())
    }

    // Whatever has been called on the server: no message has come from a connection that is
    // still shaking hands, and no byte received from one has been lost.
    lemma {:induction false} ConnectionsSafe(id: StreamId)
      requires Valid() && Reached() && id in clients
      ensures var client := clients[id];
              && (client.sentMessage ==> !client.isHandshaking)
              && (!client.isHandshaking ==> client.handshaker.bytesWrit == |client.handshaker.buf| > 0)
              && client.received == client.trace.opening
                   + Flatten(ServerClients.Pieces(client.trace.inbound)) + client.buf.data
    {
      assert Connected()[id] == clients[id].State();
      ServerRuns.HandshakeBeforeMessages(cfg, history);
      ServerRuns.ReceivedConserved(cfg, history);
    }

    // Whatever has been called: nobody is reported gone who was not heard from, and every
    // disconnect owed is delivered, queued or discarded.
    lemma {:induction false} DisconnectsSafe()
      requires Valid() && Reached()
      ensures forall k | 0 <= k < |log| && log[k].Disconnected? :: ServerHistories.HeardBefore(log, k, log[k].id)
      ensures ServerRuns.DisconnectedIds(log) + multiset(queuedDisconnects) + multiset(discarded) == ServerRuns.Owed(gone)
    {
      ServerHistories.DisconnectsOrderly(cfg, history);
      ServerRuns.DisconnectsConserved(cfg, NEW_SERVER, history);
    }

    // What a call of serve has lost: an entry, exactly if among the events it attended to
    // a heard client's drop (or an entry queued before) is followed by a failed TLS handshake.
    lemma {:induction false} ServeLoses(call: Call, k: nat, consumed: seq<Report>, r: Answer) returns (past: seq<Event>)
      requires Leaves(call, k, consumed, r) && !r.Aborted? && Reaches(cfg, call.history).Some?
      ensures Followed(cfg, call.history, past, consumed) && (history == past || history == past + [Popped])
      ensures call.history <= past
      ensures var s := Reaches(cfg, call.history).value;
              discarded != s.discarded <==> ServerLosses.Loses(cfg, s, past[|call.history|..], s.queued != [])
    {
      past := history;
      if r.Notified? && r.n.Disconnected? {
        past :| history == past + [Popped] && Followed(cfg, call.history, past, consumed);
        ServerRuns.RunOneMore(cfg, NEW_SERVER, past, Popped);
      }
      CallLoses(cfg, call.history, past, consumed);
    }

    // ---------------------------------------------------------------- frames

    // Nothing of the server has changed but what belongs to the connection id.
    twostate predicate OnlyMoved(id: StreamId)
      requires old(Owned()) && id in old(clients)
      reads this, repr
    {
      && clients == old(clients) && old(repr) <= repr
      && (forall o | o in old(repr) && o != this && o !in old(clients[id].Footprint()) :: unchanged(o))
      && clients[id].Footprint() <= repr - {this}
      && (forall o | o in clients[id].Footprint() :: o in old(clients[id].Footprint()) || fresh(o))
    }

    twostate lemma {:induction false} StillOwned(id: StreamId)
      requires old(Valid()) && id in old(clients) && OnlyMoved(id)
      ensures Owned()
    {
    }

    twostate lemma {:induction false} OthersUnmoved(id: StreamId)
      requires old(Valid()) && id in old(clients) && OnlyMoved(id)
      ensures Owned()
      ensures forall k | k in clients && k != id ::
                clients[k].State() == old(clients[k].State()) && clients[k].Valid()
    {
      StillOwned(id);
    }

    twostate lemma {:induction false} OnlyOneMoved(id: StreamId)
      requires old(Valid()) && id in old(clients) && OnlyMoved(id)
      requires clients[id].Valid() && clients[id].Settings() == cfg
      ensures Valid() && Connected() == old(Connected())[id := clients[id].State()]
    {
      OthersUnmoved(id);
      OnlyOneStands(id);
    }

    twostate lemma {:induction false} OnlyOneStands(id: StreamId)
      requires old(Owned()) && Owned() && clients == old(clients) && id in clients
      requires forall k | k in clients && k != id :: clients[k].State() == old(clients[k].State())
      ensures Connected() == old(Connected())[id := clients[id].State()]
    {
    }

    // The connections there were are as they were.
    twostate predicate PartsUnmoved()
      requires this in old(repr)
      reads this, repr
    {
      old(repr) <= repr && forall o | o in old(repr) && o != this :: unchanged(o)
    }

    twostate lemma {:induction false} ClientRemains(k: StreamId)
      requires old(Valid()) && k in old(clients) && PartsUnmoved()
      ensures var client := old(clients[k]);
              && client.Footprint() == old(client.Footprint())
              && client.State() == old(client.State()) && client.Valid()
    {
      var client := old(clients[k]);
      assert unchanged(client);
      assert forall o | o in old(client.Footprint()) :: unchanged(o);
    }

    twostate lemma {:induction false} ClientsRemain()
      requires old(Valid()) && PartsUnmoved()
      requires forall k | k in clients :: k in old(clients) && clients[k] == old(clients[k])
      ensures Valid()
      ensures forall k | k in clients :: clients[k].State() == old(clients[k].State())
    {
      forall k | k in clients
        ensures clients[k].Footprint() == old(clients[k].Footprint())
        ensures clients[k].State() == old(clients[k].State()) && clients[k].Valid()
      {
        ClientRemains(k);
      }
    }

    twostate lemma {:induction false} OneLess(id: StreamId)
      requires old(Valid()) && PartsUnmoved() && clients == old(clients) - {id}
      ensures Valid() && Connected() == old(Connected()) - {id}
    {
      ClientsRemain();
      Without(old(Connected()), Connected(), id);
    }

    twostate lemma {:induction false} AsBefore()
      requires old(Valid()) && PartsUnmoved() && clients == old(clients)
      ensures Valid() && Connected() == old(Connected())
    {
      ClientsRemain();
      AllStand();
    }

    twostate lemma {:induction false} AllStand()
      requires old(Owned()) && Owned() && clients == old(clients)
      requires forall k | k in clients :: clients[k].State() == old(clients[k].State())
      ensures Connected() == old(Connected())
    {
    }

    // A new connection beside those there were.
    twostate predicate Joined(id: StreamId, new client: Connection)
      requires this in old(repr)
      reads this, repr, client, client.Footprint()
    {
      && PartsUnmoved() && id !in old(clients) && clients == old(clients)[id := client]
      && client.Valid() && client.Settings() == cfg
      && client.Footprint() <= repr - {this} && forall o | o in client.Footprint() :: fresh(o)
    }

    twostate lemma {:induction false} NewcomerApart(id: StreamId, new client: Connection)
      requires old(Valid()) && Joined(id, client)
      ensures forall k | k in old(clients) ::
                && clients[k] == old(clients[k]) && clients[k].Footprint() !! client.Footprint()
                && clients[k].Footprint() == old(clients[k].Footprint())
                && clients[k].State() == old(clients[k].State()) && clients[k].Valid()
    {
      forall k | k in old(clients)
        ensures clients[k] == old(clients[k]) && clients[k].Footprint() !! client.Footprint()
        ensures clients[k].Footprint() == old(clients[k].Footprint())
        ensures clients[k].State() == old(clients[k].State()) && clients[k].Valid()
      {
        ClientRemains(k);
      }
    }

    twostate lemma {:induction false} OneMore(id: StreamId, new client: Connection)
      requires old(Valid()) && Joined(id, client)
      ensures Valid()
    {
      NewcomerApart(id, client);
    }

    twostate lemma {:induction false} OneMoreStands(id: StreamId, new client: Connection)
      requires old(Valid()) && Valid() && Joined(id, client)
      ensures Connected() == old(Connected())[id := client.State()]
    {
      NewcomerApart(id, client);
      With(old(Connected()), Connected(), id, client.State());
    }

    // ---------------------------------------------------------------- the queue and the log

    method DropClient(id: StreamId)
      requires Valid() && id in clients
      modifies this`clients, this`queuedDisconnects, this`gone
      ensures Valid() && State() == Dropped(old(State()), id, old(clients[id].State()))
    {
      gone := gone + [(id, clients[id].State())];
      if clients[id].sentMessage {
        queuedDisconnects := queuedDisconnects + [id];
      }
      clients := clients - {id};
      OneLess(id);
    }

    method DiscardLast()
      requires Valid()
      modifies this`queuedDisconnects, this`discarded
      ensures Valid() && State() == Discard(old(State()))
    {
      if queuedDisconnects != [] {
        var n := |queuedDisconnects| - 1;
        discarded := discarded + [queuedDisconnects[n]];
        queuedDisconnects := queuedDisconnects[..n];
      }
      AsBefore();
    }

    ghost method Announce(id: StreamId, msg: Message)
      requires Valid()
      modifies this`log
      ensures Valid() && State() == old(State()).(log := old(log) + [SentMessage(id, msg)])
    {
      log := log + [SentMessage(id, msg)];
      AsBefore();
    }

    method PopDisconnect() returns (id: StreamId)
      requires Valid() && queuedDisconnects != []
      modifies this`queuedDisconnects, this`log
      ensures Valid() && State() == Pop(old(State()))
      ensures log == old(log) + [Disconnected(id)] && id == old(queuedDisconnects)[|old(queuedDisconnects)| - 1]
    {
      var n := |queuedDisconnects| - 1;
      id := queuedDisconnects[n];
      queuedDisconnects := queuedDisconnects[..n];
      log := log + [Disconnected(id)];
      AsBefore();
    }

    // The state is what e leads to.
    ghost method Record(e: Event)
      requires Valid() && Reaches(cfg, history + [e]) == Some(State())
      modifies this`history
      ensures Valid() && Reached() && history == old(history) + [e]
    {
      history := history + [e];
      AsBefore();
    }

    // What the verdict on a connection means for the server. A failed TLS handshake drops
    // the connection and then pops the queue.
    method Conclude(id: StreamId, v: Verdict, ghost script: seq<WriteOutcome>)
      requires Valid() && id in clients && !v.Crashed?
      modifies this`clients, this`queuedDisconnects, this`gone, this`discarded, this`log
      ensures Valid()
      ensures Settle(old(State()), id, StageOf(v, old(clients[id].State()), script)) == Some(State())
      ensures log == if v.Handed? then old(log) + [SentMessage(id, v.msg)] else old(log)
    {
      SettleCases(State(), id, v, clients[id].State(), script);
      if v.Lost? || v.TlsLost? {
        DropClient(id);
        if v.TlsLost? { DiscardLast(); }
      } else if v.Handed? {
        Announce(id, v.msg);
      }
    }

    // It remains to settle the verdict on a connection; then e is part of the history.
    ghost predicate Due(e: Event, id: StreamId, v: Verdict, script: seq<WriteOutcome>)
      requires Owned() && id in clients
      reads this, repr
    {
      Reaches(cfg, history + [e]) == Settle(State(), id, StageOf(v, clients[id].State(), script))
    }

    method Resolve(id: StreamId, v: Verdict, ghost script: seq<WriteOutcome>, ghost e: Event)
      requires Valid() && id in clients && !v.Crashed?
      requires Due(e, id, v, script)
      modifies this`clients, this`queuedDisconnects, this`gone, this`discarded, this`log, this`history
      ensures Valid() && Reached() && history == old(history) + [e]
      ensures log == if v.Handed? then old(log) + [SentMessage(id, v.msg)] else old(log)
    {
      Conclude(id, v, script);
      Record(e);
    }

    // ---------------------------------------------------------------- events and sends

    // The event panics.
    ghost predicate Kills(e: Event)
      reads this
    {
      Reaches(cfg, history + [e]) == None
    }

    // The connection's part of an event; the others do not notice.
    method HandleClient(id: StreamId, io: Io) returns (v: Verdict)
      requires Valid() && id in clients
      modifies repr - {this}
      ensures clients == old(clients) && Owned()
      ensures StageOf(v, clients[id].State(), clients[id].stream.wire.script)
           == Handle(cfg, old(clients[id].State()), io)
      ensures !v.Crashed? ==> Valid() && Connected() == old(Connected())[id := clients[id].State()]
    {
      var client := clients[id];
      v := client.HandleEvent(io);
      if v.Crashed? {
        OthersUnmoved(id);
      } else {
        OnlyOneMoved(id);
      }
    }

    // The same, seen from the server: it remains to settle the verdict.
    method Attend(id: StreamId, io: Io) returns (v: Verdict, ghost script: seq<WriteOutcome>)
      requires Valid() && Reached() && id in clients
      modifies repr - {this}
      ensures v.Crashed? ==> Kills(Polled(id, io))
      ensures !v.Crashed? ==> Valid() && clients == old(clients) && Due(Polled(id, io), id, v, script)
    {
      ghost var s := State();
      v := HandleClient(id, io);
      script := clients[id].stream.wire.script;
      PolledReaches(cfg, history, s, id, io, v, clients[id].State(), script);
    }

    method OnStream(id: StreamId, io: Io) returns (panicked: bool, told: Option<Notification>)
      requires Valid() && Reached() && id in clients
      modifies this`clients, this`queuedDisconnects, this`gone, this`discarded, this`log, this`history, repr - {this}
      ensures panicked ==> Kills(Polled(id, io)) && history == old(history)
      ensures !panicked ==>
                && Valid() && Reached() && history == old(history) + [Polled(id, io)]
                && Told(old(log), log, told)
      ensures told.Some? ==> !panicked && told.value.SentMessage?
    {
      var v, script := Attend(id, io);
      if v.Crashed? { return true, None; }
      Resolve(id, v, script, Polled(id, io));
      return false, if v.Handed? then Some(SentMessage(id, v.msg)) else None;
    }

    // Only the messenger of the connection id is another one, and owned by the server.
    twostate lemma {:induction false} MessengerMoved(id: StreamId)
      requires old(Owned()) && id in old(clients) && clients == old(clients)
      requires repr == old(repr) + {clients[id].messenger} && fresh(clients[id].messenger)
      requires clients[id].stream == old(clients[id].stream)
      requires forall o | o in old(repr) && o != this && o != clients[id] && o != clients[id].stream :: unchanged(o)
      ensures OnlyMoved(id)
    {
    }

    // send_to_client, up to what becomes of the connection.
    method HandOver(id: StreamId, msg: Message, script: seq<WriteOutcome>) returns (v: Verdict)
      requires Valid() && id in clients && Sized(msg)
      modifies this`repr, repr - {this}
      ensures OnlyMoved(id) && clients[id].Valid() && clients[id].Settings() == cfg && fresh(repr - old(repr))
      ensures v.Wait? || v.Lost?
      ensures StageOf(v, clients[id].State(), clients[id].stream.wire.script)
           == SendStage(old(clients[id].State()), msg, script)
    {
      var client := clients[id];
      v := client.Send(msg, script);
      repr := repr + {client.messenger};
      MessengerMoved(id);
    }

    // The same, seen from the server.
    method Hand(id: StreamId, msg: Message, script: seq<WriteOutcome>) returns (v: Verdict)
      requires Valid() && id in clients && Sized(msg)
      modifies this`repr, repr - {this}
      ensures clients == old(clients) && Valid() && fresh(repr - old(repr)) && (v.Wait? || v.Lost?)
      ensures StageOf(v, clients[id].State(), clients[id].stream.wire.script)
           == SendStage(old(clients[id].State()), msg, script)
      ensures State() == old(State()).(clients := old(Connected())[id := clients[id].State()])
    {
      v := HandOver(id, msg, script);
      OnlyOneMoved(id);
    }

    method Give(id: StreamId, msg: Message, script: seq<WriteOutcome>) returns (v: Verdict, ghost left: seq<WriteOutcome>)
      requires Valid() && Reached() && id in clients && Sized(msg)
      modifies repr
      ensures clients == old(clients) && Valid() && fresh(repr - old(repr)) && (v.Wait? || v.Lost?)
      ensures Due(Sent(id, msg, script), id, v, left)
      ensures log == old(log) && history == old(history)
    {
      ghost var s := State();
      v := Hand(id, msg, script);
      left := clients[id].stream.wire.script;
      SentReaches(cfg, history, s, id, msg, script, v, clients[id].State(), left);
    }

    // A send to a connection that is gone panics.
    method SendToClient(id: StreamId, msg: Message, script: seq<WriteOutcome>) returns (panicked: bool)
      requires Valid() && Reached() && Sized(msg)
      modifies repr
      ensures Valid() && fresh(repr - old(repr))
      ensures panicked <==> id !in old(clients)
      ensures panicked ==> Reaches(cfg, old(history) + [Sent(id, msg, script)]) == None
      ensures !panicked ==> Reached() && history == old(history) + [Sent(id, msg, script)] && log == old(log)
    {
      if id !in clients {
        GoneReaches(cfg, history, State(), id, Sent(id, msg, script));
        return true;
      }
      var v, left := Give(id, msg, script);
      Resolve(id, v, left, Sent(id, msg, script));
      return false;
    }

    method Enrol(id: StreamId)
      requires Valid() && id !in clients
      modifies this`clients, this`repr
      ensures Valid() && fresh(repr - old(repr))
      ensures Connected() == old(Connected())[id := NEW_CLIENT]
    {
      var client := new Connection(cfg);
      repr := repr + client.Footprint();
      clients := clients[id := client];
      OneMore(id, client);
      OneMoreStands(id, client);
    }

    method Register(id: StreamId)
      requires Valid() && Reached() && id !in clients
      modifies this`clients, this`repr, this`history
      ensures Valid() && Reached() && history == old(history) + [Accepted(id)]
      ensures fresh(repr - old(repr))
    {
      AcceptedReaches(cfg, history, State(), id);
      Enrol(id);
      Record(Accepted(id));
    }

    // The ids are drawn until one is not in use.
    method Accept(draws: seq<StreamId>)
      requires Valid() && Reached()
      modifies this`clients, this`repr, this`history
      ensures Valid() && Reached() && history == old(history) + Drawn(old(clients.Keys), draws)
      ensures fresh(repr - old(repr))
    {
      var i := 0;
      while i < |draws| && draws[i] in clients
        invariant 0 <= i <= |draws| && Drawn(clients.Keys, draws) == Drawn(clients.Keys, draws[i..])
      {
        i := i + 1;
      }
      if i < |draws| {
        Register(draws[i]);
      }
    }

    // One event of the last poll.
    method Process(event: Report) returns (panicked: bool, told: Option<Notification>)
      requires Valid() && Reached()
      modifies repr
      ensures Pending() == old(Pending()) && events == old(events) && eventsProcessed == old(eventsProcessed)
      ensures panicked ==> Panics(event) && history == old(history)
      ensures !panicked ==>
                && Valid() && Reached() && fresh(repr - old(repr))
                && history == old(history) + EventsOf(old(clients.Keys), event)
                && Told(old(log), log, told)
      ensures told.Some? ==> !panicked && told.value.SentMessage?
    {
      match event {
        case Listener(draws) =>
          Accept(draws);
          return false, None;
        case Stream(id, io) =>
          if id !in clients {
            GoneReaches(cfg, history, State(), id, Polled(id, io));
            return true, None;
          }
          panicked, told := OnStream(id, io);
      }
    }

    lemma {:induction false} SameKeys()
      requires Valid()
      ensures State().clients.Keys == clients.Keys
    {
    }

    // The reports that the last poll brought and that are still to be looked at.
    ghost function Pending(): seq<Report>
      reads this
    {
      if eventsProcessed <= |events| then events[eventsProcessed..] else []
    }

    // Since the call began, the reports in consumed were looked at and the first k polls made.
    ghost predicate Stands(call: Call, k: nat, consumed: seq<Report>)
      reads this, repr
    {
      Valid() && Reached() && Accounted(call, k, consumed, Pending()) && Followed(cfg, call.history, history, consumed)
    }

    // ... and then a disconnect was popped.
    ghost predicate Ended(call: Call, k: nat, consumed: seq<Report>)
      reads this, repr
    {
      && Valid() && Reached() && Accounted(call, k, consumed, Pending())
      && exists past :: history == past + [Popped] && Followed(cfg, call.history, past, consumed)
    }

    // After this history the event panics.
    ghost predicate Panics(event: Report)
      reads this
    {
      event.Stream? && Kills(Polled(event.id, event.io))
    }

    // The last of the reports in consumed panicked; the others were attended to.
    ghost predicate Fell(call: Call, consumed: seq<Report>)
      reads this
    {
      && consumed != []
      && Followed(cfg, call.history, history, consumed[..|consumed| - 1]) && Panics(consumed[|consumed| - 1])
    }

    method ProcessNext(ghost call: Call, ghost k: nat, ghost before: seq<Report>)
      returns (panicked: bool, told: Option<Notification>, ghost consumed: seq<Report>)
      requires Stands(call, k, before) && eventsProcessed < |events|
      modifies repr
      ensures panicked ==> Fell(call, consumed)
      ensures !panicked ==> Stands(call, k, consumed) && fresh(repr - old(repr)) && Told(old(log), log, told)
      ensures !panicked ==> events == old(events) && eventsProcessed == old(eventsProcessed) + 1
      ensures told.Some? ==> told.value.SentMessage?
    {
      var event := NextEvent();
      SameKeys();
      NextStands(cfg, call, k, history, State(), event, before, Pending());
      panicked, told := Process(event);
      consumed := before + [event];
      assert consumed[..|consumed| - 1] == before;
    }

    // The inner loop of serve: the pending reports, until one of them brings a message.
    method ProcessPending(ghost call: Call, ghost k: nat, ghost before: seq<Report>)
      returns (panicked: bool, told: Option<Notification>, ghost consumed: seq<Report>)
      requires Stands(call, k, before)
      modifies repr
      ensures panicked ==> Fell(call, consumed)
      ensures !panicked ==> Stands(call, k, consumed) && fresh(repr - old(repr)) && Told(old(log), log, told)
      ensures !panicked && told.None? ==> eventsProcessed >= |events|
      ensures told.Some? ==> told.value.SentMessage?
    {
      panicked, told, consumed := false, None, before;
      while eventsProcessed < |events|
        invariant Stands(call, k, consumed) && fresh(repr - old(repr))
        invariant !panicked && told.None? && log == old(log)
        decreases |events| - eventsProcessed
      {
        panicked, told, consumed := ProcessNext(call, k, consumed);
        if panicked || told.Some? { return; }
      }
    }

    // The answer of a call, and what it leaves.
    ghost predicate Leaves(call: Call, k: nat, consumed: seq<Report>, r: Answer)
      reads this, repr
    {
      match r
      case Aborted => Fell(call, consumed)
      case Idle => Stands(call, k, consumed) && Pending() == [] && k == |call.polls|
      case Notified(n) => if n.Disconnected? then Ended(call, k, consumed) else Stands(call, k, consumed)
    }

    // One turn of serve: the queue, a new poll if the last one is used up, and the pending
    // reports.
    method Turn(polls: seq<seq<Report>>, ghost call: Call, k0: nat, ghost before: seq<Report>)
      returns (r: Option<Answer>, k: nat, ghost consumed: seq<Report>)
      requires Stands(call, k0, before) && call.polls == polls
      modifies repr
      ensures if r.None? then Stands(call, k, consumed) else Leaves(call, k, consumed, r.value)
      ensures r.None? ==> k > k0 || (k == k0 && |Pending()| < |old(Pending())|)
      ensures k == k0 || (k == k0 + 1 && Quiet(cfg, call, k0))
      ensures r == Some(Idle) ==> queuedDisconnects == []
      ensures r != Some(Aborted) ==> fresh(repr - old(repr)) && Told(old(log), log, Saying(r))
      ensures old(queuedDisconnects) != [] ==>
                && r == Some(Notified(Disconnected(old(queuedDisconnects)[|old(queuedDisconnects)| - 1])))
                && consumed == before
    {
      if queuedDisconnects != [] {
        var id := Disconnect(call, k0, before);
        return Some(Notified(Disconnected(id))), k0, before;
      }
      k := k0;
      if eventsProcessed >= |events| {
        if k == |polls| { return Some(Idle), k, before; }
        PollsQuietly(call, k, before);
        LoadEvents(polls[k], call, k, before);
        k := k + 1;
      }
      var panicked, told;
      panicked, told, consumed := ProcessPending(call, k, before);
      if panicked { return Some(Aborted), k, consumed; }
      return if told.Some? then Some(Notified(told.value)) else None, k, consumed;
    }

    // A queued disconnect first; otherwise the events that are left, then those of the next
    // poll, until one of them brings a message or drops a client that was heard. No poll is
    // made, and no call ends without an answer, while a disconnect is queued.
    method Serve(polls: seq<seq<Report>>) returns (r: Answer, ghost consumed: seq<Report>, k: nat)
      requires Valid() && Reached()
      modifies repr
      ensures Leaves(Call(old(history), old(Pending()), polls), k, consumed, r)
      ensures !r.Aborted? ==> fresh(repr - old(repr)) && Told(old(log), log, Saying(Some(r)))
      ensures old(queuedDisconnects) != [] ==>
                && r == Notified(Disconnected(old(queuedDisconnects)[|old(queuedDisconnects)| - 1]))
                && consumed == []
      ensures AllQuiet(cfg, Call(old(history), old(Pending()), polls), k)
      ensures r.Idle? ==> queuedDisconnects == []
    {
      ghost var call := Call(history, Pending(), polls);
      consumed, k := [], 0;
      while true
        invariant Stands(call, k, consumed) && fresh(repr - old(repr)) && log == old(log)
        invariant old(queuedDisconnects) != [] ==> queuedDisconnects == old(queuedDisconnects) && consumed == []
        invariant AllQuiet(cfg, call, k)
        decreases |polls| - k, |Pending()|
      {
        var o;
        ghost var before := k;
        o, k, consumed := Turn(polls, call, k, consumed);
        QuietOn(cfg, call, before, k);
        if o.Some? { return o.value, consumed, k; }
      }
    }

    method Disconnect(ghost call: Call, ghost k: nat, ghost consumed: seq<Report>) returns (id: StreamId)
      requires Stands(call, k, consumed) && queuedDisconnects != []
      modifies this`queuedDisconnects, this`log, this`history
      ensures Ended(call, k, consumed)
      ensures log == old(log) + [Disconnected(id)] && id == old(queuedDisconnects)[|old(queuedDisconnects)| - 1]
    {
      ghost var s, past := State(), history;
      id := PopDisconnect();
      PoppedReaches(cfg, history, s);
      Record(Popped);
      assert history == past + [Popped];
    }

    lemma {:induction false} PollsQuietly(call: Call, k: nat, consumed: seq<Report>)
      requires Stands(call, k, consumed) && eventsProcessed >= |events| && queuedDisconnects == []
      ensures Quiet(cfg, call, k)
    {
      assert Pending() == [];
      NothingQueued(cfg, call, k, consumed, history, State());
    }

    // The poll is asked for new events.
    method LoadEvents(reports: seq<Report>, ghost call: Call, ghost k: nat, ghost consumed: seq<Report>)
      requires Stands(call, k, consumed) && eventsProcessed >= |events|
      requires k < |call.polls| && reports == call.polls[k]
      modifies this`events, this`eventsProcessed
      ensures Stands(call, k + 1, consumed) && Pending() == reports
    {
      assert Pending() == [];
      Loaded(call, k, consumed);
      events, eventsProcessed := reports, 0;
      assert Pending() == reports;
      AsBefore();
    }

    method NextEvent() returns (event: Report)
      requires Valid() && Reached() && eventsProcessed < |events|
      modifies this`eventsProcessed
      ensures Valid() && Reached() && eventsProcessed == old(eventsProcessed) + 1
      ensures old(Pending()) == [event] + Pending()
    {
      event := events[eventsProcessed];
      eventsProcessed := eventsProcessed + 1;
      AsBefore();
    }
  }

  // What the draws of ids come to: the first that is not in use is accepted.
  function Drawn(ids: set<StreamId>, draws: seq<StreamId>): seq<Event> {
    if draws == [] then [] else if draws[0] in ids then Drawn(ids, draws[1..]) else [Accepted(draws[0])]
  }

  function EventsOf(ids: set<StreamId>, report: Report): seq<Event> {
    match report
    case Listener(draws) => Drawn(ids, draws)
    case Stream(id, io) => [Polled(id, io)]
  }

  function Gather(polls: seq<seq<Report>>): seq<Report> {
    if polls == [] then [] else polls[0] + Gather(polls[1..])
  }

  // The history after attending to these reports, each in the state the ones before it have
  // left. None is a panic on the way.
  function HistoryOf(cfg: Config, before: seq<Event>, reports: seq<Report>): Option<seq<Event>>
    decreases |reports|
  {
    if reports == [] then Some(before)
    else
      var n := |reports| - 1;
      match HistoryOf(cfg, before, reports[..n])
      case None => None
      case Some(h) =>
        match Reaches(cfg, h)
        case None => None
        case Some(s) => Some(h + EventsOf(s.clients.Keys, reports[n]))
  }

  // From one history to the next exactly these reports were attended to, in order.
  predicate Followed(cfg: Config, before: seq<Event>, after: seq<Event>, consumed: seq<Report>) {
    HistoryOf(cfg, before, consumed) == Some(after)
  }

  // When poll j was made, all reports before it had been attended to and no disconnect was
  // left in the queue.
  predicate Quiet(cfg: Config, call: Call, j: nat) {
    && j <= |call.polls|
    && match HistoryOf(cfg, call.history, call.pending + Gather(call.polls[..j]))
       case None => false
       case Some(h) => Reaches(cfg, h).Some? && Reaches(cfg, h).value.queued == []
  }

  // No report is lost or looked at twice.
  predicate Accounted(call: Call, k: nat, consumed: seq<Report>, pending: seq<Report>) {
    && k <= |call.polls|
    && consumed + pending + Gather(call.polls[k..]) == call.pending + Gather(call.polls)
  }

  // The notification that an answer is.
  function Saying(r: Option<Answer>): Option<Notification> {
    if r.Some? && r.value.Notified? then Some(r.value.n) else None
  }

  lemma {:induction false} NextStands(
      cfg: Config, call: Call, k: nat, past: seq<Event>, s: Server, event: Report, before: seq<Report>, pending: seq<Report>)
    requires Followed(cfg, call.history, past, before) && Reaches(cfg, past) == Some(s)
    requires Accounted(call, k, before, [event] + pending)
    ensures Accounted(call, k, before + [event], pending)
    ensures Followed(cfg, call.history, past + EventsOf(s.clients.Keys, event), before + [event])
  {
    assert (before + [event])[..|before|] == before;
    Looked(call, k, before, event, pending);
  }

  // The draw that is accepted is the first that is not in use; there is none exactly if all are.
  lemma {:induction false} DrawnExact(ids: set<StreamId>, draws: seq<StreamId>, i: nat)
    ensures i < |draws| && draws[i] !in ids && (forall j | 0 <= j < i :: draws[j] in ids) ==> Drawn(ids, draws) == [Accepted(draws[i])]
    ensures Drawn(ids, draws) == [] <==> forall j | 0 <= j < |draws| :: draws[j] in ids
    decreases |draws|
  {
    if draws != [] && draws[0] in ids {
      DrawnExact(ids, draws[1..], if i > 0 then i - 1 else 0);
      assert (forall j | 0 <= j < |draws[1..]| :: draws[1..][j] in ids) <==> (forall j | 1 <= j < |draws| :: draws[j] in ids) by {
        assert forall j | 1 <= j < |draws| :: draws[j] == draws[1..][j - 1];
        assert forall j | 0 <= j < |draws[1..]| :: draws[1..][j] == draws[j + 1];
      }
    }
  }

  // What attending to reports adds to a history are events of streams and new connections.
  lemma {:induction false} FollowedExtends(cfg: Config, before: seq<Event>, after: seq<Event>, consumed: seq<Report>)
    requires Followed(cfg, before, after, consumed)
    ensures before <= after && forall i | |before| <= i < |after| :: after[i].Polled? || after[i].Accepted?
    decreases |consumed|
  {
    if consumed != [] {
      var n := |consumed| - 1;
      var h := HistoryOf(cfg, before, consumed[..n]).value;
      FollowedExtends(cfg, before, h, consumed[..n]);
      AddsStreams(Reaches(cfg, h).value.clients.Keys, consumed[n]);
    }
  }

  // The stream events of a history, in order.
  function PolledIn(history: seq<Event>): seq<Event> {
    if history == [] then []
    else
      var e := history[|history| - 1];
      PolledIn(history[..|history| - 1]) + if e.Polled? then [e] else []
  }

  function StreamsOf(reports: seq<Report>): seq<Event> {
    if reports == [] then []
    else
      var r := reports[|reports| - 1];
      StreamsOf(reports[..|reports| - 1]) + if r.Stream? then [Polled(r.id, r.io)] else []
  }

  // Of the streams exactly those among the reports were attended to, in their order.
  lemma {:induction false} FollowedStreams(cfg: Config, before: seq<Event>, after: seq<Event>, consumed: seq<Report>)
    requires Followed(cfg, before, after, consumed)
    ensures PolledIn(after) == PolledIn(before) + StreamsOf(consumed)
    decreases |consumed|
  {
    if consumed != [] {
      var n := |consumed| - 1;
      var h := HistoryOf(cfg, before, consumed[..n]).value;
      FollowedStreams(cfg, before, h, consumed[..n]);
      AddsPolled(h, Reaches(cfg, h).value.clients.Keys, consumed[n]);
    }
  }

  lemma {:induction false} AddsPolled(h: seq<Event>, ids: set<StreamId>, report: Report)
    ensures PolledIn(h + EventsOf(ids, report)) == PolledIn(h) + if report.Stream? then [Polled(report.id, report.io)] else []
  {
    var es := EventsOf(ids, report);
    if report.Listener? { AcceptsAtMost(ids, report.draws); }
    if es == [] {
      assert h + [] == h;
    } else {
      assert (h + es)[..|h|] == h && (h + es)[|h|] == es[0];
    }
  }

  lemma {:induction false} AddsStreams(ids: set<StreamId>, report: Report)
    ensures forall e <- EventsOf(ids, report) :: e.Polled? || e.Accepted?
  {
    if report.Listener? { AcceptsAtMost(ids, report.draws); }
  }

  lemma {:induction false} AcceptsAtMost(ids: set<StreamId>, draws: seq<StreamId>)
    ensures var d := Drawn(ids, draws); d == [] || (|d| == 1 && d == [d[0]] && d[0].Accepted? && d[0].id !in ids)
    decreases |draws|
  {
    if draws != [] && draws[0] in ids {
      AcceptsAtMost(ids, draws[1..]);
    }
  }

  lemma {:induction false} Loaded(call: Call, k: nat, consumed: seq<Report>)
    requires Accounted(call, k, consumed, []) && k < |call.polls|
    ensures Accounted(call, k + 1, consumed, call.polls[k])
  {
    assert call.polls[k..][1..] == call.polls[k + 1..];
    assert consumed + [] == consumed;
  }

  // So it was when each of the first k polls was made.
  predicate AllQuiet(cfg: Config, call: Call, k: nat) {
    k == 0 || (AllQuiet(cfg, call, k - 1) && Quiet(cfg, call, k - 1))
  }

  lemma {:induction false} QuietOn(cfg: Config, call: Call, k: nat, l: nat)
    requires AllQuiet(cfg, call, k) && (l == k || (l == k + 1 && Quiet(cfg, call, k)))
    ensures AllQuiet(cfg, call, l)
  {
  }

  lemma {:induction false} NothingQueued(cfg: Config, call: Call, k: nat, consumed: seq<Report>, history: seq<Event>, s: Server)
    requires Accounted(call, k, consumed, []) && Followed(cfg, call.history, history, consumed)
    requires Reaches(cfg, history) == Some(s) && s.queued == []
    ensures Quiet(cfg, call, k)
  {
    GatherParts(call.polls, k);
    var before, later := call.pending + Gather(call.polls[..k]), Gather(call.polls[k..]);
    assert consumed + later == before + later by {
      assert consumed + [] == consumed;
      assert call.pending + Gather(call.polls) == before + later;
    }
    assert consumed == (consumed + later)[..|consumed|] && before == (before + later)[..|before|];
  }

  lemma {:induction false} GatherParts(polls: seq<seq<Report>>, k: nat)
    requires k <= |polls|
    ensures Gather(polls) == Gather(polls[..k]) + Gather(polls[k..])
    decreases k
  {
    if k == 0 {
      assert polls[0..] == polls && polls[..0] == [];
    } else {
      GatherParts(polls[1..], k - 1);
      assert polls[..k][1..] == polls[1..][..k - 1] && polls[1..][k - 1..] == polls[k..];
    }
  }

  lemma {:induction false} Looked(call: Call, k: nat, consumed: seq<Report>, event: Report, pending: seq<Report>)
    requires Accounted(call, k, consumed, [event] + pending)
    ensures Accounted(call, k, consumed + [event], pending)
  {
    assert consumed + ([event] + pending) == consumed + [event] + pending;
  }

  lemma {:induction false} CallLoses(cfg: Config, before: seq<Event>, after: seq<Event>, consumed: seq<Report>)
    requires Followed(cfg, before, after, consumed) && Reaches(cfg, before).Some? && Reaches(cfg, after).Some?
    ensures before <= after
    ensures var s := Reaches(cfg, before).value;
            Reaches(cfg, after).value.discarded != s.discarded
            <==> ServerLosses.Loses(cfg, s, after[|before|..], s.queued != [])
  {
    FollowedExtends(cfg, before, after, consumed);
    var events := after[|before|..];
    assert after == before + events;
    ServerRuns.RunKeeps(cfg, NEW_SERVER, before);
    ServerRuns.RunConcat(cfg, NEW_SERVER, before, events);
    assert forall i | 0 <= i < |events| :: events[i] == after[|before| + i];
    ServerLosses.BatchLoses(cfg, Reaches(cfg, before).value, events);
  }

  // serve returns exactly when the log grows, and returns what it has grown by.
  predicate Told(before: seq<Notification>, after: seq<Notification>, told: Option<Notification>) {
    after == if told.Some? then before + [told.value] else before
  }

  lemma {:induction false} Without<K, V>(m: map<K, V>, n: map<K, V>, k: K)
    requires forall j :: j in n <==> j in m && j != k
    requires forall j | j in n :: n[j] == m[j]
    ensures n == m - {k}
  {
  }

  lemma {:induction false} With<K, V>(m: map<K, V>, n: map<K, V>, k: K, v: V)
    requires forall j :: j in n <==> j in m || j == k
    requires forall j | j in n :: n[j] == if j == k then v else m[j]
    ensures n == m[k := v]
  {
  }

  lemma {:induction false} SettleAbsorbs(s: Server, id: StreamId, r: Stage)
    requires id in s.clients && !r.Crash?
    ensures Settle(s.(clients := s.clients[id := r.c]), id, r) == Settle(s, id, r)
  {
    assert s.clients[id := r.c] - {id} == s.clients - {id};
    assert s.clients[id := r.c][id := r.c] == s.clients[id := r.c];
  }

  lemma {:induction false} PolledReaches(
      cfg: Config, history: seq<Event>, s: Server, id: StreamId, io: Io, v: Verdict, c: Client, script: seq<WriteOutcome>)
    requires Reaches(cfg, history) == Some(s) && id in s.clients
    requires StageOf(v, c, script) == Handle(cfg, s.clients[id], io)
    ensures Reaches(cfg, history + [Polled(id, io)])
         == if v.Crashed? then None else Settle(s.(clients := s.clients[id := c]), id, StageOf(v, c, script))
  {
    ServerRuns.RunOneMore(cfg, NEW_SERVER, history, Polled(id, io));
    if !v.Crashed? {
      SettleAbsorbs(s, id, StageOf(v, c, script));
    }
  }

  // Settling what a connection has already become.
  lemma {:induction false} SettleCases(s: Server, id: StreamId, v: Verdict, c: Client, script: seq<WriteOutcome>)
    requires id in s.clients && s.clients[id] == c
    ensures Settle(s, id, StageOf(v, c, script)) ==
            if v.Crashed? then None
            else Some(
              if v.Lost? then Dropped(s, id, c)
              else if v.TlsLost? then Discard(Dropped(s, id, c))
              else if v.Handed? then s.(log := s.log + [SentMessage(id, v.msg)])
              else s)
  {
    assert s.clients[id := c] == s.clients;
  }

  lemma {:induction false} SentReaches(
      cfg: Config, history: seq<Event>, s: Server, id: StreamId, msg: Message, script: seq<WriteOutcome>,
      v: Verdict, c: Client, left: seq<WriteOutcome>)
    requires Reaches(cfg, history) == Some(s) && id in s.clients && Sized(msg)
    requires StageOf(v, c, left) == SendStage(s.clients[id], msg, script)
    ensures !v.Crashed? ==>
              Reaches(cfg, history + [Sent(id, msg, script)])
              == Settle(s.(clients := s.clients[id := c]), id, StageOf(v, c, left))
  {
    ServerRuns.RunOneMore(cfg, NEW_SERVER, history, Sent(id, msg, script));
    if !v.Crashed? {
      SettleAbsorbs(s, id, StageOf(v, c, left));
    }
  }

  lemma {:induction false} AcceptedReaches(cfg: Config, history: seq<Event>, s: Server, id: StreamId)
    requires Reaches(cfg, history) == Some(s) && id !in s.clients
    ensures Reaches(cfg, history + [Accepted(id)]) == Some(s.(clients := s.clients[id := NEW_CLIENT]))
  {
    ServerRuns.RunOneMore(cfg, NEW_SERVER, history, Accepted(id));
  }

  lemma {:induction false} GoneReaches(cfg: Config, history: seq<Event>, s: Server, id: StreamId, e: Event)
    requires Reaches(cfg, history) == Some(s) && id !in s.clients
    requires (e.Polled? || e.Sent?) && e.id == id
    ensures Reaches(cfg, history + [e]) == None
  {
    ServerRuns.RunOneMore(cfg, NEW_SERVER, history, e);
  }

  lemma {:induction false} PoppedReaches(cfg: Config, history: seq<Event>, s: Server)
    requires Reaches(cfg, history) == Some(s)
    ensures Reaches(cfg, history + [Popped]) == Some(Pop(s))
  {
    ServerRuns.RunOneMore(cfg, NEW_SERVER, history, Popped);
  }
}
