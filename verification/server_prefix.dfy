// What failed copies of the response do to a connection's wire: when they happen, and that
// after them the wire is no prefix of the response and its frames.
module ServerPrefixes {
  import opened Bytes
  import opened Text
  import opened Output
  import opened WsParsing
  import opened Messaging
  import opened Handshaking
  import opened ServerSteps
  import opened ServerClients
  import opened ServerWire
  import opened ServerRuns
  import opened ServerHistories
  import opened ServerStreams
  import HttpRequests
  import HttpResponses
  import HttpRoundTrip

  // ---------------------------------------------------------------- one copy

  // io::copy of n bytes has taken some and then fails: before the last byte comes a block, a
  // failure, a 0 or the end of what the stream will do.
  predicate Tears(n: nat, script: seq<WriteOutcome>, taken: bool)
    decreases |script|
  {
    && n > 0
    && if script == [] then taken
       else
         match script[0]
         case Accept(k) => if k == 0 then taken else Tears(n - Min(k, n), script[1..], true)
         case Interrupt => Tears(n, script[1..], taken)
         case _ => taken
  }

  lemma {:induction false} CopyTears(slice: seq<byte>, w: Wire, taken: bool)
    ensures var c := Copy(slice, w);
            Tears(|slice|, w.script, taken) <==> !c.result.Done? && (taken || c.copied > 0)
    decreases |slice| + Interruptions(w.script)
  {
    if slice != [] && w.script != [] {
      var (w', r) := WriteOn(w, slice);
      match w.script[0]
      case Accept(k) => if k > 0 { CopyTears(slice[Min(k, |slice|)..], w', true); }
      case Interrupt => CopyTears(slice, w', taken);
      case _ =>
    }
  }

  lemma {:induction false} ResponseTears(h: HandshakerState, w: Wire)
    requires h.bytesWrit <= |h.buf|
    ensures SendResponse(h, w).lost > 0 <==> Tears(|h.buf| - h.bytesWrit, w.script, false)
  {
    CopyTears(h.buf[h.bytesWrit..], w, false);
  }

  // Five bytes taken, then a block: the next copy starts from the first byte again.
  lemma {:induction false} TornRestarts(response: seq<byte>)
    requires |response| > 5
    ensures var a := SendResponse(HandshakerState(response, 0), Wire([], [Accept(5), Block]));
            var b := SendResponse(a.state, Wire(a.wire.sent, [Accept(|response|), Accept(0)]));
            && a.result.WouldBlock? && a.wire.sent == response[..5]
            && b.result.Done? && b.state.bytesWrit == |response| && b.wire.sent == response[..5] + response
  {
    TakesFive(response);
    TakesAll(response, response[..5]);
    assert response[0..] == response;
  }

  lemma {:induction false} TakesFive(response: seq<byte>)
    requires |response| > 5
    ensures Copy(response, Wire([], [Accept(5), Block])) == Copying(Wire(response[..5], []), 5, WouldBlock)
  {
    var w := Wire([], [Accept(5), Block]);
    assert w.script[1..] == [Block] && [Block][1..] == [];
    assert [] + response[..5] == response[..5];
    assert WriteOn(w, response) == (Wire(response[..5], [Block]), Done(5));
    assert Copy(response[5..], Wire(response[..5], [Block])) == Copying(Wire(response[..5], []), 0, WouldBlock);
  }

  // ---------------------------------------------------------------- one event

  // Nothing was written that was not counted.
  predicate NoLoss(c: Client) {
    Flatten(c.trace.attempts) == []
  }

  // The handshake has a response to send, and sending it tears.
  predicate TurnTears(cfg: Config, c: Client, script: seq<WriteOutcome>)
    requires Runnable(c)
  {
    var (d, reply) := Shaken(c, cfg.accept);
    && reply.Progress? && reply.status.Responding?
    && Tears(|d.handshaker.buf| - d.handshaker.bytesWrit, script, false)
  }

  lemma {:induction false} LossOf(before: seq<seq<byte>>, after: seq<seq<byte>>, buf: seq<byte>, k: nat, lost: nat, torn: bool)
    requires k + lost <= |buf| && after == before + [buf[k..k + lost]] && (lost > 0 <==> torn)
    ensures Flatten(after) == [] <==> Flatten(before) == [] && !torn
  {
    FlattenSnoc(before, buf[k..k + lost]);
  }

  // What an answer adds to the attempts.
  lemma {:induction false} AnsweredAdds(d: Client, script: seq<WriteOutcome>)
    requires Runnable(d)
    ensures var h := d.handshaker;
            var lost := SendResponse(h, Wire(d.sent, script)).lost;
            && lost <= |h.buf| - h.bytesWrit
            && Answered(d, script).0.trace.attempts == d.trace.attempts + [h.buf[h.bytesWrit..h.bytesWrit + lost]]
  {
  }

  lemma {:induction false} AnsweredTears(d: Client, script: seq<WriteOutcome>)
    requires Runnable(d)
    ensures var e := Answered(d, script).0;
            NoLoss(e) <==> NoLoss(d) && !Tears(|d.handshaker.buf| - d.handshaker.bytesWrit, script, false)
  {
    var h := d.handshaker;
    var lost := SendResponse(h, Wire(d.sent, script)).lost;
    AnsweredAdds(d, script);
    ResponseTears(h, Wire(d.sent, script));
    LossOf(d.trace.attempts, Answered(d, script).0.trace.attempts, h.buf, h.bytesWrit, lost,
           Tears(|h.buf| - h.bytesWrit, script, false));
  }

  lemma {:induction false} ShakenAttempts(cfg: Config, c: Client)
    requires Runnable(c)
    ensures Shaken(c, cfg.accept).0.trace.attempts == c.trace.attempts
  {
    ShakenSame(cfg, c);
  }

  // Once the response is counted the handshake only ends.
  lemma {:induction false} CountedEnds(cfg: Config, c: Client, script: seq<WriteOutcome>)
    requires Runnable(c) && c.handshaker.buf != [] && c.handshaker.bytesWrit == |c.handshaker.buf|
    ensures HandshakeStage(cfg, c, script).c.trace.attempts == c.trace.attempts
  {
    var (d, reply) := Shaken(c, cfg.accept);
    ShakenAttempts(cfg, c);
    HandshakeUnrolls(cfg, c, script, d, reply);
  }

  lemma {:induction false} AnswerEnds(cfg: Config, a: (Client, seq<WriteOutcome>, IoResult))
    requires Runnable(a.0) && a.0.handshaker.buf != []
    requires a.2.Done? ==> a.0.handshaker.bytesWrit == |a.0.handshaker.buf|
    ensures (AfterAnswer(cfg, a).Stay? || AfterAnswer(cfg, a).Drop?)
    ensures AfterAnswer(cfg, a).c.trace.attempts == a.0.trace.attempts
  {
    if a.2.Done? {
      CountedEnds(cfg, a.0, a.1);
    }
  }

  // The bytes are lost in the one answer of the stage, if there is one.
  lemma {:induction false} HandshakeAttempts(cfg: Config, c: Client, script: seq<WriteOutcome>, d: Client, reply: HandshakeReply)
    requires Runnable(c) && (d, reply) == Shaken(c, cfg.accept)
    ensures HandshakeStage(cfg, c, script).c.trace.attempts ==
            if reply.Progress? && reply.status.Responding? then Answered(d, script).0.trace.attempts else d.trace.attempts
  {
    HandshakeUnrolls(cfg, c, script, d, reply);
    if reply.Progress? && reply.status.Responding? {
      RespondingHas(cfg, c);
      AnswerEnds(cfg, Answered(d, script));
    }
  }

  lemma {:induction false} SameLoss(c: Client, d: Client)
    requires c.trace.attempts == d.trace.attempts
    ensures NoLoss(c) <==> NoLoss(d)
  {
  }

  lemma {:induction false} HandshakeTears(cfg: Config, c: Client, script: seq<WriteOutcome>)
    requires Runnable(c)
    ensures var r := HandshakeStage(cfg, c, script);
            NoLoss(r.c) <==> NoLoss(c) && !TurnTears(cfg, c, script)
  {
    var (d, reply) := Shaken(c, cfg.accept);
    ShakenAttempts(cfg, c);
    SameLoss(c, d);
    HandshakeAttempts(cfg, c, script, d, reply);
    var r := HandshakeStage(cfg, c, script).c;
    if reply.Progress? && reply.status.Responding? {
      AnsweredTears(d, script);
      SameLoss(r, Answered(d, script).0);
    } else {
      SameLoss(r, d);
    }
  }

  lemma {:induction false} RespondingHas(cfg: Config, c: Client)
    requires Runnable(c)
    ensures var (d, reply) := Shaken(c, cfg.accept);
            reply.Progress? && reply.status.Responding? ==> d.handshaker.buf != []
  {
  }

  // Reading and writing before it do not matter; what counts is the turn of the handshake.
  predicate EventTears(cfg: Config, c: Client, io: Io)
    requires Runnable(c)
  {
    && !c.tlsHandshaking && c.isHandshaking
    && var w := if io.writable then WriteStage(c, io.script) else Go(c, io.script);
       && w.Go?
       && var r := if io.readable then ReadStage(cfg, w.c, io, w.script) else w;
          r.Go? && TurnTears(cfg, r.c, r.script)
  }

  lemma {:induction false} ReadAttempts(cfg: Config, c: Client, io: Io, script: seq<WriteOutcome>)
    requires Runnable(c)
    ensures var r := ReadStage(cfg, c, io, script);
            !r.Crash? ==> r.c.trace == c.trace && r.c.isHandshaking == c.isHandshaking && (r.Go? || r.Drop?)
  {
    ReadAppends(cfg, c, io, script);
  }

  lemma {:induction false} WriteAttempts(c: Client, script: seq<WriteOutcome>)
    requires Runnable(c)
    ensures var r := WriteStage(c, script);
            (r.Go? || r.Drop?) && r.c.trace == c.trace && r.c.isHandshaking == c.isHandshaking
  {
  }

  lemma {:induction false} ParseAttempts(c: Client, script: seq<WriteOutcome>)
    requires Runnable(c)
    ensures var r := ParseStage(c, script);
            !r.Crash? ==> r.c.trace.attempts == c.trace.attempts
  {
    if ParseStage(c, script).Deliver? {
      DeliverShape(c, script);
    } else {
      OtherShape(c, script);
    }
  }

  lemma {:induction false} HandleTears(cfg: Config, c: Client, io: Io)
    requires Runnable(c)
    ensures var r := Handle(cfg, c, io);
            !r.Crash? ==> (NoLoss(r.c) <==> NoLoss(c) && !EventTears(cfg, c, io))
  {
    if !c.tlsHandshaking {
      WriteAttempts(c, io.script);
      var w := if io.writable then WriteStage(c, io.script) else Go(c, io.script);
      if w.Go? {
        ReadOnTears(cfg, w.c, io, w.script);
      }
    }
  }

  lemma {:induction false} ReadOnTears(cfg: Config, c: Client, io: Io, script: seq<WriteOutcome>)
    requires Runnable(c)
    ensures var r := if io.readable then ReadStage(cfg, c, io, script) else Go(c, script);
            var t := if !r.Go? then r
                     else if r.c.isHandshaking then HandshakeStage(cfg, r.c, r.script)
                     else if io.readable then ParseStage(r.c, r.script)
                     else Stay(r.c);
            !t.Crash? ==>
              (NoLoss(t.c) <==> NoLoss(c) && !(c.isHandshaking && r.Go? && TurnTears(cfg, r.c, r.script)))
  {
    ReadAttempts(cfg, c, io, script);
    var r := if io.readable then ReadStage(cfg, c, io, script) else Go(c, script);
    if r.Go? && r.c.isHandshaking {
      HandshakeTears(cfg, r.c, r.script);
    } else if r.Go? && io.readable {
      ParseAttempts(r.c, r.script);
    }
  }

  lemma {:induction false} SendAttempts(c: Client, msg: Message, script: seq<WriteOutcome>)
    requires Runnable(c) && Sized(msg)
    ensures SendStage(c, msg, script).c.trace.attempts == c.trace.attempts
  {
  }

  // ---------------------------------------------------------------- whole runs

  // Nothing was lost on any connection, live or dropped, that had this id.
  predicate NoLossOf(s: Server, id: StreamId) {
    && (id in s.clients ==> NoLoss(s.clients[id]))
    && (forall k | 0 <= k < |s.gone| && s.gone[k].0 == id :: NoLoss(s.gone[k].1))
  }

  predicate StepTears(cfg: Config, s: Server, e: Event, id: StreamId)
    requires Ready(s)
  {
    e.Polled? && e.id == id && id in s.clients && EventTears(cfg, s.clients[id], e.io)
  }

  // Some event of the run tears a response to this id.
  predicate RunTears(cfg: Config, s: Server, events: seq<Event>, id: StreamId)
    requires Ready(s)
    decreases |events|
  {
    && events != []
    && (StepTears(cfg, s, events[0], id)
        || (Step(cfg, s, events[0]).Some? && RunTears(cfg, Step(cfg, s, events[0]).value, events[1..], id)))
  }

  lemma {:induction false} SettleLosses(s: Server, other: StreamId, r: Stage, torn: bool, id: StreamId)
    requires other in s.clients && !r.Crash?
    requires NoLoss(r.c) <==> NoLoss(s.clients[other]) && !torn
    ensures NoLossOf(Settle(s, other, r).value, id) <==> NoLossOf(s, id) && !(torn && other == id)
  {
    var t := Settle(s, other, r).value;
    assert forall k | 0 <= k < |s.gone| :: t.gone[k] == s.gone[k];
    if r.Drop? || r.TlsDrop? {
      assert t.gone[|s.gone|] == (other, r.c);
    }
  }

  lemma {:induction false} StepLosses(cfg: Config, s: Server, e: Event, id: StreamId)
    requires Ready(s) && Step(cfg, s, e).Some?
    ensures NoLossOf(Step(cfg, s, e).value, id) <==> NoLossOf(s, id) && !StepTears(cfg, s, e, id)
  {
    match e
    case Accepted(other) => AcceptedLosses(cfg, s, other, id);
    case Popped => AcceptedLosses(cfg, s, 0, id);
    case Polled(other, io) =>
      HandleTears(cfg, s.clients[other], io);
      SettleLosses(s, other, Handle(cfg, s.clients[other], io), EventTears(cfg, s.clients[other], io), id);
    case Sent(other, msg, script) =>
      SendAttempts(s.clients[other], msg, script);
      SettleLosses(s, other, SendStage(s.clients[other], msg, script), false, id);
  }

  lemma {:induction false} AcceptedLosses(cfg: Config, s: Server, other: StreamId, id: StreamId)
    requires Ready(s)
    ensures NoLossOf(Step(cfg, s, Accepted(other)).value, id) <==> NoLossOf(s, id)
    ensures NoLossOf(Pop(s), id) <==> NoLossOf(s, id)
  {
    assert NoLoss(NEW_CLIENT);
  }

  // Over any run: nothing is ever lost on the connections with this id exactly if no event
  // of the run tears a response to it.
  lemma {:induction false} RunLosses(cfg: Config, s: Server, events: seq<Event>, id: StreamId)
    requires Ready(s) && Run(cfg, s, events).Some?
    ensures NoLossOf(Run(cfg, s, events).value, id) <==> NoLossOf(s, id) && !RunTears(cfg, s, events, id)
    decreases |events|
  {
    if events != [] {
      StepLosses(cfg, s, events[0], id);
      RunLosses(cfg, Step(cfg, s, events[0]).value, events[1..], id);
    }
  }

  // ---------------------------------------------------------------- the response, once

  // The response starts with no line end, and its empty line is its last four bytes and
  // nowhere else.
  ghost predicate EndsOnce(response: seq<byte>) {
    && |response| >= 4 && response[0] != CR && response[0] != LF
    && forall p :: At(response, CRLF2, p) <==> p == |response| - 4
  }

  lemma {:induction false} StartsLikeHttp(r: HttpResponses.Response)
    requires r.version == HttpRequests.V_1_1
    ensures |HttpResponses.Serialized(r)| >= 4 && HttpResponses.Serialized(r)[0] == 72
  {
    var lines := HttpResponses.Lines(r);
    assert Lit("HTTP/1.1")[0] == 72 && |Lit("HTTP/1.1")| == 8;
    assert lines[0][0] == 72;
    assert HttpResponses.Serialized(r)[0] == lines[0][0];
  }

  lemma {:induction false} UpgradeEndsOnce(key: seq<byte>, accept: AcceptFn)
    requires HttpRoundTrip.Plain(accept(key))
    ensures EndsOnce(Upgrade(key, accept))
  {
    var response := Upgrade(key, accept);
    StartsLikeHttp(UpgradeResponse(accept(key)));
    UpgradeScans(key, accept, []);
    assert response + [] == response;
    assert response[0..4][0] == response[0];
    var head := HttpRequests.Head(response).value.0;
    HttpRequests.HeadExact(response, head, []);
    FindExact(response, CRLF2, |head|);
    assert |response| == |head| + 4;
  }

  // Whatever was taken by failed copies before it, the response still ends where its own
  // empty line is: no other appears, neither within an attempt nor across two.
  lemma {:induction false} LostEndsOnce(attempts: seq<seq<byte>>, response: seq<byte>, p: nat)
    requires EndsOnce(response) && forall i | 0 <= i < |attempts| :: Partial(attempts[i], response)
    requires At(Flatten(attempts) + response, CRLF2, p)
    ensures p == |Flatten(attempts)| + |response| - 4
    decreases |attempts|
  {
    if attempts == [] {
      assert Flatten(attempts) + response == response;
    } else {
      var a, rest := attempts[0], Flatten(attempts[1..]) + response;
      assert Flatten(attempts) == a + Flatten(attempts[1..]);
      assert a + Flatten(attempts[1..]) + response == a + rest;
      StartsAlike(attempts[1..], response);
      NotAcross(a, rest, response, p);
      Shifts(a, rest, p);
      LostEndsOnce(attempts[1..], response, p - |a|);
    }
  }

  lemma {:induction false} Shifts(a: seq<byte>, rest: seq<byte>, p: nat)
    requires At(a + rest, CRLF2, p) && p >= |a|
    ensures At(rest, CRLF2, p - |a|)
  {
    assert (a + rest)[p..p + 4] == rest[p - |a|..p - |a| + 4];
  }

  lemma {:induction false} StartsAlike(attempts: seq<seq<byte>>, response: seq<byte>)
    requires response != [] && forall i | 0 <= i < |attempts| :: Partial(attempts[i], response)
    ensures (Flatten(attempts) + response)[0] == response[0]
    decreases |attempts|
  {
    if attempts != [] {
      StartsAlike(attempts[1..], response);
      var a, b := attempts[0], Flatten(attempts[1..]);
      assert Flatten(attempts) == a + b;
      assert a + b + response == a + (b + response);
    }
  }

  lemma {:induction false} NotAcross(a: seq<byte>, rest: seq<byte>, response: seq<byte>, p: nat)
    requires EndsOnce(response) && Partial(a, response) && rest != [] && rest[0] == response[0]
    requires At(a + rest, CRLF2, p)
    ensures p >= |a|
  {
    var s := a + rest;
    HttpRequests.AtStart(s, p);
    assert s[|a|] == rest[0];
    assert p + 4 <= |a| ==> s[p..p + 4] == response[p..p + 4];
    assert p + 4 <= |a| ==> At(response, CRLF2, p);
  }

  // ---------------------------------------------------------------- the wire as a prefix

  // Everything a connection was to carry: its response and the frames of its messages.
  function Ideal(c: Client): seq<byte>
    requires Sized(c.msg) && AllSized(Completed(c.trace.retired))
  {
    FramesSnoc(Completed(c.trace.retired), c.msg);
    c.handshaker.buf + Frames(Completed(c.trace.retired) + [c.msg])
  }

  // The response is out, and counted.
  predicate Counted(c: Client) {
    c.handshaker.buf != [] && c.handshaker.bytesWrit == |c.handshaker.buf|
  }

  // Once the response is counted, what went out is a prefix of the response and the frames
  // exactly if nothing was lost.
  lemma {:induction false} PrefixExact(cfg: Config, c: Client, given: seq<Message>)
    requires Runnable(c) && WireExact(c) && Ordered(cfg, c) && WellFramed(c, given) && Counted(c)
    requires forall key :: HttpRoundTrip.Plain(cfg.accept(key))
    ensures c.sent <= Ideal(c) <==> NoLoss(c)
  {
    var rest := SentAfter(c, given);
    ResponseEndsOnce(cfg, c);
    PrefixIff(c.trace.attempts, c.handshaker.buf, rest, Frames(Completed(c.trace.retired) + [c.msg]), c.sent);
  }

  lemma {:induction false} PrefixIff(
      attempts: seq<seq<byte>>, response: seq<byte>, rest: seq<byte>, frames: seq<byte>, sent: seq<byte>)
    requires EndsOnce(response) && forall i | 0 <= i < |attempts| :: Partial(attempts[i], response)
    requires sent == Flatten(attempts) + response + rest && rest <= frames
    ensures sent <= response + frames <==> Flatten(attempts) == []
  {
    if Flatten(attempts) == [] {
      assert [] + response + rest == response + rest;
      PrefixesJoin(response, rest, frames);
    } else if sent <= response + frames {
      LostIsSeen(attempts, response, rest, response + frames);
    }
  }

  lemma {:induction false} ResponseEndsOnce(cfg: Config, c: Client)
    requires Ordered(cfg, c) && Counted(c)
    requires forall key :: HttpRoundTrip.Plain(cfg.accept(key))
    ensures EndsOnce(c.handshaker.buf)
  {
    UpgradeEndsOnce(HttpRequests.Deserialize(c.trace.opening).value.0.headers[WS_KEY], cfg.accept);
  }

  // What went out after the response: a prefix of the frames.
  lemma {:induction false} SentAfter(c: Client, given: seq<Message>) returns (rest: seq<byte>)
    requires Runnable(c) && WellFramed(c, given) && Counted(c)
    ensures c.sent == Flatten(c.trace.attempts) + c.handshaker.buf + rest
    ensures AllSized(Completed(c.trace.retired) + [c.msg]) && rest <= Frames(Completed(c.trace.retired) + [c.msg])
  {
    FramesSnoc(Completed(c.trace.retired), c.msg);
    var lost, response, frames := Flatten(c.trace.attempts), c.handshaker.buf, Frames(Completed(c.trace.retired));
    if c.isHandshaking {
      rest := [];
      assert response[..|response|] == response;
      assert lost + response + [] == lost + response;
    } else {
      rest := frames + Encode(c.msg)[..c.writ];
      assert lost + response + frames + Encode(c.msg)[..c.writ] == lost + response + rest;
    }
  }

  lemma {:induction false} PrefixesJoin(a: seq<byte>, b: seq<byte>, c: seq<byte>)
    requires b <= c
    ensures a + b <= a + c
  {
  }

  lemma {:induction false} LostIsSeen(attempts: seq<seq<byte>>, response: seq<byte>, rest: seq<byte>, ideal: seq<byte>)
    requires EndsOnce(response) && forall i | 0 <= i < |attempts| :: Partial(attempts[i], response)
    requires response <= ideal && Flatten(attempts) + response + rest <= ideal
    ensures Flatten(attempts) == []
  {
    var s := Flatten(attempts) + response;
    var p := |response| - 4;
    assert At(response, CRLF2, p);
    assert s == ideal[..|s|];
    assert s[p..p + 4] == ideal[p..p + 4] == response[p..p + 4];
    LostEndsOnce(attempts, response, p);
  }

  // At most one failed copy took bytes.
  predicate TakenOnce(attempts: seq<seq<byte>>) {
    forall i, j | 0 <= i < j < |attempts| :: attempts[i] == [] || attempts[j] == []
  }

  lemma {:induction false} OnceIsPrefix(attempts: seq<seq<byte>>, response: seq<byte>)
    requires forall i | 0 <= i < |attempts| :: Partial(attempts[i], response)
    ensures TakenOnce(attempts) ==> Flatten(attempts) <= response
    ensures TakenOnce(attempts) && attempts != [] && attempts[0] != [] ==> Flatten(attempts[1..]) == []
    decreases |attempts|
  {
    if attempts != [] && TakenOnce(attempts) {
      OnceIsPrefix(attempts[1..], response);
      if attempts[0] != [] {
        assert forall j | 0 <= j < |attempts[1..]| :: attempts[1..][j] == attempts[j + 1] == [];
        AllEmpty(attempts[1..]);
      }
    }
  }

  lemma {:induction false} AllEmpty(parts: seq<seq<byte>>)
    ensures Flatten(parts) == [] <==> forall j | 0 <= j < |parts| :: parts[j] == []
    decreases |parts|
  {
    if parts != [] {
      AllEmpty(parts[1..]);
      assert forall j | 1 <= j < |parts| :: parts[j] == parts[1..][j - 1];
    }
  }

  // A second one would show the first byte of the response again.
  lemma {:induction false} TwiceRepeats(attempts: seq<seq<byte>>, response: seq<byte>)
    requires forall i | 0 <= i < |attempts| :: Partial(attempts[i], response)
    requires forall i | 0 < i < |response| :: response[i] != response[0]
    requires Flatten(attempts) <= response
    ensures TakenOnce(attempts)
    decreases |attempts|
  {
    if attempts != [] {
      var a, rest := attempts[0], Flatten(attempts[1..]);
      assert Flatten(attempts) == a + rest;
      if a == [] {
        TwiceRepeats(attempts[1..], response);
        assert forall j | 1 <= j < |attempts| :: attempts[j] == attempts[1..][j - 1];
      } else {
        FirstOfRest(attempts[1..], response);
        Aligned(a, rest, response);
        AllEmpty(attempts[1..]);
        assert forall j | 1 <= j < |attempts| :: attempts[j] == attempts[1..][j - 1];
      }
    }
  }

  lemma {:induction false} Aligned(a: seq<byte>, rest: seq<byte>, response: seq<byte>)
    requires a + rest <= response
    ensures forall i | 0 <= i < |rest| :: response[|a| + i] == rest[i]
  {
    assert forall i | 0 <= i < |rest| :: (a + rest)[|a| + i] == rest[i];
  }

  lemma {:induction false} FirstOfRest(attempts: seq<seq<byte>>, response: seq<byte>)
    requires forall i | 0 <= i < |attempts| :: Partial(attempts[i], response)
    ensures Flatten(attempts) != [] ==> response != [] && Flatten(attempts)[0] == response[0]
    decreases |attempts|
  {
    if attempts != [] {
      FirstOfRest(attempts[1..], response);
    }
  }

  // Before the response is counted, only failed copies of it are on the wire. They are a
  // prefix of it if at most one took bytes, and only then if its first byte is never repeated.
  lemma {:induction false} UncountedPrefix(c: Client, given: seq<Message>)
    requires Runnable(c) && WireExact(c) && WellFramed(c, given) && c.isHandshaking && !Counted(c)
    ensures c.sent == Flatten(c.trace.attempts)
    ensures TakenOnce(c.trace.attempts) ==> c.sent <= c.handshaker.buf
    ensures (forall i | 0 < i < |c.handshaker.buf| :: c.handshaker.buf[i] != c.handshaker.buf[0]) ==>
              (c.sent <= c.handshaker.buf <==> TakenOnce(c.trace.attempts))
  {
    assert c.handshaker.buf[..0] == [];
    OnceIsPrefix(c.trace.attempts, c.handshaker.buf);
    if (forall i | 0 < i < |c.handshaker.buf| :: c.handshaker.buf[i] != c.handshaker.buf[0]) && c.sent <= c.handshaker.buf {
      TwiceRepeats(c.trace.attempts, c.handshaker.buf);
    }
  }

  // ---------------------------------------------------------------- over whole runs

  predicate Unbroken(c: Client) {
    Sized(c.msg) && AllSized(Completed(c.trace.retired)) && c.sent <= Ideal(c)
  }

  // Once the response is counted, unbroken means that nothing was lost; before, it follows.
  predicate Judged(c: Client) {
    && (Counted(c) ==> (Unbroken(c) <==> NoLoss(c)))
    && (NoLoss(c) ==> Unbroken(c))
  }

  lemma {:induction false} ClientJudged(cfg: Config, c: Client, given: seq<Message>)
    requires Runnable(c) && WireExact(c) && Ordered(cfg, c) && WellFramed(c, given)
    requires forall key :: HttpRoundTrip.Plain(cfg.accept(key))
    ensures Judged(c)
  {
    if Counted(c) {
      PrefixExact(cfg, c, given);
    } else if NoLoss(c) {
      UncountedPrefix(c, given);
      assert c.sent <= Ideal(c);
    }
  }

  // The application keeps its part: it sends to ids it has heard from, and between frames.
  predicate Behaved(cfg: Config, events: seq<Event>) {
    && Run(cfg, NEW_SERVER, events).Some? && AllNew(cfg, NEW_SERVER, events)
    && AllHeard(cfg, NEW_SERVER, events) && AllBetween(cfg, NEW_SERVER, events)
  }

  lemma {:induction false} RunClients(cfg: Config, events: seq<Event>)
    requires Behaved(cfg, events)
    ensures var s := Run(cfg, NEW_SERVER, events).value; AllKept(cfg, s) && AllWires(s)
  {
    RunKeeps(cfg, NEW_SERVER, events);
    RunWires(cfg, NEW_SERVER, [], events);
  }

  lemma {:induction false} AllJudged(cfg: Config, events: seq<Event>)
    requires Behaved(cfg, events) && forall key :: HttpRoundTrip.Plain(cfg.accept(key))
    ensures var s := Run(cfg, NEW_SERVER, events).value;
            && (forall id | id in s.clients :: Judged(s.clients[id]))
            && (forall k | 0 <= k < |s.gone| :: Judged(s.gone[k].1))
  {
    var s := Run(cfg, NEW_SERVER, events).value;
    RunClients(cfg, events);
    OutgoingStream(cfg, events);
    forall id | id in s.clients ensures Judged(s.clients[id]) {
      ClientJudged(cfg, s.clients[id], SentTo(events, id));
    }
    forall k | 0 <= k < |s.gone| ensures Judged(s.gone[k].1) {
      ClientJudged(cfg, s.gone[k].1, SentTo(events, s.gone[k].0));
    }
  }

  // With new ids an id has one connection, and its losses are those of the id.
  lemma {:induction false} LossesOfOne(cfg: Config, events: seq<Event>, id: StreamId, c: Client)
    requires Run(cfg, NEW_SERVER, events).Some? && AllNew(cfg, NEW_SERVER, events)
    requires Holds(Run(cfg, NEW_SERVER, events).value, id, c)
    ensures NoLoss(c) <==> !RunTears(cfg, NEW_SERVER, events, id)
  {
    RunKeeps(cfg, NEW_SERVER, events);
    RunLogged(cfg, NEW_SERVER, events);
    RunLosses(cfg, NEW_SERVER, events, id);
    OnlyOne(Run(cfg, NEW_SERVER, events).value, id, c);
  }

  // This is a connection, live or dropped, with this id.
  predicate Holds(s: Server, id: StreamId, c: Client) {
    (id in s.clients && s.clients[id] == c) || (id, c) in s.gone
  }

  lemma {:induction false} OnlyOne(s: Server, id: StreamId, c: Client)
    requires NoneReused(s) && Holds(s, id, c)
    ensures NoLossOf(s, id) <==> NoLoss(c)
  {
    if (id, c) in s.gone {
      var k :| 0 <= k < |s.gone| && s.gone[k] == (id, c);
      assert forall j | 0 <= j < |s.gone| && s.gone[j].0 == id :: j == k;
    }
  }

  // For each connection, live or dropped: if no event of the run tears its response, what
  // went out is a prefix of the response and complete frames. Once the response is counted
  // it is only then.
  lemma {:induction false} OutgoingPrefix(cfg: Config, events: seq<Event>, id: StreamId, c: Client)
    requires Behaved(cfg, events) && forall key :: HttpRoundTrip.Plain(cfg.accept(key))
    requires Holds(Run(cfg, NEW_SERVER, events).value, id, c)
    ensures !RunTears(cfg, NEW_SERVER, events, id) ==> Unbroken(c)
    ensures Counted(c) ==> (Unbroken(c) <==> !RunTears(cfg, NEW_SERVER, events, id))
  {
    AllJudged(cfg, events);
    LossesOfOne(cfg, events, id, c);
    OneJudged(Run(cfg, NEW_SERVER, events).value, id, c);
  }

  lemma {:induction false} OneJudged(s: Server, id: StreamId, c: Client)
    requires Holds(s, id, c)
    requires forall j | j in s.clients :: Judged(s.clients[j])
    requires forall k | 0 <= k < |s.gone| :: Judged(s.gone[k].1)
    ensures Judged(c)
  {
  }
}
