// Parsing a stream that arrives in pieces, against parsing it whole.
module WsResuming {
  import opened Bytes
  import opened WsFrame
  import opened WsParsing
  import opened WsReassembly
  import Utf8

  datatype Stop = Starved | Faulted(error: WsError) | Crashed

  // The messages of a whole stream, and how it ends.
  datatype Transcript = Transcript(msgs: seq<Message>, stop: Stop)

  function StopOf(outcome: Outcome): Stop
    requires !outcome.Parsed?
  {
    if outcome.Panicked? then Crashed
    else if outcome.error.WOULD_BLOCK? then Starved else Faulted(outcome.error)
  }

  function ParseAll(incoming: Option<Message>, buf: seq<byte>): Transcript
    decreases |buf|
  {
    var r := ParseMessage(incoming, buf);
    if r.outcome.Parsed? then
      var t := ParseAll(None, r.outcome.rest);
      Transcript([r.outcome.msg] + t.msgs, t.stop)
    else Transcript([], StopOf(r.outcome))
  }

  // ---------------------------------------------------------------- the repaired step

  // WsParser::parse with the one assignment it lacks: while waiting, skip moves past the
  // frames already folded into the message.
  function RepairedParse(p: ParserState, buf: seq<byte>): (r: (ParserState, Reply))
    requires p.skip <= |buf|
    ensures r.0.skip <= |buf|
    ensures r.1.Message? ==> |r.1.rest| < |buf| && r.0 == ParserState(None, 0)
  {
    var r := ParseMessage(p.incoming, buf[p.skip..]);
    match r.outcome
    case Parsed(m, rest) => (ParserState(r.incoming, 0), Message(m, rest))
    case Failed(e) =>
      if e.WOULD_BLOCK? then (ParserState(r.incoming, |buf| - |r.unread|), Waiting)
      else (ParserState(r.incoming, p.skip), Error(e))
    case Panicked => (ParserState(r.incoming, p.skip), Panic)
  }

  datatype Reader = Reader(parser: ParserState, buf: seq<byte>, msgs: seq<Message>, stop: Stop)

  predicate Consistent(s: Reader) {
    s.parser.skip <= |s.buf|
  }

  function Turn(s: Reader): (r: Reader)
    requires Consistent(s)
    ensures Consistent(r)
  {
    var (p, reply) := RepairedParse(s.parser, s.buf);
    match reply
    case Message(m, rest) => Reader(p, rest, s.msgs + [m], Starved)
    case Waiting => Reader(p, s.buf, s.msgs, Starved)
    case Error(e) => Reader(p, s.buf, s.msgs, Faulted(e))
    case Panic => Reader(p, s.buf, s.msgs, Crashed)
  }

  // Parse again and again until no message is complete.
  function Drain(s: Reader): (r: Reader)
    requires Consistent(s)
    ensures Consistent(r)
    decreases |s.buf|
  {
    if RepairedParse(s.parser, s.buf).1.Message? then Drain(Turn(s)) else Turn(s)
  }

  // Chunks arrive one at a time; after an error the connection is gone.
  function Feed(s: Reader, chunks: seq<seq<byte>>): (r: Reader)
    requires Consistent(s)
    ensures Consistent(r)
    decreases |chunks|
  {
    if chunks == [] || !s.stop.Starved? then s
    else Feed(Drain(s.(buf := s.buf + chunks[0])), chunks[1..])
  }

  // What the reader has parsed, and what parsing its pending input and then future gives.
  function Outlook(s: Reader, future: seq<byte>): Transcript
    requires Consistent(s)
  {
    if s.stop.Starved? then
      var t := ParseAll(s.parser.incoming, s.buf[s.parser.skip..] + future);
      Transcript(s.msgs + t.msgs, t.stop)
    else Transcript(s.msgs, s.stop)
  }

  // The transcript after a first outcome r, once future has arrived.
  function Onward(r: Fold, future: seq<byte>): Transcript {
    match r.outcome
    case Parsed(m, rest) =>
      var later := ParseAll(None, rest + future);
      Transcript([m] + later.msgs, later.stop)
    case Failed(e) =>
      if e.WOULD_BLOCK? then ParseAll(r.incoming, r.unread + future) else Transcript([], Faulted(e))
    case Panicked => Transcript([], Crashed)
  }

  lemma {:induction false} ParseAllStable(incoming: Option<Message>, buf: seq<byte>, future: seq<byte>)
    ensures ParseAll(incoming, buf + future) == Onward(ParseMessage(incoming, buf), future)
  {
    if ParseMessage(incoming, buf).outcome == Failed(WOULD_BLOCK) {
      ParseMessageResumes(incoming, buf, future);
    } else {
      ParseMessageStable(incoming, buf, future);
    }
  }

  // One turn, by the outcome of the parse.
  lemma {:induction false} TurnOutcome(s: Reader)
    requires Consistent(s)
    ensures var r := ParseMessage(s.parser.incoming, s.buf[s.parser.skip..]);
            var t := Turn(s);
            if r.outcome.Parsed? then
              t == Reader(ParserState(None, 0), r.outcome.rest, s.msgs + [r.outcome.msg], Starved)
            else
              t.msgs == s.msgs && t.stop == StopOf(r.outcome)
              && (t.stop.Starved? ==> t.parser.incoming == r.incoming && t.buf[t.parser.skip..] == r.unread)
  {
    var pending := s.buf[s.parser.skip..];
    var r := ParseMessage(s.parser.incoming, pending);
    UnreadIsSuffix(s.parser.incoming, pending);
    SuffixOfSuffix(s.buf, s.parser.skip, |r.unread|);
  }

  lemma {:induction false} SuffixOfSuffix(buf: seq<byte>, skip: nat, n: nat)
    requires skip + n <= |buf|
    ensures buf[skip..][|buf| - skip - n..] == buf[|buf| - n..]
  {
  }

  lemma {:induction false} TurnKeepsOutlook(s: Reader, future: seq<byte>)
    requires Consistent(s) && s.stop.Starved?
    ensures Outlook(Turn(s), future) == Outlook(s, future)
  {
    var pending := s.buf[s.parser.skip..];
    var r := ParseMessage(s.parser.incoming, pending);
    var t := Turn(s);
    TurnOutcome(s);
    ParseAllStable(s.parser.incoming, pending, future);
    OnwardAfter(s.msgs, r, future);
    assert r.outcome.Parsed? ==> t.buf[t.parser.skip..] == r.outcome.rest;
  }

  lemma {:induction false} OnwardAfter(msgs: seq<Message>, r: Fold, future: seq<byte>)
    ensures msgs + Onward(r, future).msgs ==
            if r.outcome.Parsed? then msgs + [r.outcome.msg] + ParseAll(None, r.outcome.rest + future).msgs
            else if r.outcome == Failed(WOULD_BLOCK) then msgs + ParseAll(r.incoming, r.unread + future).msgs
            else msgs
  {
  }

  lemma {:induction false} DrainKeepsOutlook(s: Reader, future: seq<byte>)
    requires Consistent(s) && s.stop.Starved?
    ensures Outlook(Drain(s), future) == Outlook(s, future)
    decreases |s.buf|
  {
    TurnKeepsOutlook(s, future);
    if RepairedParse(s.parser, s.buf).1.Message? {
      DrainKeepsOutlook(Turn(s), future);
    }
  }

  lemma {:induction false} ArrivalKeepsOutlook(s: Reader, chunk: seq<byte>, later: seq<byte>)
    requires Consistent(s)
    ensures Outlook(s.(buf := s.buf + chunk), later) == Outlook(s, chunk + later)
  {
    assert (s.buf + chunk)[s.parser.skip..] + later == s.buf[s.parser.skip..] + (chunk + later);
  }

  lemma {:induction false} FeedKeepsOutlook(s: Reader, chunks: seq<seq<byte>>)
    requires Consistent(s)
    ensures Outlook(Feed(s, chunks), []) == Outlook(s, Flatten(chunks))
    decreases |chunks|
  {
    if chunks != [] && s.stop.Starved? {
      ArrivalKeepsOutlook(s, chunks[0], Flatten(chunks[1..]));
      DrainKeepsOutlook(s.(buf := s.buf + chunks[0]), Flatten(chunks[1..]));
      FeedKeepsOutlook(Drain(s.(buf := s.buf + chunks[0])), chunks[1..]);
    }
  }

  // Nothing complete is pending.
  predicate Drained(s: Reader)
    requires Consistent(s)
  {
    s.stop.Starved? ==> ParseAll(s.parser.incoming, s.buf[s.parser.skip..]) == Transcript([], Starved)
  }

  lemma {:induction false} WaitingIsDrained(s: Reader)
    requires Consistent(s) && !RepairedParse(s.parser, s.buf).1.Message?
    ensures Drained(Turn(s))
  {
    var pending := s.buf[s.parser.skip..];
    TurnOutcome(s);
    UnreadWaits(s.parser.incoming, pending);
  }

  lemma {:induction false} UnreadWaits(incoming: Option<Message>, buf: seq<byte>)
    ensures var r := ParseMessage(incoming, buf);
            r.outcome == Failed(WOULD_BLOCK) ==> ParseAll(r.incoming, r.unread) == Transcript([], Starved)
  {
    var r := ParseMessage(incoming, buf);
    if r.outcome == Failed(WOULD_BLOCK) {
      ParseMessageResumes(incoming, buf, []);
      assert buf + [] == buf && r.unread + [] == r.unread;
    }
  }

  lemma {:induction false} DrainDrains(s: Reader)
    requires Consistent(s)
    ensures Drained(Drain(s))
    decreases |s.buf|
  {
    if RepairedParse(s.parser, s.buf).1.Message? {
      DrainDrains(Turn(s));
    } else {
      WaitingIsDrained(s);
    }
  }

  const FRESH := Reader(ParserState(None, 0), [], [], Starved)

  lemma {:induction false} FeedDrains(s: Reader, chunks: seq<seq<byte>>)
    requires Consistent(s) && Drained(s)
    ensures Drained(Feed(s, chunks))
    decreases |chunks|
  {
    if chunks != [] && s.stop.Starved? {
      DrainDrains(s.(buf := s.buf + chunks[0]));
      FeedDrains(Drain(s.(buf := s.buf + chunks[0])), chunks[1..]);
    }
  }

  // However a stream of any bytes is cut into reads, the repaired parser yields the same
  // messages and the same end as parsing the stream whole.
  lemma {:induction false} RepairedEqualsOneShot(chunks: seq<seq<byte>>)
    ensures var r := Feed(FRESH, chunks);
            Transcript(r.msgs, r.stop) == ParseAll(None, Flatten(chunks))
  {
    var r := Feed(FRESH, chunks);
    FeedKeepsOutlook(FRESH, chunks);
    FeedDrains(FRESH, chunks);
    assert FRESH.buf[0..] + Flatten(chunks) == Flatten(chunks);
    assert FRESH.msgs + ParseAll(None, Flatten(chunks)).msgs == ParseAll(None, Flatten(chunks)).msgs;
    assert r.buf[r.parser.skip..] + [] == r.buf[r.parser.skip..];
    assert r.msgs + [] == r.msgs;
  }

  // ---------------------------------------------------------------- the literal step

  // While waiting, the literal parser folds nothing exactly when not even the first frame
  // is complete; it then goes on as if it had not been asked. Otherwise the next attempt,
  // whatever has arrived, reads the first frame again and reports CUTTING_IN.
  lemma {:induction false} LiteralRetry(buf: seq<byte>, more: seq<byte>)
    requires ParseReply(ParserState(None, 0), buf).1 == Waiting
    ensures var p := ParseReply(ParserState(None, 0), buf).0;
            if ReadFrame(buf) == Err(WOULD_BLOCK)
            then ParseReply(p, buf + more) == ParseReply(ParserState(None, 0), buf + more)
            else ParseReply(p, buf + more).1 == Error(CUTTING_IN)
  {
    var p := ParserState(None, 0);
    assert buf[0..] == buf;
    assert (buf + more)[0..] == buf + more;
    if ReadFrame(buf).Ok? {
      var (f, rest) := ReadFrame(buf).value;
      ReadFrameStable(buf, more);
      HeldWhileWaiting(Some(Apply(None, f).message), rest);
    }
  }

  lemma {:induction false} HeldWhileWaiting(incoming: Option<Message>, buf: seq<byte>)
    requires incoming.Some? && ParseMessage(incoming, buf).outcome == Failed(WOULD_BLOCK)
    ensures ParseMessage(incoming, buf).incoming.Some?
    decreases |buf|
  {
    if ReadFrame(buf).Ok? {
      var (f, rest) := ReadFrame(buf).value;
      HeldWhileWaiting(Some(Apply(incoming, f).message), rest);
    }
  }

  // ------------------------------------------- the literal step on unfragmented messages

  // A message sent as one frame.
  datatype Single = Single(text: bool, piece: Fragment)

  predicate Sendable(x: Single) {
    Fits(x.piece.form, |x.piece.data|) && (x.text ==> Utf8.Valid(x.piece.data))
  }

  function SingleFrame(x: Single): (f: Frame)
    ensures f.maskKey.Some? && |f.payload| == |x.piece.data|
  {
    ClientFrame(if x.text then Text else Binary, true, x.piece)
  }

  function SingleBytes(x: Single): (s: seq<byte>)
    requires Sendable(x)
    ensures |s| > 0
  {
    PrintFrame(SingleFrame(x), x.piece.form)
  }

  function MessageOf(x: Single): Message {
    Build(x.text, x.piece.data)
  }

  function StreamBytes(xs: seq<Single>): seq<byte>
    requires forall x <- xs :: Sendable(x)
  {
    if xs == [] then [] else SingleBytes(xs[0]) + StreamBytes(xs[1..])
  }

  function MessagesOf(xs: seq<Single>): (ms: seq<Message>)
    ensures |ms| == |xs|
  {
    seq(|xs|, i requires 0 <= i < |xs| => MessageOf(xs[i]))
  }

  lemma {:induction false} SingleParses(x: Single, tail: seq<byte>)
    requires Sendable(x)
    ensures ParseMessage(None, SingleBytes(x) + tail).outcome == Parsed(MessageOf(x), tail)
  {
    ReadPrinted(SingleFrame(x), x.piece.form, tail);
    ApplyClientFrame(x.text, None, x.piece, true);
    assert [] + x.piece.data == x.piece.data;
  }

  // Parsing a prefix of a stream: wait if the first frame is cut, else its message.
  lemma {:induction false} PrefixParses(xs: seq<Single>, buf: seq<byte>)
    requires forall x <- xs :: Sendable(x)
    requires buf <= StreamBytes(xs)
    ensures var r := ParseMessage(None, buf);
            if xs != [] && |buf| >= |SingleBytes(xs[0])|
            then r.outcome == Parsed(MessageOf(xs[0]), buf[|SingleBytes(xs[0])|..])
                 && buf[|SingleBytes(xs[0])|..] <= StreamBytes(xs[1..])
            else r.outcome == Failed(WOULD_BLOCK) && r.incoming == None
  {
    if xs != [] {
      var s := SingleBytes(xs[0]);
      if |buf| >= |s| {
        assert buf == s + buf[|s|..];
        SingleParses(xs[0], buf[|s|..]);
        assert StreamBytes(xs)[|s|..] == StreamBytes(xs[1..]);
      } else {
        assert buf == s[..|buf|];
        PrefixBlocks(SingleFrame(xs[0]), xs[0].piece.form, |buf|);
      }
    }
  }

  // Bytes arrive, or the server asks the parser once.
  datatype Input = Arrive(bytes: seq<byte>) | Poll

  function Arrived(inputs: seq<Input>): seq<byte> {
    if inputs == [] then []
    else (if inputs[0].Arrive? then inputs[0].bytes else []) + Arrived(inputs[1..])
  }

  function LiteralStep(s: Reader, i: Input): (r: Reader)
    requires Consistent(s) && s.parser.skip == 0
    ensures Consistent(r) && r.parser.skip == 0
  {
    match i
    case Arrive(bytes) => s.(buf := s.buf + bytes)
    case Poll =>
      if !s.stop.Starved? then s
      else
        var (p, reply) := ParseReply(s.parser, s.buf);
        match reply
        case Message(m, rest) => Reader(p, rest, s.msgs + [m], Starved)
        case Waiting => s.(parser := p)
        case Error(e) => s.(parser := p, stop := Faulted(e))
        case Panic => s.(parser := p, stop := Crashed)
  }

  function LiteralRun(s: Reader, inputs: seq<Input>): (r: Reader)
    requires Consistent(s) && s.parser.skip == 0
    ensures Consistent(r) && r.parser.skip == 0
    decreases |inputs|
  {
    if inputs == [] then s else LiteralRun(LiteralStep(s, inputs[0]), inputs[1..])
  }

  // Between parses: some messages out, the parser fresh, the buffer a prefix of the others.
  ghost predicate OnTrack(s: Reader, xs: seq<Single>, future: seq<byte>)
    requires forall x <- xs :: Sendable(x)
  {
    && s.stop.Starved? && s.parser == ParserState(None, 0)
    && |s.msgs| <= |xs| && s.msgs == MessagesOf(xs[..|s.msgs|])
    && s.buf + future <= StreamBytes(xs[|s.msgs|..])
  }

  // Whether the next poll yields a message.
  ghost predicate NextIsComplete(s: Reader, xs: seq<Single>)
    requires forall x <- xs :: Sendable(x)
  {
    |s.msgs| < |xs| && |s.buf| >= |SingleBytes(xs[|s.msgs|])|
  }

  lemma {:induction false} PollYields(s: Reader, xs: seq<Single>, future: seq<byte>)
    requires forall x <- xs :: Sendable(x)
    requires OnTrack(s, xs, future)
    ensures var r := LiteralStep(s, Poll);
            if NextIsComplete(s, xs) then
              r == Reader(s.parser, s.buf[|SingleBytes(xs[|s.msgs|])|..], s.msgs + [MessageOf(xs[|s.msgs|])], Starved)
            else r == s
  {
    assert s.buf[0..] == s.buf;
    assert s.buf == (s.buf + future)[..|s.buf|];
    PrefixParses(xs[|s.msgs|..], s.buf);
  }

  lemma {:induction false} PollOnTrack(s: Reader, xs: seq<Single>, future: seq<byte>)
    requires forall x <- xs :: Sendable(x)
    requires OnTrack(s, xs, future)
    ensures OnTrack(LiteralStep(s, Poll), xs, future)
  {
    PollYields(s, xs, future);
    if NextIsComplete(s, xs) {
      MessageOnTrack(s, xs, future);
    }
  }

  lemma {:induction false} MessageOnTrack(s: Reader, xs: seq<Single>, future: seq<byte>)
    requires forall x <- xs :: Sendable(x)
    requires OnTrack(s, xs, future) && NextIsComplete(s, xs)
    ensures var x := xs[|s.msgs|];
            OnTrack(Reader(s.parser, s.buf[|SingleBytes(x)|..], s.msgs + [MessageOf(x)], Starved), xs, future)
  {
    var n := |s.msgs|;
    var k := |SingleBytes(xs[n])|;
    MessagesSnoc(xs, n);
    StreamTail(xs, n);
    CutsTogether(s.buf, future, k, StreamBytes(xs[n..]));
  }

  lemma {:induction false} MessagesSnoc(xs: seq<Single>, n: nat)
    requires n < |xs|
    ensures MessagesOf(xs[..n + 1]) == MessagesOf(xs[..n]) + [MessageOf(xs[n])]
  {
  }

  lemma {:induction false} CutsTogether(buf: seq<byte>, future: seq<byte>, k: nat, stream: seq<byte>)
    requires k <= |buf| && buf + future <= stream
    ensures buf[k..] + future <= stream[k..]
  {
    assert (buf + future)[k..] == buf[k..] + future;
    assert stream[..|buf + future|][k..] == stream[k..][..|buf + future| - k];
  }

  lemma {:induction false} StreamTail(xs: seq<Single>, n: nat)
    requires forall x <- xs :: Sendable(x)
    requires n < |xs|
    ensures StreamBytes(xs[n..])[|SingleBytes(xs[n])|..] == StreamBytes(xs[n + 1..])
    ensures |StreamBytes(xs[n..])| >= |SingleBytes(xs[n])|
  {
    assert xs[n..][1..] == xs[n + 1..];
  }

  lemma {:induction false} RunOnTrack(s: Reader, xs: seq<Single>, inputs: seq<Input>)
    requires forall x <- xs :: Sendable(x)
    requires s.parser.skip == 0
    requires OnTrack(s, xs, Arrived(inputs))
    ensures OnTrack(LiteralRun(s, inputs), xs, [])
    decreases |inputs|
  {
    if inputs == [] {
      assert s.buf + [] == s.buf;
    } else {
      var later := Arrived(inputs[1..]);
      match inputs[0] {
        case Arrive(bytes) => assert s.buf + Arrived(inputs) == s.buf + bytes + later;
        case Poll =>
          assert Arrived(inputs) == later;
          PollOnTrack(s, xs, later);
      }
      RunOnTrack(LiteralStep(s, inputs[0]), xs, inputs[1..]);
    }
  }

  // However a stream of unfragmented messages is cut and however often the literal parser
  // is asked: no error, never a wrong or repeated message, and nothing lost; the buffer is
  // what is left of the bytes after the messages already out.
  lemma {:induction false} LiteralInOrder(xs: seq<Single>, inputs: seq<Input>)
    requires forall x <- xs :: Sendable(x)
    requires Arrived(inputs) <= StreamBytes(xs)
    ensures OnTrack(LiteralRun(FRESH, inputs), xs, [])
  {
    assert xs[0..] == xs && [] + Arrived(inputs) == Arrived(inputs);
    RunOnTrack(FRESH, xs, inputs);
  }

  function Polls(n: nat): seq<Input> {
    seq(n, _ => Poll)
  }

  // Once everything has arrived, as many polls as there are messages left deliver them all.
  lemma {:induction false} LiteralCompletes(s: Reader, xs: seq<Single>, n: nat)
    requires forall x <- xs :: Sendable(x)
    requires s.parser.skip == 0 && OnTrack(s, xs, []) && s.buf == StreamBytes(xs[|s.msgs|..])
    requires |s.msgs| + n >= |xs|
    ensures LiteralRun(s, Polls(n)).msgs == MessagesOf(xs)
    decreases n
  {
    if n == 0 {
      assert xs[..|xs|] == xs;
    } else {
      assert Polls(n)[1..] == Polls(n - 1);
      PollOnTrack(s, xs, []);
      PollEmpties(s, xs);
      LiteralCompletes(LiteralStep(s, Poll), xs, n - 1);
    }
  }

  lemma {:induction false} PollEmpties(s: Reader, xs: seq<Single>)
    requires forall x <- xs :: Sendable(x)
    requires s.parser.skip == 0 && OnTrack(s, xs, []) && s.buf == StreamBytes(xs[|s.msgs|..])
    ensures var r := LiteralStep(s, Poll);
            && |r.msgs| == (if |s.msgs| < |xs| then |s.msgs| + 1 else |s.msgs|)
            && r.buf == StreamBytes(xs[|r.msgs|..])
  {
    PollYields(s, xs, []);
    if |s.msgs| < |xs| {
      StreamTail(xs, |s.msgs|);
    }
  }
}
