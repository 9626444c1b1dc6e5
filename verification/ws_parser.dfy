// Messages from frames (section 5.4 of RFC 6455): the folding loop, the parser object
// that carries the unfinished message between reads, and what both guarantee.
module WsParsing {
  import opened Bytes
  import opened WsFrame
  import Utf8

  // A String is its UTF-8 bytes.
  datatype Message = TextMessage(content: seq<byte>) | BinaryMessage(content: seq<byte>)

  predicate Sound(m: Option<Message>) {
    m.Some? && m.value.TextMessage? ==> Utf8.Valid(m.value.content)
  }

  // How parse_message ends: a message and what follows it, an error, or a failed assert.
  datatype Outcome = Parsed(msg: Message, rest: seq<byte>) | Failed(error: WsError) | Panicked

  // The bytes a frame carries, unmasked.
  function Unmasked(f: Frame): (s: seq<byte>)
    ensures |s| == |f.payload|
  {
    if f.maskKey.Some? then ApplyMask(f.payload, f.maskKey.value) else f.payload
  }

  // The loop both unmask functions run: push every unmasked byte onto the buffer.
  method PushUnmasked(f: Frame, buffer: seq<byte>) returns (r: seq<byte>)
    ensures r == buffer + Unmasked(f)
  {
    r := buffer;
    if f.maskKey.Some? {
      for index := 0 to |f.payload|
        invariant r == buffer + Unmasked(f)[..index]
      {
        r := r + [Xor(f.payload[index], f.maskKey.value[index % 4])];
      }
    } else {
      r := r + f.payload;
    }
  }

  // None is the failed assert on the lengths.
  method UnmaskIntoBinary(f: Frame, buffer: seq<byte>) returns (r: Option<seq<byte>>)
    ensures r == if |buffer| <= |f.payload| then Some(buffer + Unmasked(f)) else None
  {
    if !(|buffer| <= |f.payload|) { return None; }
    var pushed := PushUnmasked(f, buffer);
    return Some(pushed);
  }

  // Only the appended bytes are checked, yet the whole result is well-formed.
  method UnmaskIntoText(f: Frame, buffer: seq<byte>) returns (r: Option<Result<seq<byte>, WsError>>)
    requires Utf8.Valid(buffer)
    ensures r.None? <==> |buffer| > |f.payload|
    ensures r.Some? && r.value.Ok? ==> r.value.value == buffer + Unmasked(f) && Utf8.Valid(r.value.value)
    ensures r.Some? && r.value.Err? ==> r.value.error == NOT_VALID_UTF8 && !Utf8.Valid(buffer + Unmasked(f))
  {
    if !(|buffer| <= |f.payload|) { return None; }
    var pushed := PushUnmasked(f, buffer);
    Utf8.ValidConcat(buffer, Unmasked(f));
    assert pushed[|buffer|..] == Unmasked(f);
    if Utf8.Valid(pushed[|buffer|..]) {
      return Some(Ok(pushed));
    }
    return Some(Err(NOT_VALID_UTF8));
  }

  // What one frame does to the unfinished message: the loop goes on with Held, and ends
  // with Rejected or Burst (a failed assert) leaving the given message behind.
  datatype FoldStep =
    | Held(message: Message)
    | Rejected(error: WsError, left: Option<Message>)
    | Burst(left: Option<Message>)

  function Apply(incoming: Option<Message>, f: Frame): FoldStep {
    match f.opcode
    case Continuation =>
      if incoming.None? then Rejected(BAD_CONTINUE, None)
      else
        var sofar := incoming.value.content;
        if incoming.value.TextMessage? then
          if |sofar| > |f.payload| then Burst(Some(TextMessage([])))
          else if Utf8.Valid(Unmasked(f)) then Held(TextMessage(sofar + Unmasked(f)))
          else Rejected(NOT_VALID_UTF8, Some(TextMessage([])))
        else
          if |sofar| > |f.payload| then Burst(Some(BinaryMessage([])))
          else Held(BinaryMessage(sofar + Unmasked(f)))
    case Text =>
      if incoming.Some? then Rejected(CUTTING_IN, incoming)
      else if Utf8.Valid(Unmasked(f)) then Held(TextMessage(Unmasked(f)))
      else Rejected(NOT_VALID_UTF8, None)
    case Binary =>
      if incoming.Some? then Rejected(CUTTING_IN, incoming)
      else Held(BinaryMessage(Unmasked(f)))
    case _ => Rejected(UNIMPLEMENTED, incoming)
  }

  function After(step: FoldStep): Option<Message> {
    match step
    case Held(m) => Some(m)
    case Rejected(_, left) => left
    case Burst(left) => left
  }

  lemma {:induction false} ApplySound(incoming: Option<Message>, f: Frame)
    requires Sound(incoming)
    ensures Sound(After(Apply(incoming, f)))
  {
    if incoming.Some? && incoming.value.TextMessage? {
      Utf8.ValidConcat(incoming.value.content, Unmasked(f));
    }
  }

  // The result of parse_message, the message left in the parser, and the input from the
  // frame the loop stopped at.
  datatype Fold = Fold(outcome: Outcome, incoming: Option<Message>, unread: seq<byte>)

  function ParseMessage(incoming: Option<Message>, buf: seq<byte>): (r: Fold)
    ensures |r.unread| <= |buf|
    ensures r.outcome.Parsed? ==> |r.outcome.rest| < |buf| && r.incoming.None?
    decreases |buf|
  {
    match ReadFrame(buf)
    case Err(e) => Fold(Failed(e), incoming, buf)
    case Ok((f, rest)) =>
      match Apply(incoming, f)
      case Rejected(e, left) => Fold(Failed(e), left, buf)
      case Burst(left) => Fold(Panicked, left, buf)
      case Held(m) =>
        if f.fin then Fold(Parsed(m, rest), None, buf) else ParseMessage(Some(m), rest)
  }

  lemma {:induction false} RestIsSuffix(buf: seq<byte>)
    requires ReadFrame(buf).Ok?
    ensures var rest := ReadFrame(buf).value.1; rest == buf[|buf| - |rest|..]
  {
    PrintRead(buf);
  }

  // ---------------------------------------------------------------- the parser object

  datatype ParserState = ParserState(incoming: Option<Message>, skip: nat)

  // Ok(Some(msg), rest), Ok(None, buf), Err(e) or a panic.
  datatype Reply = Message(msg: Message, rest: seq<byte>) | Waiting | Error(error: WsError) | Panic

  function ParseReply(p: ParserState, buf: seq<byte>): (ParserState, Reply)
    requires p.skip <= |buf|
  {
    var r := ParseMessage(p.incoming, buf[p.skip..]);
    match r.outcome
    case Parsed(m, rest) => (ParserState(r.incoming, 0), Message(m, rest))
    case Failed(e) => (ParserState(r.incoming, p.skip), if e.WOULD_BLOCK? then Waiting else Error(e))
    case Panicked => (ParserState(r.incoming, p.skip), Panic)
  }

  class WsParser {
    var incomingMessage: Option<Message>
    var skip: nat

    constructor ()
      ensures State() == ParserState(None, 0)
    {
      incomingMessage, skip := None, 0;
    }

    function State(): ParserState
      reads this
    {
      ParserState(incomingMessage, skip)
    }

    // The body of the loop of parse_message: one frame folded into incomingMessage.
    method FoldFrame(frame: Frame) returns (step: FoldStep)
      requires Sound(incomingMessage)
      modifies this`incomingMessage
      ensures step == Apply(old(incomingMessage), frame)
      ensures incomingMessage == After(step)
      ensures Sound(incomingMessage)
    {
      ApplySound(incomingMessage, frame);
      assert [] + Unmasked(frame) == Unmasked(frame);
      match frame.opcode {
        case Continuation =>
          if incomingMessage.None? { return Rejected(BAD_CONTINUE, None); }
          var sofar := incomingMessage.value.content;
          if incomingMessage.value.TextMessage? {
            incomingMessage := Some(TextMessage([]));
            Utf8.ValidConcat(sofar, Unmasked(frame));
            var text := UnmaskIntoText(frame, sofar);
            if text.None? { return Burst(incomingMessage); }
            if text.value.Err? { return Rejected(text.value.error, incomingMessage); }
            incomingMessage := Some(TextMessage(text.value.value));
          } else {
            incomingMessage := Some(BinaryMessage([]));
            var data := UnmaskIntoBinary(frame, sofar);
            if data.None? { return Burst(incomingMessage); }
            incomingMessage := Some(BinaryMessage(data.value));
          }
        case Text =>
          if incomingMessage.Some? { return Rejected(CUTTING_IN, incomingMessage); }
          var text := UnmaskIntoText(frame, []);
          if text.value.Err? { return Rejected(text.value.error, incomingMessage); }
          incomingMessage := Some(TextMessage(text.value.value));
        case Binary =>
          if incomingMessage.Some? { return Rejected(CUTTING_IN, incomingMessage); }
          var data := UnmaskIntoBinary(frame, []);
          incomingMessage := Some(BinaryMessage(data.value));
        case _ => return Rejected(UNIMPLEMENTED, incomingMessage);
      }
      return Held(incomingMessage.value);
    }

    // The loop of parse_message over the frames in buf.
    method FoldFrames(buf0: seq<byte>) returns (outcome: Outcome)
      requires Sound(incomingMessage)
      modifies this`incomingMessage
      ensures Sound(incomingMessage)
      ensures outcome == ParseMessage(old(incomingMessage), buf0).outcome
      ensures incomingMessage == ParseMessage(old(incomingMessage), buf0).incoming
      ensures outcome.Parsed? ==> Sound(Some(outcome.msg))
    {
      var buf := buf0;
      while true
        invariant Sound(incomingMessage)
        invariant ParseMessage(incomingMessage, buf).outcome == ParseMessage(old(incomingMessage), buf0).outcome
        invariant ParseMessage(incomingMessage, buf).incoming == ParseMessage(old(incomingMessage), buf0).incoming
        decreases |buf|
      {
        var read := ReadFrame(buf);
        if read.Err? { return Failed(read.error); }
        var (frame, rest) := read.value;
        buf := rest;
        var step := FoldFrame(frame);
        match step {
          case Rejected(e, _) => return Failed(e);
          case Burst(_) => return Panicked;
          case Held(msg) =>
            if frame.fin {
              incomingMessage := None;
              return Parsed(msg, rest);
            }
        }
      }
    }

    method Parse(buf: seq<byte>) returns (r: Reply)
      requires skip <= |buf| && Sound(incomingMessage)
      modifies this
      ensures Sound(incomingMessage)
      ensures (State(), r) == ParseReply(old(State()), buf)
      ensures r.Message? ==> Sound(Some(r.msg))
    {
      var outcome := FoldFrames(buf[skip..]);
      match outcome {
        case Parsed(msg, rest) =>
          skip := 0;
          r := Message(msg, rest);
        case Failed(e) =>
          r := if e.WOULD_BLOCK? then Waiting else Error(e);
        case Panicked =>
          r := Panic;
      }
    }
  }

  // ---------------------------------------------------------------- UTF-8 soundness

  // Whatever the frames, a text that is held, returned or left behind is well-formed.
  lemma {:induction false} TextStaysValid(incoming: Option<Message>, buf: seq<byte>)
    requires Sound(incoming)
    ensures var r := ParseMessage(incoming, buf);
            Sound(r.incoming) && (r.outcome.Parsed? ==> Sound(Some(r.outcome.msg)))
    decreases |buf|
  {
    if ReadFrame(buf).Ok? {
      var (f, rest) := ReadFrame(buf).value;
      ApplySound(incoming, f);
      var step := Apply(incoming, f);
      if step.Held? && !f.fin {
        TextStaysValid(Some(step.message), rest);
      }
    }
  }

  // ---------------------------------------------------------------- more input

  // An outcome other than waiting is final: more bytes only lengthen the rest.
  lemma {:induction false} ParseMessageStable(incoming: Option<Message>, buf: seq<byte>, more: seq<byte>)
    requires ParseMessage(incoming, buf).outcome != Failed(WOULD_BLOCK)
    ensures var r := ParseMessage(incoming, buf);
            var s := ParseMessage(incoming, buf + more);
            && s.incoming == r.incoming
            && s.outcome == if r.outcome.Parsed? then Parsed(r.outcome.msg, r.outcome.rest + more) else r.outcome
    decreases |buf|
  {
    ReadFrameStable(buf, more);
    if ReadFrame(buf).Ok? {
      var (f, rest) := ReadFrame(buf).value;
      var step := Apply(incoming, f);
      if step.Held? && !f.fin {
        ParseMessageStable(Some(step.message), rest, more);
      }
    }
  }

  // While waiting, the state to go on from is the message so far and the unread input.
  lemma {:induction false} ParseMessageResumes(incoming: Option<Message>, buf: seq<byte>, more: seq<byte>)
    requires ParseMessage(incoming, buf).outcome == Failed(WOULD_BLOCK)
    ensures var r := ParseMessage(incoming, buf);
            ParseMessage(incoming, buf + more) == ParseMessage(r.incoming, r.unread + more)
    decreases |buf|
  {
    if ReadFrame(buf).Ok? {
      var (f, rest) := ReadFrame(buf).value;
      ReadFrameStable(buf, more);
      ParseMessageResumes(Some(Apply(incoming, f).message), rest, more);
    }
  }

  // A parsed message depends only on the bytes it consumed.
  lemma {:induction false} ParseMessageShrinks(incoming: Option<Message>, buf: seq<byte>, left: seq<byte>, more: seq<byte>, m: Message)
    requires ParseMessage(incoming, buf + more).outcome == Parsed(m, left + more)
    ensures ParseMessage(incoming, buf).outcome == Parsed(m, left)
    decreases |buf|
  {
    var (f, rest) := ReadFrame(buf + more).value;
    RestIsSuffix(buf + more);
    if f.fin {
      ReadFrameShrinks(buf, left, more, f);
    } else {
      var held := Some(Apply(incoming, f).message);
      ParsedIsSuffix(held, rest);
      var mid := rest[..|rest| - |more|];
      EndsAlike(rest, left, more);
      ReadFrameShrinks(buf, mid, more, f);
      ParseMessageShrinks(held, mid, left, more, m);
    }
  }

  lemma {:induction false} EndsAlike(s: seq<byte>, left: seq<byte>, more: seq<byte>)
    requires |left| + |more| <= |s| && s[|s| - |left| - |more|..] == left + more
    ensures s == s[..|s| - |more|] + more
  {
    assert s[|s| - |more|..] == (left + more)[|left|..];
  }

  lemma {:induction false} UnreadIsSuffix(incoming: Option<Message>, buf: seq<byte>)
    ensures var r := ParseMessage(incoming, buf); r.unread == buf[|buf| - |r.unread|..]
    decreases |buf|
  {
    if ReadFrame(buf).Ok? {
      var (f, rest) := ReadFrame(buf).value;
      RestIsSuffix(buf);
      var step := Apply(incoming, f);
      if step.Held? && !f.fin {
        UnreadIsSuffix(Some(step.message), rest);
      }
    }
  }

  lemma {:induction false} ParsedIsSuffix(incoming: Option<Message>, buf: seq<byte>)
    requires ParseMessage(incoming, buf).outcome.Parsed?
    ensures var rest := ParseMessage(incoming, buf).outcome.rest; rest == buf[|buf| - |rest|..]
    decreases |buf|
  {
    var (f, rest) := ReadFrame(buf).value;
    RestIsSuffix(buf);
    if !f.fin {
      ParsedIsSuffix(Some(Apply(incoming, f).message), rest);
    }
  }
}
