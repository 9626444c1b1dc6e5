// A connection as the server holds it: its buffer, messenger, parser, handshaker and stream,
// each updated in place. Every method is proved against its stage of the state machine.
module Connections {
  import opened Bytes
  import opened WsParsing
  import opened Messaging
  import opened Output
  import opened InputBuffer
  import opened Handshaking
  import opened ServerSteps

  // How handling goes on after a stage.
  datatype Verdict = Onward | Wait | Lost | TlsLost | Handed(msg: Message) | Crashed

  function StageOf(v: Verdict, c: Client, script: seq<WriteOutcome>): Stage {
    match v
    case Onward => Go(c, script)
    case Wait => Stay(c)
    case Lost => Drop(c)
    case TlsLost => TlsDrop(c)
    case Handed(msg) => Deliver(c, msg)
    case Crashed => Crash
  }

  class Connection {
    const buf: Buffer
    const parser: WsParser
    const handshaker: WsHandshaker
    const stream: Writer
    var messenger: Messenger
    var tlsHandshaking: bool
    var isHandshaking: bool
    var sentMessage: bool
    ghost var received: seq<byte>
    ghost var trace: Trace

    constructor (cfg: Config)
      ensures Valid() && fresh(Footprint())
      ensures Settings() == cfg && State() == NEW_CLIENT
    {
      buf := new Buffer(cfg.form);
      parser := new WsParser();
      handshaker := new WsHandshaker(cfg.accept);
      stream := new Writer([]);
      messenger := new Messenger(DEFAULT_MESSAGE);
      tlsHandshaking, isHandshaking, sentMessage := true, true, false;
      received, trace := [], Trace([], [], [], []);
    }

    function Footprint(): set<object>
      reads this
    {
      {this, buf, parser, handshaker, stream, messenger}
    }

    function Settings(): Config {
      Config(buf.form, handshaker.accept)
    }

    ghost function State(): Client
      reads this, buf, parser, handshaker, stream, messenger
    {
      Client(tlsHandshaking, received, stream.wire.sent, buf.State(), messenger.msg, messenger.writ,
             parser.State(), handshaker.State(), isHandshaking, sentMessage, trace)
    }

    ghost predicate Valid()
      reads this, buf, parser, handshaker, stream, messenger
    {
      Runnable(State()) && Sound(parser.incomingMessage)
    }

    // The writable part of an event.
    method WriteOut() returns (v: Verdict)
      requires Valid()
      modifies stream, messenger`writ
      ensures Valid()
      ensures StageOf(v, State(), stream.wire.script) == WriteStage(old(State()), old(stream.wire.script))
    {
      var f := stream.Flush();
      if !Tolerated(f) { return Lost; }
      if isHandshaking { return Onward; }
      var r := messenger.SendAll(stream);
      return if Tolerated(r) then Onward else Lost;
    }

    // The readable part: what the stream yields goes into the buffer.
    method ReadIn(io: Io) returns (v: Verdict)
      requires Valid()
      modifies this`received, buf
      ensures v.Crashed? || Valid()
      ensures StageOf(v, State(), stream.wire.script)
           == ReadStage(Settings(), old(State()), io, old(stream.wire.script))
    {
      FillKeepsRead(buf.form, buf.State(), io.chunks);
      var filled := buf.CopyFrom(io.chunks);
      received := received + Taken(io.chunks);
      match filled {
        case Overrun => return Crashed;
        case Jammed(_) => return Lost;
        case Full(_) => return if io.readFails then Lost else Onward;
      }
    }

    // One message out of the buffer, if there is one.
    method ParseNext() returns (v: Verdict)
      requires Valid()
      modifies this`sentMessage, this`trace, buf, parser
      ensures Valid()
      ensures StageOf(v, State(), stream.wire.script) == ParseStage(old(State()), old(stream.wire.script))
      ensures v.Handed? ==> Sound(Some(v.msg))
    {
      if !buf.HasRead() { return Wait; }
      var story := buf.TheStorySoFar();
      ghost var before := parser.State();
      var reply := parser.Parse(story);
      match reply {
        case Message(msg, rest) =>
          ParsedSplits(before, story);
          var n := |buf.data| - |rest|;
          buf.Consume(n);
          sentMessage := true;
          trace := trace.(inbound := trace.inbound + [Inbound(story[..n], msg)]);
          return Handed(msg);
        case Waiting => return Onward;
        case Error(_) => return Lost;
        case Panic => return Crashed;
      }
    }

    // The application handshake.
    method ShakeHands() returns (v: Verdict)
      requires Valid()
      modifies this`isHandshaking, this`trace, buf, handshaker, stream
      ensures Valid()
      ensures StageOf(v, State(), stream.wire.script)
           == HandshakeStage(Settings(), old(State()), old(stream.wire.script))
    {
      while true
        invariant Valid()
        invariant HandshakeStage(Settings(), State(), stream.wire.script)
               == HandshakeStage(Settings(), old(State()), old(stream.wire.script))
        decreases Ahead(handshaker.State())
      {
        var done := Exchange();
        if done.Some? { return done.value; }
      }
    }

    // One turn of the handshake. None means that a response was written and it goes on.
    method Exchange() returns (done: Option<Verdict>)
      requires Valid()
      modifies this`isHandshaking, this`trace, buf, handshaker, stream
      ensures Valid()
      ensures HandshakeStage(Settings(), old(State()), old(stream.wire.script))
           == if done.None? then HandshakeStage(Settings(), State(), stream.wire.script)
              else StageOf(done.value, State(), stream.wire.script)
      ensures done.None? ==> Ahead(handshaker.State()) < old(Ahead(handshaker.State()))
    {
      ghost var c, script := State(), stream.wire.script;
      var reply := Greet();
      HandshakeUnrolls(Settings(), c, script, State(), reply);
      if reply.Refused? { return Some(Lost); }
      match reply.status {
        case Waiting => return Some(Wait);
        case Finished =>
          isHandshaking := false;
          return Some(Wait);
        case Responding =>
          var r := Respond();
          if r.Done? { return None; }
          return Some(if r.WouldBlock? then Wait else Lost);
      }
    }

    // One call of the handshaker, and the bytes it consumed.
    method Greet() returns (reply: HandshakeReply)
      requires Valid()
      modifies this`trace, buf, handshaker`buf
      ensures Valid()
      ensures (State(), reply) == Shaken(old(State()), handshaker.accept)
    {
      ghost var c := State();
      var story := buf.TheStorySoFar();
      reply := handshaker.Handshake(story);
      ShakenIs(c, handshaker.accept, handshaker.State(), reply);
      if reply.Progress? {
        var n := |buf.data| - |reply.rest|;
        buf.Consume(n);
        trace := trace.(opening := trace.opening + story[..n]);
      }
    }

    // One send_all of the handshaker.
    method Respond() returns (r: IoResult)
      requires Valid()
      modifies this`trace, handshaker`bytesWrit, stream
      ensures Valid()
      ensures (State(), stream.wire.script, r) == Answered(old(State()), old(stream.wire.script))
    {
      ghost var h := handshaker.State();
      ghost var s := SendResponse(h, stream.wire);
      r := handshaker.SendAll(stream);
      trace := trace.(attempts := trace.attempts + [h.buf[h.bytesWrit..h.bytesWrit + s.lost]]);
    }

    // What follows the bytes: the handshake while it lasts, and parsing after it.
    method Digest(readable: bool) returns (v: Verdict)
      requires Valid()
      modifies this`isHandshaking, this`sentMessage, this`trace, buf, parser, handshaker, stream
      ensures v.Crashed? || Valid()
      ensures StageOf(v, State(), stream.wire.script)
           == if old(isHandshaking) then HandshakeStage(Settings(), old(State()), old(stream.wire.script))
              else if readable then ParseStage(old(State()), old(stream.wire.script))
              else Stay(old(State()))
      ensures v.Handed? ==> Sound(Some(v.msg))
    {
      if isHandshaking {
        v := ShakeHands();
      } else if readable {
        v := ParseNext();
      } else {
        v := Wait;
      }
    }

    // An event of an open connection: write, read, and digest.
    method HandleOpen(io: Io) returns (v: Verdict)
      requires Valid() && !tlsHandshaking && stream.wire.script == io.script
      modifies Footprint()
      ensures messenger == old(messenger)
      ensures v.Crashed? || Valid()
      ensures StageOf(v, State(), stream.wire.script) == Handle(Settings(), old(State()), io)
      ensures v.Handed? ==> Sound(Some(v.msg))
    {
      if io.writable {
        v := WriteOut();
        if !v.Onward? { return; }
      }
      if io.readable {
        v := ReadIn(io);
        if !v.Onward? { return; }
      }
      v := Digest(io.readable);
    }

    // Everything one event of the poll does to the connection.
    method HandleEvent(io: Io) returns (v: Verdict)
      requires Valid()
      modifies Footprint()
      ensures messenger == old(messenger)
      ensures v.Crashed? || Valid()
      ensures StageOf(v, State(), stream.wire.script) == Handle(Settings(), old(State()), io)
      ensures v.Handed? ==> Sound(Some(v.msg))
    {
      if tlsHandshaking {
        match io.tls {
          case TlsDone => tlsHandshaking := false; v := Wait;
          case TlsPending => v := Wait;
          case TlsFailed => v := TlsLost;
        }
      } else {
        ghost var c := State();
        stream.wire := stream.wire.(script := io.script);
        assert State() == c;
        v := HandleOpen(io);
      }
    }

    // send_to_client: a new messenger, whatever the old one had left, and as much of it
    // written as the stream takes.
    method Send(msg: Message, script: seq<WriteOutcome>) returns (v: Verdict)
      requires Valid() && Sized(msg)
      modifies this`messenger, this`trace, stream
      ensures Valid() && fresh(messenger) && (v.Wait? || v.Lost?)
      ensures StageOf(v, State(), stream.wire.script) == SendStage(old(State()), msg, script)
    {
      trace := trace.(retired := trace.retired + [Outbound(messenger.msg, messenger.writ)]);
      stream.wire := stream.wire.(script := script);
      messenger := new Messenger(msg);
      var r := messenger.SendAll(stream);
      return if Tolerated(r) then Wait else Lost;
    }
  }

  lemma {:induction false} FillKeepsRead(form: WriteForm, b: BufferState, chunks: seq<seq<byte>>)
    ensures var r := Filled(form, b, chunks);
            !r.Overrun? ==> r.buffer.read - |r.buffer.data| == b.read - |b.data|
  {
    if !Filled(form, b, chunks).Overrun? {
      FilledKeepsRead(form, b, chunks);
    }
  }
}
