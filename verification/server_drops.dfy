// What ends a connection: exactly which events drop a client, and which panic the server.
module ServerDrops {
  import opened Bytes
  import opened Output
  import opened Endings
  import opened WsFrame
  import opened WsParsing
  import opened InputBuffer
  import opened Handshaking
  import opened ServerSteps
  import opened ServerClients
  import opened ServerDeliveries
  import opened ServerFates
  import opened ServerGreetings
  import HttpRequests

  // ---------------------------------------------------------------- reading

  // Under the write of the source, with something read before: the first chunk is as long as
  // that; with nothing read before: the second chunk is as long as the first.
  predicate Chokes(form: WriteForm, read: nat, chunks: seq<seq<byte>>) {
    && form.Literal? && chunks != [] && chunks[0] != []
    && if read == 0 then |chunks| > 1 && chunks[1] != [] && |chunks[1]| == |chunks[0]| else |chunks[0]| == read
  }

  // The same, with another length.
  predicate Overruns(form: WriteForm, read: nat, chunks: seq<seq<byte>>) {
    && form.Literal? && chunks != [] && chunks[0] != []
    && if read == 0 then |chunks| > 1 && chunks[1] != [] && |chunks[1]| != |chunks[0]| else |chunks[0]| != read
  }

  lemma {:induction false} FillingExact(form: WriteForm, b: BufferState, chunks: seq<seq<byte>>)
    ensures var r := Filled(form, b, chunks);
            && (r.Jammed? <==> Chokes(form, b.read, chunks))
            && (r.Overrun? <==> Overruns(form, b.read, chunks))
  {
    if form.Append? {
      AppendFills(b, chunks);
    } else {
      LiteralFilled(b, chunks);
    }
  }

  // The client after an event brought its bytes and nothing failed.
  predicate Took(c: Client, d: Client, io: Io) {
    && d.buf.data == c.buf.data + Brought(io) && d.parser == c.parser && d.handshaker == c.handshaker
    && d.isHandshaking == c.isHandshaking
    && (d.buf.prevRead < d.buf.read <==> Brought(io) != [] || c.buf.prevRead < c.buf.read)
  }

  lemma {:induction false} ReadingEnds(cfg: Config, c: Client, io: Io, script: seq<WriteOutcome>)
    requires Runnable(c) && io.readable
    ensures var r := ReadStage(cfg, c, io, script);
            && (r.Crash? <==> Overruns(cfg.form, c.buf.read, io.chunks))
            && (r.Drop? <==> Chokes(cfg.form, c.buf.read, io.chunks) || (!r.Crash? && io.readFails))
            && (r.Go? <==> !r.Crash? && !r.Drop?)
            && (r.Go? ==> r.script == script && Took(c, r.c, io))
  {
    FillingExact(cfg.form, c.buf, io.chunks);
    if ReadStage(cfg, c, io, script).Go? {
      ReadMarks(cfg, c, io, script);
      ReadAppends(cfg, c, io, script);
      FilledAppends(cfg.form, c.buf, io.chunks);
    }
  }

  // ---------------------------------------------------------------- the last stage

  // What the buffer holds is refused, or it is a request and answering it fails, or so does
  // sending on with the answer.
  predicate GreetingFails(cfg: Config, h: HandshakerState, data: seq<byte>, script: seq<WriteOutcome>) {
    if h.buf != [] then h.bytesWrit < |h.buf| && AnswerFails(|h.buf| - h.bytesWrit, script)
    else
      match HttpRequests.Deserialize(data)
      case Err(e) => !e.Incomplete?
      case Ok((request, _)) =>
        WS_KEY !in request.headers || AnswerFails(|Upgrade(request.headers[WS_KEY], cfg.accept)|, script)
  }

  lemma {:induction false} GreetingEnds(cfg: Config, c: Client, script: seq<WriteOutcome>)
    requires Runnable(c)
    ensures var r := HandshakeStage(cfg, c, script);
            (r.Drop? <==> GreetingFails(cfg, c.handshaker, c.buf.data, script)) && (r.Drop? || r.Stay?)
  {
    if c.handshaker.buf != [] {
      NextGreetingEnds(cfg, c, script);
    } else {
      FirstGreetingEnds(cfg, c, script);
    }
  }

  lemma {:induction false} NextGreetingEnds(cfg: Config, c: Client, script: seq<WriteOutcome>)
    requires Runnable(c) && c.handshaker.buf != []
    ensures HandshakeStage(cfg, c, script).Drop? <==> c.handshaker.bytesWrit < |c.handshaker.buf| && AnswerFails(ToAnswer(c.handshaker), script)
  {
    if c.handshaker.bytesWrit < |c.handshaker.buf| {
      StageResponds(cfg, c, script);
    } else {
      CountedFinishes(cfg, c, script);
    }
  }

  lemma {:induction false} FirstGreetingEnds(cfg: Config, c: Client, script: seq<WriteOutcome>)
    requires Runnable(c) && c.handshaker == HandshakerState([], 0)
    ensures HandshakeStage(cfg, c, script).Drop? <==> GreetingFails(cfg, c.handshaker, c.buf.data, script)
  {
    if Refusable(c.buf.data) {
      StageRefuses(cfg, c, script);
    } else if HttpRequests.Deserialize(c.buf.data).Ok? {
      var d := StageAnswers(cfg, c, script);
    } else {
      StageWaits(cfg, c, script);
    }
  }

  // The frames in the buffer are refused, or one of them bursts the assertion on lengths.
  predicate Refused(incoming: Option<Message>, data: seq<byte>) {
    var o := ParseMessage(incoming, data).outcome; o.Failed? && o.error != WOULD_BLOCK
  }

  lemma {:induction false} ParsingEnds(c: Client, script: seq<WriteOutcome>)
    requires Runnable(c)
    ensures var r := ParseStage(c, script);
            && (r.Drop? <==> c.buf.prevRead < c.buf.read && Refused(c.parser.incoming, c.buf.data))
            && (r.Crash? <==> c.buf.prevRead < c.buf.read && ParseMessage(c.parser.incoming, c.buf.data).outcome.Panicked?)
            && !r.TlsDrop?
  {
    assert c.buf.data[..c.buf.read] == c.buf.data && c.buf.data[0..] == c.buf.data;
  }

  // ---------------------------------------------------------------- one event

  // With the write and read parts behind it: the last part of the event drops the client.
  predicate LastFails(cfg: Config, c: Client, io: Io) {
    var data := c.buf.data + Brought(io);
    if c.isHandshaking then GreetingFails(cfg, c.handshaker, data, if io.writable then Rest(io.script) else io.script)
    else io.readable && (Brought(io) != [] || c.buf.prevRead < c.buf.read) && Refused(c.parser.incoming, data)
  }

  predicate LastPanics(c: Client, io: Io) {
    && !c.isHandshaking && io.readable && (Brought(io) != [] || c.buf.prevRead < c.buf.read)
    && ParseMessage(c.parser.incoming, c.buf.data + Brought(io)).outcome.Panicked?
  }

  predicate WritesFail(c: Client, io: Io)
    requires Runnable(c)
  {
    io.writable && WriteFails(c, io.script)
  }

  predicate ReadsFail(cfg: Config, c: Client, io: Io) {
    io.readable && (Chokes(cfg.form, c.buf.read, io.chunks) || (!Overruns(cfg.form, c.buf.read, io.chunks) && io.readFails))
  }

  predicate ReadsPanic(cfg: Config, c: Client, io: Io) {
    io.readable && Overruns(cfg.form, c.buf.read, io.chunks)
  }

  // How the event ends the connection, in the order of its parts.
  predicate Falls(cfg: Config, c: Client, io: Io)
    requires Runnable(c)
  {
    && !c.tlsHandshaking
    && (WritesFail(c, io) || ReadsFail(cfg, c, io) || (!ReadsPanic(cfg, c, io) && LastFails(cfg, c, io)))
  }

  predicate Panics(cfg: Config, c: Client, io: Io)
    requires Runnable(c)
  {
    && !c.tlsHandshaking && !WritesFail(c, io)
    && (ReadsPanic(cfg, c, io) || (!ReadsFail(cfg, c, io) && LastPanics(c, io)))
  }

  // The stage before the last, from the client as the event found it.
  lemma {:induction false} WritePart(c: Client, io: Io)
    requires Runnable(c) && !WritesFail(c, io)
    ensures var w := if io.writable then WriteStage(c, io.script) else Go(c, io.script);
            && w.Go? && w.c.buf == c.buf && w.c.parser == c.parser && w.c.handshaker == c.handshaker
            && w.c.isHandshaking == c.isHandshaking
            && (c.isHandshaking ==> w.script == if io.writable then Rest(io.script) else io.script)
  {
    WriteDrops(c, io.script);
  }

  // The last stage ends as its predicates say.
  predicate LastIs(cfg: Config, c: Client, io: Io, r: Stage) {
    && (r.Drop? <==> LastFails(cfg, c, io)) && (r.Crash? <==> LastPanics(c, io)) && !r.TlsDrop?
  }

  lemma {:induction false} LastEnds(cfg: Config, c: Client, d: Client, io: Io, script: seq<WriteOutcome>)
    requires Runnable(c) && Runnable(d) && Took(c, d, io)
    requires c.isHandshaking ==> script == if io.writable then Rest(io.script) else io.script
    ensures LastIs(cfg, c, io, if d.isHandshaking then HandshakeStage(cfg, d, script) else if io.readable then ParseStage(d, script) else Stay(d))
  {
    if d.isHandshaking {
      GreetingEnds(cfg, d, script);
    } else if io.readable {
      ParsingEnds(d, script);
    }
  }

  lemma {:induction false} ReadPart(cfg: Config, c: Client, d: Client, io: Io, script: seq<WriteOutcome>)
    requires Runnable(c) && Runnable(d) && d.buf == c.buf && d.parser == c.parser && d.handshaker == c.handshaker
    requires d.isHandshaking == c.isHandshaking
    ensures var r := if io.readable then ReadStage(cfg, d, io, script) else Go(d, script);
            && (r.Crash? <==> ReadsPanic(cfg, c, io)) && (r.Drop? <==> ReadsFail(cfg, c, io))
            && (r.Go? <==> !r.Crash? && !r.Drop?) && (r.Go? ==> r.script == script && Took(c, r.c, io))
  {
    if io.readable {
      ReadingEnds(cfg, d, io, script);
    } else {
      assert c.buf.data + [] == c.buf.data;
    }
  }

  // Each way an event can end a connection, exactly.
  lemma {:induction false} HandleEnds(cfg: Config, c: Client, io: Io)
    requires Runnable(c)
    ensures var r := Handle(cfg, c, io);
            && (r.Drop? <==> Falls(cfg, c, io))
            && (r.Crash? <==> Panics(cfg, c, io))
            && (r.TlsDrop? <==> c.tlsHandshaking && io.tls.TlsFailed?)
  {
    if !c.tlsHandshaking {
      WriteDrops(c, io.script);
      if !WritesFail(c, io) {
        WritePart(c, io);
        var w := if io.writable then WriteStage(c, io.script) else Go(c, io.script);
        ReadPart(cfg, c, w.c, io, w.script);
        var r := if io.readable then ReadStage(cfg, w.c, io, w.script) else Go(w.c, w.script);
        if r.Go? {
          LastEnds(cfg, c, r.c, io, r.script);
        }
      }
    }
  }
}
