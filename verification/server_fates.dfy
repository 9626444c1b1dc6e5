// When writing costs a client its connection, exactly, and how far each write part comes.
module ServerFates {
  import opened Bytes
  import opened Output
  import opened Endings
  import opened Messaging
  import opened InputBuffer
  import opened WsParsing
  import opened ServerSteps

  // What is left of a script after one call.
  function Rest(script: seq<WriteOutcome>): seq<WriteOutcome> {
    if script == [] then [] else script[1..]
  }

  // The bytes an event brings.
  function Brought(io: Io): seq<byte> {
    if io.readable then Taken(io.chunks) else []
  }

  // ---------------------------------------------------------------- the write part

  // The head and the content of the message in the messenger that are still to be written.
  function HeadToGo(c: Client): nat
    requires Runnable(c)
  {
    Left(Header(c.msg), c.writ)
  }

  function ContentToGo(c: Client): nat
    requires Runnable(c)
  {
    BodyToGo(Header(c.msg), c.msg.content, c.writ)
  }

  // The flush breaks or is interrupted, or with the handshake over a write of the message or
  // the flush behind it does.
  predicate WriteFails(c: Client, script: seq<WriteOutcome>)
    requires Runnable(c)
  {
    FlushFails(script) || (!c.isHandshaking && Fails(HeadToGo(c), ContentToGo(c), Rest(script)))
  }

  // How many bytes of the message the stream takes.
  function Written(c: Client, script: seq<WriteOutcome>): nat
    requires Runnable(c)
  {
    if c.isHandshaking || FlushFails(script) then 0 else Takes(HeadToGo(c), ContentToGo(c), Rest(script))
  }

  // c after n more bytes of its message have gone out.
  predicate WroteOn(c: Client, d: Client, n: nat)
    requires Runnable(c)
  {
    && c.writ + n <= |Encode(c.msg)|
    && d == c.(writ := c.writ + n, sent := c.sent + Encode(c.msg)[c.writ..c.writ + n])
  }

  lemma {:induction false} MessagesEnd(c: Client, script: seq<WriteOutcome>)
    requires Runnable(c)
    ensures var (d, _, r) := SendMessages(c, script);
            var h, b := HeadToGo(c), ContentToGo(c);
            && WroteOn(c, d, Takes(h, b, script))
            && (r.Broken? || r.Interrupted? <==> Fails(h, b, script))
            && (r.WouldBlock? <==> Blocks(h, b, script))
  {
    SendAllEnds(Header(c.msg), c.msg.content, c.writ, Wire(c.sent, script), 0);
    SendAllEmits(Header(c.msg), c.msg.content, c.writ, Wire(c.sent, script), 0);
  }

  lemma {:induction false} NothingWritten(c: Client)
    requires Runnable(c)
    ensures WroteOn(c, c, 0)
  {
    assert c.sent + Encode(c.msg)[c.writ..c.writ] == c.sent;
  }

  // A flush, as its script says.
  lemma {:induction false} FlushEnds(w: Wire)
    ensures var (v, f) := FlushOn(w);
            && v == Wire(w.sent, Rest(w.script))
            && (f.Broken? || f.Interrupted? <==> FlushFails(w.script))
            && (f.WouldBlock? <==> FlushBlocks(w.script))
  {
  }

  // The write part of an event drops the client exactly if the flush or a write fails, and
  // writes exactly what the stream takes, however it ends.
  lemma {:induction false} WriteDrops(c: Client, script: seq<WriteOutcome>)
    requires Runnable(c)
    ensures var r := WriteStage(c, script);
            && (r.Drop? <==> WriteFails(c, script))
            && (r.Go? <==> !WriteFails(c, script))
            && WroteOn(c, r.c, Written(c, script))
  {
    FlushEnds(Wire(c.sent, script));
    NothingWritten(c);
    MessagesEnd(c, Rest(script));
  }

  // A send drops the client exactly if a write of the new message fails, and writes exactly
  // what the stream takes of it.
  lemma {:induction false} SendDrops(c: Client, msg: Message, script: seq<WriteOutcome>)
    requires Runnable(c) && Sized(msg)
    ensures var r := SendStage(c, msg, script);
            && (r.Drop? <==> Fails(|Header(msg)|, |msg.content|, script))
            && (r.Stay? <==> !Fails(|Header(msg)|, |msg.content|, script))
            && WroteOn(Replaced(c, msg), r.c, Takes(|Header(msg)|, |msg.content|, script))
  {
    MessagesEnd(Replaced(c, msg), script);
  }

  // A stream that accepts, blocks and interrupts only writes never costs a client its
  // connection: neither the write part of an event nor a send drops it.
  lemma {:induction false} GentleKeeps(c: Client, msg: Message, script: seq<WriteOutcome>)
    requires Runnable(c) && Sized(msg)
    ensures !FlushFails(script) && Gentle(Rest(script)) ==> WriteStage(c, script).Go?
    ensures Gentle(script) ==> SendStage(c, msg, script).Stay?
    ensures OnlyAcceptsOrBlocks(script) ==> WriteStage(c, script).Go? && SendStage(c, msg, script).Stay?
  {
    WriteDrops(c, script);
    SendDrops(c, msg, script);
    if Gentle(script) { GentleNeverFails(|Header(msg)|, |msg.content|, script); }
    if Gentle(Rest(script)) { GentleNeverFails(HeadToGo(c), ContentToGo(c), Rest(script)); }
    if OnlyAcceptsOrBlocks(script) {
      AcceptsAreGentle(script);
      AcceptsAreGentle(Rest(script));
    }
  }
}
