// The input buffer of a client, and io::copy from the stream into it.
module InputBuffer {
  import opened Bytes

  datatype BufferState = BufferState(data: seq<byte>, read: nat, prevRead: nat)

  const EMPTY := BufferState([], 0, 0)

  // The source stores buf[read..] of what it is given; Append stores all of it.
  datatype WriteForm = Literal | Append

  // The new buffer and how much was stored; None is the slice out of range.
  function Written(form: WriteForm, b: BufferState, chunk: seq<byte>): Option<(BufferState, nat)> {
    if form.Literal? && b.read > |chunk| then None
    else
      var stored := if form.Literal? then chunk[b.read..] else chunk;
      Some((BufferState(b.data + stored, b.read + |stored|, b.read), |stored|))
  }

  function Consumed(b: BufferState, bytes: nat): BufferState
    requires bytes <= |b.data|
  {
    var n := |b.data| - bytes;
    BufferState(b.data[bytes..], n, n)
  }

  class Buffer {
    var data: seq<byte>
    var read: nat
    var prevRead: nat
    const form: WriteForm

    constructor (form: WriteForm)
      ensures State() == EMPTY && this.form == form
    {
      data, read, prevRead := [], 0, 0;
      this.form := form;
    }

    function State(): BufferState
      reads this
    {
      BufferState(data, read, prevRead)
    }

    predicate HasRead()
      reads this
    {
      prevRead < read
    }

    method TheStorySoFar() returns (s: seq<byte>)
      requires read <= |data|
      ensures s == data[..read]
    {
      s := data[..read];
    }

    method CopyWithin(bytes: nat)
      requires bytes <= |data|
      modifies this`data
      ensures data == old(data)[bytes..] + old(data)[|old(data)| - bytes..]
    {
      ghost var was := data;
      var n := |data| - bytes;
      Moves(was, bytes);
      for i := 0 to n
        invariant data == Moving(was, bytes, i)
      {
        MovesOne(was, bytes, i);
        data := data[i := data[bytes + i]];
      }
    }

    method Consume(bytes: nat)
      requires bytes <= |data|
      modifies this
      ensures State() == Consumed(old(State()), bytes)
    {
      var newLen := |data| - bytes;
      MovedAll(data, bytes);
      CopyWithin(bytes);
      data := data[..newLen];
      read := newLen;
      prevRead := newLen;
    }

    method Write(chunk: seq<byte>) returns (writ: nat)
      requires form.Literal? ==> read <= |chunk|
      modifies this
      ensures Written(form, old(State()), chunk) == Some((State(), writ))
    {
      prevRead := read;
      var stored := if form.Literal? then chunk[read..] else chunk;
      data := data + stored;
      writ := |stored|;
      read := read + writ;
    }

    // io::copy from a stream that yields chunks.
    method CopyFrom(chunks: seq<seq<byte>>) returns (r: Filling)
      modifies this
      ensures r == Filled(form, old(State()), chunks)
      ensures !r.Overrun? ==> State() == r.buffer
    {
      for i := 0 to |chunks|
        invariant Filled(form, old(State()), chunks) == Filled(form, State(), chunks[i..])
      {
        if chunks[i] == [] { return Full(State()); }
        var rest := chunks[i];
        ghost var before := State();
        while rest != []
          invariant StoreAll(form, before, chunks[i]) == StoreAll(form, State(), rest)
          decreases |rest|
        {
          if form.Literal? && read > |rest| { return Overrun; }
          var n := Write(rest);
          if n == 0 { return Jammed(State()); }
          rest := rest[n..];
        }
        assert StoreAll(form, before, chunks[i]) == Full(State());
      }
      return Full(State());
    }
  }

  // The data of copy_within after i bytes.
  function Moving(was: seq<byte>, bytes: nat, i: nat): (r: seq<byte>)
    requires bytes + i <= |was|
    ensures |r| == |was|
  {
    was[bytes..bytes + i] + was[i..]
  }

  lemma {:induction false} MovesOne(was: seq<byte>, bytes: nat, i: nat)
    requires bytes + i < |was|
    ensures var r := Moving(was, bytes, i); r[i := r[bytes + i]] == Moving(was, bytes, i + 1)
  {
    assert Moving(was, bytes, i)[bytes + i] == was[bytes + i];
  }

  lemma {:induction false} Moves(was: seq<byte>, bytes: nat)
    requires bytes <= |was|
    ensures Moving(was, bytes, 0) == was
    ensures Moving(was, bytes, |was| - bytes) == was[bytes..] + was[|was| - bytes..]
  {
  }

  lemma {:induction false} MovedAll(was: seq<byte>, bytes: nat)
    requires bytes <= |was|
    ensures (was[bytes..] + was[|was| - bytes..])[..|was| - bytes] == was[bytes..]
  {
  }

  // Full: everything stored. Jammed: a write stored nothing (WriteZero). Overrun: a panic.
  datatype Filling = Full(buffer: BufferState) | Jammed(buffer: BufferState) | Overrun

  // write_all.
  function StoreAll(form: WriteForm, b: BufferState, chunk: seq<byte>): Filling
    decreases |chunk|
  {
    if chunk == [] then Full(b)
    else
      match Written(form, b, chunk)
      case None => Overrun
      case Some((b', n)) => if n == 0 then Jammed(b') else StoreAll(form, b', chunk[n..])
  }

  // An empty chunk is the end of the stream.
  function Filled(form: WriteForm, b: BufferState, chunks: seq<seq<byte>>): Filling
    decreases |chunks|
  {
    if chunks == [] || chunks[0] == [] then Full(b)
    else
      var r := StoreAll(form, b, chunks[0]);
      if r.Full? then Filled(form, r.buffer, chunks[1..]) else r
  }

  function Taken(chunks: seq<seq<byte>>): seq<byte> {
    if chunks == [] || chunks[0] == [] then [] else chunks[0] + Taken(chunks[1..])
  }

  // The literal write is a plain append exactly when nothing was read before. Otherwise it
  // stores nothing when the chunk is as long as what was read, and panics for any other.
  lemma {:induction false} StoreAllExact(form: WriteForm, b: BufferState, chunk: seq<byte>)
    requires chunk != []
    ensures StoreAll(form, b, chunk) ==
            if form.Append? || b.read == 0
            then Full(BufferState(b.data + chunk, b.read + |chunk|, b.read))
            else if |chunk| == b.read then Jammed(BufferState(b.data, b.read, b.read))
            else Overrun
  {
    var w := Written(form, b, chunk);
    if w.Some? && w.value.1 > 0 {
      var (b', n) := w.value;
      if form.Append? || b.read == 0 {
        assert chunk[0..] == chunk && chunk[n..] == [];
      } else {
        assert |chunk[n..]| == b.read < b'.read;
      }
    } else {
      assert b.data + [] == b.data;
    }
  }

  // One event under the literal write, exactly: it succeeds if it brings nothing, or one
  // chunk for an empty buffer. The next chunk jams if it is as long as what was read before
  // it, and any other panics.
  lemma {:induction false} LiteralFilled(b: BufferState, chunks: seq<seq<byte>>)
    ensures var first := chunks != [] && chunks[0] != [];
            var second := first && |chunks| > 1 && chunks[1] != [];
            var r := Filled(Literal, b, chunks);
            && (r.Full? <==> Taken(chunks) == [] || (b.read == 0 && !second))
            && (r.Jammed? <==> if b.read == 0 then second && |chunks[1]| == |chunks[0]| else first && |chunks[0]| == b.read)
  {
    if chunks != [] && chunks[0] != [] {
      StoreAllExact(Literal, b, chunks[0]);
      if b.read == 0 {
        var c := StoreAll(Literal, b, chunks[0]).buffer;
        assert chunks[1..] != [] ==> chunks[1..][0] == chunks[1];
        if |chunks| > 1 && chunks[1] != [] {
          StoreAllExact(Literal, c, chunks[1]);
        }
      }
    }
  }

  // Whatever the form, a fill that succeeds has appended exactly the bytes taken.
  lemma {:induction false} FilledAppends(form: WriteForm, b: BufferState, chunks: seq<seq<byte>>)
    requires Filled(form, b, chunks).Full?
    ensures var r := Filled(form, b, chunks).buffer;
            && r.data == b.data + Taken(chunks)
            && r.read == b.read + |Taken(chunks)|
    decreases |chunks|
  {
    if chunks != [] && chunks[0] != [] {
      StoreAllExact(form, b, chunks[0]);
      FilledAppends(form, StoreAll(form, b, chunks[0]).buffer, chunks[1..]);
      assert b.data + chunks[0] + Taken(chunks[1..]) == b.data + Taken(chunks);
    } else {
      assert b.data + [] == b.data;
    }
  }

  // read stays as far from the end of data as it was, even when storing jams.
  lemma {:induction false} FilledKeepsRead(form: WriteForm, b: BufferState, chunks: seq<seq<byte>>)
    requires !Filled(form, b, chunks).Overrun?
    ensures var r := Filled(form, b, chunks).buffer;
            r.read - |r.data| == b.read - |b.data|
    decreases |chunks|
  {
    if chunks != [] && chunks[0] != [] {
      StoreAllExact(form, b, chunks[0]);
      var s := StoreAll(form, b, chunks[0]);
      if s.Full? {
        FilledKeepsRead(form, s.buffer, chunks[1..]);
      }
    }
  }

  // The append form never fails.
  lemma {:induction false} AppendFills(b: BufferState, chunks: seq<seq<byte>>)
    ensures Filled(Append, b, chunks).Full?
    decreases |chunks|
  {
    if chunks != [] && chunks[0] != [] {
      StoreAllExact(Append, b, chunks[0]);
      AppendFills(StoreAll(Append, b, chunks[0]).buffer, chunks[1..]);
    }
  }
}
