// A message cut into frames by a client (section 5.4 of RFC 6455) and put together again.
module WsReassembly {
  import opened Bytes
  import opened WsFrame
  import opened WsParsing
  import Utf8

  // One piece of a message, the key that masks it, and how its length is written.
  datatype Fragment = Fragment(data: seq<byte>, key: MaskKey, form: LengthForm)

  predicate Writable(frags: seq<Fragment>) {
    forall i | 0 <= i < |frags| :: Fits(frags[i].form, |frags[i].data|)
  }

  function ClientFrame(op: Opcode, fin: bool, x: Fragment): (f: Frame)
    ensures f.maskKey.Some? && |f.payload| == |x.data|
  {
    Frame(fin, op, Some(x.key), ApplyMask(x.data, x.key))
  }

  // The first frame has opcode op, the others are continuations, the last one is final.
  function MessageBytes(op: Opcode, frags: seq<Fragment>): seq<byte>
    requires Writable(frags)
    decreases |frags|
  {
    if frags == [] then []
    else PrintFrame(ClientFrame(op, |frags| == 1, frags[0]), frags[0].form)
         + MessageBytes(Continuation, frags[1..])
  }

  function Content(frags: seq<Fragment>): seq<byte> {
    if frags == [] then [] else frags[0].data + Content(frags[1..])
  }

  lemma {:induction false} ContentSplit(frags: seq<Fragment>, i: nat)
    requires 0 < i <= |frags|
    ensures Content(frags[..i]) == frags[0].data + Content(frags[1..][..i - 1])
  {
    assert frags[..i][1..] == frags[1..][..i - 1];
  }

  function Build(text: bool, content: seq<byte>): Message {
    if text then TextMessage(content) else BinaryMessage(content)
  }

  // A piece is accepted after n bytes if it is at least as long, and well-formed on its own
  // when it is text. For the first piece of a message n is 0.
  predicate Joins(text: bool, n: nat, x: Fragment) {
    n <= |x.data| && (text ==> Utf8.Valid(x.data))
  }

  predicate AllJoin(text: bool, n: nat, frags: seq<Fragment>) {
    forall i | 0 <= i < |frags| :: Joins(text, n + |Content(frags[..i])|, frags[i])
  }

  lemma {:induction false} AllJoinStep(text: bool, n: nat, frags: seq<Fragment>)
    requires frags != []
    ensures AllJoin(text, n, frags)
       <==> Joins(text, n, frags[0]) && AllJoin(text, n + |frags[0].data|, frags[1..])
  {
    var k := n + |frags[0].data|;
    forall i | 0 <= i < |frags| - 1
      ensures Joins(text, n + |Content(frags[..i + 1])|, frags[i + 1])
         <==> Joins(text, k + |Content(frags[1..][..i])|, frags[1..][i])
    {
      ContentSplit(frags, i + 1);
    }
    if AllJoin(text, n, frags) {
      assert Joins(text, n + |Content(frags[..0])|, frags[0]);
      forall i | 0 <= i < |frags[1..]|
        ensures Joins(text, k + |Content(frags[1..][..i])|, frags[1..][i])
      {
        assert Joins(text, n + |Content(frags[..i + 1])|, frags[i + 1]);
      }
    }
    if Joins(text, n, frags[0]) && AllJoin(text, k, frags[1..]) {
      forall i | 0 <= i < |frags|
        ensures Joins(text, n + |Content(frags[..i])|, frags[i])
      {
        if i > 0 {
          assert Joins(text, k + |Content(frags[1..][..i - 1])|, frags[1..][i - 1]);
        }
      }
    }
  }

  function SoFar(incoming: Option<Message>): seq<byte> {
    if incoming.Some? then incoming.value.content else []
  }

  function NextOpcode(text: bool, incoming: Option<Message>): Opcode {
    if incoming.Some? then Continuation else if text then Text else Binary
  }

  predicate Kind(text: bool, incoming: Option<Message>) {
    incoming.Some? ==> incoming.value.TextMessage? == text
  }

  // What reading one client frame does to the message so far.
  lemma {:induction false} ApplyClientFrame(text: bool, incoming: Option<Message>, x: Fragment, fin: bool)
    requires Kind(text, incoming)
    ensures var step := Apply(incoming, ClientFrame(NextOpcode(text, incoming), fin, x));
            if Joins(text, |SoFar(incoming)|, x) then step == Held(Build(text, SoFar(incoming) + x.data))
            else if |SoFar(incoming)| > |x.data| then step.Burst?
            else step.Rejected? && step.error == NOT_VALID_UTF8
  {
    ApplyMaskCancels(x.data, x.key);
    assert Unmasked(ClientFrame(NextOpcode(text, incoming), fin, x)) == x.data;
    if incoming.None? {
      assert SoFar(incoming) + x.data == x.data;
    }
  }

  lemma {:induction false} ReadsFirst(op: Opcode, frags: seq<Fragment>, tail: seq<byte>)
    requires Writable(frags) && frags != []
    ensures ReadFrame(MessageBytes(op, frags) + tail)
         == Ok((ClientFrame(op, |frags| == 1, frags[0]), MessageBytes(Continuation, frags[1..]) + tail))
  {
    var f := ClientFrame(op, |frags| == 1, frags[0]);
    var after := MessageBytes(Continuation, frags[1..]) + tail;
    assert MessageBytes(op, frags) + tail == PrintFrame(f, frags[0].form) + after;
    ReadPrinted(f, frags[0].form, after);
  }

  // One turn of the loop on a client frame.
  lemma {:induction false} OnePiece(text: bool, incoming: Option<Message>, x: Fragment, fin: bool, buf: seq<byte>, after: seq<byte>)
    requires Kind(text, incoming)
    requires ReadFrame(buf) == Ok((ClientFrame(NextOpcode(text, incoming), fin, x), after))
    ensures var r := ParseMessage(incoming, buf);
            var next := Build(text, SoFar(incoming) + x.data);
            if !Joins(text, |SoFar(incoming)|, x) then Refused(r)
            else if fin then r == Fold(Parsed(next, after), None, buf)
            else r == ParseMessage(Some(next), after)
  {
    ApplyClientFrame(text, incoming, x, fin);
  }

  predicate Refused(r: Fold) {
    r.outcome == Panicked || r.outcome == Failed(NOT_VALID_UTF8)
  }

  predicate Accepted(r: Fold, m: Message, tail: seq<byte>) {
    r.outcome == Parsed(m, tail) && r.incoming == None
  }

  // Continuing after some pieces: the rest of the frames complete the message, and only if
  // every piece joins.
  lemma {:induction false} Rebuilds(text: bool, incoming: Option<Message>, frags: seq<Fragment>, tail: seq<byte>)
    requires Writable(frags) && frags != [] && Kind(text, incoming)
    ensures var r := ParseMessage(incoming, MessageBytes(NextOpcode(text, incoming), frags) + tail);
            if AllJoin(text, |SoFar(incoming)|, frags)
            then Accepted(r, Build(text, SoFar(incoming) + Content(frags)), tail)
            else Refused(r)
    decreases |frags|
  {
    var x, sofar := frags[0], SoFar(incoming);
    var after := MessageBytes(Continuation, frags[1..]) + tail;
    ReadsFirst(NextOpcode(text, incoming), frags, tail);
    OnePiece(text, incoming, x, |frags| == 1, MessageBytes(NextOpcode(text, incoming), frags) + tail, after);
    AllJoinStep(text, |sofar|, frags);
    if Joins(text, |sofar|, x) {
      ContentStep(sofar, frags);
      if |frags| > 1 {
        Rebuilds(text, Some(Build(text, sofar + x.data)), frags[1..], tail);
      } else {
        assert after == tail;
      }
    }
  }

  lemma {:induction false} ContentStep(sofar: seq<byte>, frags: seq<Fragment>)
    requires frags != []
    ensures sofar + Content(frags) == sofar + frags[0].data + Content(frags[1..])
    ensures |frags| == 1 ==> sofar + Content(frags) == sofar + frags[0].data
  {
  }

  // Reassembly of any message in any pieces, keys and length forms: exactly when every
  // continuation is at least as long as all before it and every piece of a text is
  // well-formed alone, the message and the tail come back and nothing is left over.
  lemma {:induction false} Reassembly(text: bool, frags: seq<Fragment>, tail: seq<byte>)
    requires Writable(frags) && frags != []
    ensures var r := ParseMessage(None, MessageBytes(if text then Text else Binary, frags) + tail);
            if AllJoin(text, 0, frags)
            then Accepted(r, Build(text, Content(frags)), tail) else Refused(r)
  {
    Rebuilds(text, None, frags, tail);
    assert [] + Content(frags) == Content(frags);
  }

  // Section 5.4 lets a continuation be shorter than what precedes it: here the assert fails.
  lemma {:induction false} ShortContinuationPanics(key: MaskKey, tail: seq<byte>)
    ensures var frags := [Fragment([1, 2], key, Short), Fragment([3], key, Short)];
            ParseMessage(None, MessageBytes(Binary, frags) + tail).outcome == Panicked
  {
    var x, y := Fragment([1, 2], key, Short), Fragment([3], key, Short);
    ReadsFirst(Binary, [x, y], tail);
    ApplyClientFrame(false, None, x, false);
    assert [x, y][1..] == [y];
    ReadsFirst(Continuation, [y], tail);
    ApplyClientFrame(false, Some(BinaryMessage([] + x.data)), y, true);
  }

  // Section 5.6 lets a code point span frames: here the two halves of U+00E9 are refused.
  lemma {:induction false} SplitCodePointRefused(key: MaskKey, tail: seq<byte>)
    ensures Utf8.Valid([0xC3, 0xA9])
    ensures var frags := [Fragment([0xC3], key, Short), Fragment([0xA9], key, Short)];
            ParseMessage(None, MessageBytes(Text, frags) + tail).outcome == Failed(NOT_VALID_UTF8)
  {
    var x := Fragment([0xC3], key, Short);
    ReadsFirst(Text, [x, Fragment([0xA9], key, Short)], tail);
    ApplyClientFrame(true, None, x, false);
    assert [0xC3 as byte, 0xA9][2..] == [];
  }
}
