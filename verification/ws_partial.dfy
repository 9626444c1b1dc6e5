// A fragmented message of which only the first bytes have come.
module WsPartial {
  import opened Bytes
  import opened WsFrame
  import opened WsParsing
  import opened WsReassembly

  // What becomes of some pieces in order: they join to a content, one bursts the assertion
  // on lengths, or one is not well-formed on its own.
  datatype Fate = Joined(content: seq<byte>) | Bursts | Invalid

  function FateOf(text: bool, sofar: seq<byte>, frags: seq<Fragment>): Fate
    decreases |frags|
  {
    if frags == [] then Joined(sofar)
    else if !Joins(text, |sofar|, frags[0]) then (if |sofar| > |frags[0].data| then Bursts else Invalid)
    else FateOf(text, sofar + frags[0].data, frags[1..])
  }

  // They join exactly under the condition of reassembly, and to the content of them all.
  lemma {:induction false} FateExact(text: bool, sofar: seq<byte>, frags: seq<Fragment>)
    ensures FateOf(text, sofar, frags).Joined? <==> AllJoin(text, |sofar|, frags)
    ensures FateOf(text, sofar, frags).Joined? ==> FateOf(text, sofar, frags).content == sofar + Content(frags)
    decreases |frags|
  {
    if frags != [] {
      AllJoinStep(text, |sofar|, frags);
      FateExact(text, sofar + frags[0].data, frags[1..]);
      assert sofar + frags[0].data + Content(frags[1..]) == sofar + (frags[0].data + Content(frags[1..]));
    } else {
      assert sofar + [] == sofar;
    }
  }

  function FirstBytes(op: Opcode, frags: seq<Fragment>): seq<byte>
    requires Writable(frags) && frags != []
  {
    PrintFrame(ClientFrame(op, |frags| == 1, frags[0]), frags[0].form)
  }

  // How many frames of the message lie within its first n bytes.
  function Complete(op: Opcode, frags: seq<Fragment>, n: nat): (k: nat)
    requires Writable(frags)
    ensures k <= |frags|
    decreases |frags|
  {
    if frags == [] || n < |FirstBytes(op, frags)| then 0
    else 1 + Complete(Continuation, frags[1..], n - |FirstBytes(op, frags)|)
  }

  // A parser that has folded everything that is complete and now waits.
  predicate WaitsWith(r: Fold, incoming: Option<Message>) {
    r.outcome == Failed(WOULD_BLOCK) && r.incoming == incoming
  }

  // What parsing the first bytes of a message comes to, from its complete frames alone.
  predicate Comes(text: bool, incoming: Option<Message>, frags: seq<Fragment>, k: nat, r: Fold)
    requires k <= |frags|
  {
    match FateOf(text, SoFar(incoming), frags[..k])
    case Bursts => r.outcome == Panicked
    case Invalid => r.outcome == Failed(NOT_VALID_UTF8)
    case Joined(content) =>
      if k == |frags| then r.outcome.Parsed? && r.outcome.msg == Build(text, content) && r.incoming == None
      else WaitsWith(r, if k == 0 then incoming else Some(Build(text, content)))
  }

  lemma {:induction false} FirstMissing(op: Opcode, frags: seq<Fragment>, data: seq<byte>, tail: seq<byte>)
    requires Writable(frags) && frags != [] && data <= MessageBytes(op, frags) + tail
    requires |data| < |FirstBytes(op, frags)|
    ensures ReadFrame(data) == Err(WOULD_BLOCK)
  {
    assert MessageBytes(op, frags) == FirstBytes(op, frags) + MessageBytes(Continuation, frags[1..]);
    assert data == FirstBytes(op, frags)[..|data|];
    PrefixBlocks(ClientFrame(op, |frags| == 1, frags[0]), frags[0].form, |data|);
  }

  lemma {:induction false} CutBehind(first: seq<byte>, after: seq<byte>, tail: seq<byte>, data: seq<byte>)
    requires data <= first + after + tail && |data| >= |first|
    ensures data == first + data[|first|..] && data[|first|..] <= after + tail
  {
    assert first + after + tail == first + (after + tail);
    assert data[|first|..] == (first + (after + tail))[|first|..|data|];
  }

  lemma {:induction false} FirstThere(op: Opcode, frags: seq<Fragment>, data: seq<byte>, tail: seq<byte>)
    requires Writable(frags) && frags != [] && data <= MessageBytes(op, frags) + tail
    requires |data| >= |FirstBytes(op, frags)|
    ensures var rest := data[|FirstBytes(op, frags)|..];
            && ReadFrame(data) == Ok((ClientFrame(op, |frags| == 1, frags[0]), rest))
            && rest <= MessageBytes(Continuation, frags[1..]) + tail
  {
    var first := FirstBytes(op, frags);
    CutBehind(first, MessageBytes(Continuation, frags[1..]), tail, data);
    ReadPrinted(ClientFrame(op, |frags| == 1, frags[0]), frags[0].form, data[|first|..]);
  }

  lemma {:induction false} FateStep(text: bool, sofar: seq<byte>, frags: seq<Fragment>, k: nat)
    requires 0 < k <= |frags|
    ensures FateOf(text, sofar, frags[..k]) ==
            if !Joins(text, |sofar|, frags[0]) then (if |sofar| > |frags[0].data| then Bursts else Invalid)
            else FateOf(text, sofar + frags[0].data, frags[1..][..k - 1])
  {
    assert frags[..k][1..] == frags[1..][..k - 1];
  }

  // The first piece joins and the others are still to be folded.
  lemma {:induction false} ComesOn(text: bool, incoming: Option<Message>, frags: seq<Fragment>, k: nat, r: Fold)
    requires |frags| > 1 && k < |frags| && Kind(text, incoming) && Joins(text, |SoFar(incoming)|, frags[0])
    requires Comes(text, Some(Build(text, SoFar(incoming) + frags[0].data)), frags[1..], k, r)
    ensures Comes(text, incoming, frags, k + 1, r)
  {
    FateStep(text, SoFar(incoming), frags, k + 1);
    assert frags[1..][..0] == [];
  }

  // The first piece does not join, or it is the only one.
  lemma {:induction false} ComesAtOnce(text: bool, incoming: Option<Message>, frags: seq<Fragment>, k: nat, buf: seq<byte>, after: seq<byte>)
    requires 0 < k <= |frags| && Kind(text, incoming)
    requires ReadFrame(buf) == Ok((ClientFrame(NextOpcode(text, incoming), |frags| == 1, frags[0]), after))
    requires |frags| == 1 || !Joins(text, |SoFar(incoming)|, frags[0])
    ensures Comes(text, incoming, frags, k, ParseMessage(incoming, buf))
  {
    PieceFate(text, incoming, frags[0], |frags| == 1, buf, after);
    FateStep(text, SoFar(incoming), frags, k);
  }

  lemma {:induction false} NoneComes(text: bool, incoming: Option<Message>, frags: seq<Fragment>, data: seq<byte>)
    requires frags != [] && ReadFrame(data) == Err(WOULD_BLOCK)
    ensures Comes(text, incoming, frags, 0, ParseMessage(incoming, data))
  {
    assert frags[..0] == [];
  }

  lemma {:induction false} OneComes(text: bool, incoming: Option<Message>, frags: seq<Fragment>, k: nat, buf: seq<byte>, after: seq<byte>)
    requires |frags| > 1 && k < |frags| && Kind(text, incoming) && Joins(text, |SoFar(incoming)|, frags[0])
    requires ReadFrame(buf) == Ok((ClientFrame(NextOpcode(text, incoming), false, frags[0]), after))
    requires var next := Some(Build(text, SoFar(incoming) + frags[0].data));
             Comes(text, next, frags[1..], k, ParseMessage(next, after))
    ensures Comes(text, incoming, frags, k + 1, ParseMessage(incoming, buf))
  {
    PieceFate(text, incoming, frags[0], false, buf, after);
    ComesOn(text, incoming, frags, k, ParseMessage(incoming, buf));
  }

  lemma {:induction false} CompleteStep(op: Opcode, frags: seq<Fragment>, n: nat)
    requires Writable(frags) && frags != []
    ensures var l := |FirstBytes(op, frags)|;
            && Complete(op, frags, n) == (if n < l then 0 else 1 + Complete(Continuation, frags[1..], n - l))
            && (n >= l ==> Complete(Continuation, frags[1..], n - l) < |frags|)
  {
  }

  // What is claimed of a prefix.
  predicate Parses(text: bool, incoming: Option<Message>, op: Opcode, frags: seq<Fragment>, data: seq<byte>)
    requires Writable(frags)
  {
    Comes(text, incoming, frags, Complete(op, frags, |data|), ParseMessage(incoming, data))
  }

  lemma {:induction false} ParsesNone(text: bool, incoming: Option<Message>, op: Opcode, frags: seq<Fragment>, data: seq<byte>, tail: seq<byte>)
    requires Writable(frags) && frags != [] && data <= MessageBytes(op, frags) + tail
    requires |data| < |FirstBytes(op, frags)|
    ensures Parses(text, incoming, op, frags, data)
  {
    CompleteStep(op, frags, |data|);
    FirstMissing(op, frags, data, tail);
    NoneComes(text, incoming, frags, data);
  }

  lemma {:induction false} ParsesAtOnce(text: bool, incoming: Option<Message>, op: Opcode, frags: seq<Fragment>, data: seq<byte>, rest: seq<byte>)
    requires Writable(frags) && frags != [] && Kind(text, incoming) && op == NextOpcode(text, incoming)
    requires |data| >= |FirstBytes(op, frags)| && ReadFrame(data) == Ok((ClientFrame(op, |frags| == 1, frags[0]), rest))
    requires |frags| == 1 || !Joins(text, |SoFar(incoming)|, frags[0])
    ensures Parses(text, incoming, op, frags, data)
  {
    CompleteStep(op, frags, |data|);
    ComesAtOnce(text, incoming, frags, Complete(op, frags, |data|), data, rest);
  }

  lemma {:induction false} ParsesOn(
      text: bool, incoming: Option<Message>, op: Opcode, frags: seq<Fragment>, data: seq<byte>, rest: seq<byte>, next: Option<Message>)
    requires Writable(frags) && |frags| > 1 && Kind(text, incoming) && op == NextOpcode(text, incoming)
    requires |data| == |FirstBytes(op, frags)| + |rest| && ReadFrame(data) == Ok((ClientFrame(op, false, frags[0]), rest))
    requires Joins(text, |SoFar(incoming)|, frags[0]) && next == Some(Build(text, SoFar(incoming) + frags[0].data))
    requires Parses(text, next, Continuation, frags[1..], rest)
    ensures Parses(text, incoming, op, frags, data)
  {
    CompleteStep(op, frags, |data|);
    OneComes(text, incoming, frags, Complete(Continuation, frags[1..], |rest|), data, rest);
  }

  // Whatever prefix of a message, and whatever of what follows it, is parsed.
  lemma {:induction false} PartParses(text: bool, incoming: Option<Message>, op: Opcode, frags: seq<Fragment>, data: seq<byte>, tail: seq<byte>)
    requires Writable(frags) && frags != [] && Kind(text, incoming) && op == NextOpcode(text, incoming)
    requires data <= MessageBytes(op, frags) + tail
    ensures Parses(text, incoming, op, frags, data)
    decreases |frags|
  {
    if |data| < |FirstBytes(op, frags)| {
      ParsesNone(text, incoming, op, frags, data, tail);
    } else {
      FirstThere(op, frags, data, tail);
      var rest := data[|FirstBytes(op, frags)|..];
      if |frags| == 1 || !Joins(text, |SoFar(incoming)|, frags[0]) {
        ParsesAtOnce(text, incoming, op, frags, data, rest);
      } else {
        var next := Some(Build(text, SoFar(incoming) + frags[0].data));
        PartParses(text, next, Continuation, frags[1..], rest, tail);
        ParsesOn(text, incoming, op, frags, data, rest, next);
      }
    }
  }

  lemma {:induction false} PieceFate(text: bool, incoming: Option<Message>, x: Fragment, fin: bool, buf: seq<byte>, after: seq<byte>)
    requires Kind(text, incoming)
    requires ReadFrame(buf) == Ok((ClientFrame(NextOpcode(text, incoming), fin, x), after))
    ensures var r := ParseMessage(incoming, buf);
            var next := Build(text, SoFar(incoming) + x.data);
            if !Joins(text, |SoFar(incoming)|, x) then
              if |SoFar(incoming)| > |x.data| then r.outcome == Panicked else r.outcome == Failed(NOT_VALID_UTF8)
            else if fin then r == Fold(Parsed(next, after), None, buf)
            else r == ParseMessage(Some(next), after)
  {
    ApplyClientFrame(text, incoming, x, fin);
  }
}
