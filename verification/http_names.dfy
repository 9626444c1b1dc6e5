// Field names as clients write them: recognised in any letter case, by the numbers of their
// letters.
module HttpNames {
  import opened Bytes
  import opened Text
  import opened HttpRequests
  import opened HttpRoundTrip
  import opened HttpGrammar
  import opened Handshaking

  // "Sec-WebSocket-Key", in any letter case.
  predicate SaysKey(f: Field) {
    SameLetters(f.name, [83, 101, 99, 45, 87, 101, 98, 83, 111, 99, 107, 101, 116, 45, 75, 101, 121])
  }

  lemma {:induction false} KeyLiteral(written: seq<byte>)
    requires written == [83, 101, 99, 45, 87, 101, 98, 83, 111, 99, 107, 101, 116, 45, 75, 101, 121]
    ensures ToLower(written) == WS_KEY
  {
    assert WS_KEY == [115, 101, 99, 45, 119, 101, 98, 115, 111, 99, 107, 101, 116, 45, 107, 101, 121];
  }

  lemma {:induction false} KeyName(f: Field)
    ensures Name(f) == WS_KEY <==> SaysKey(f)
  {
    var written: seq<byte> := [83, 101, 99, 45, 87, 101, 98, 83, 111, 99, 107, 101, 116, 45, 75, 101, 121];
    KeyLiteral(written);
    LowerExact(f.name, written);
  }

  // Field i names the key, and no field behind it does.
  predicate LastKey(fs: seq<Field>, i: nat) {
    i < |fs| && SaysKey(fs[i]) && forall j | i < j < |fs| :: !SaysKey(fs[j])
  }

  lemma {:induction false} KeysNamed(fs: seq<Field>)
    ensures forall i | 0 <= i < |fs| :: Name(fs[i]) == WS_KEY <==> SaysKey(fs[i])
  {
    forall i | 0 <= i < |fs| ensures Name(fs[i]) == WS_KEY <==> SaysKey(fs[i]) {
      KeyName(fs[i]);
    }
  }

  lemma {:induction false} WishReads(r: Wish, tail: seq<byte>)
    requires WellFormed(r)
    ensures Deserialize(Print(r) + tail) == Ok((Meaning(r), tail)) && Meaning(r).headers == FieldMap(r.fields, map[])
  {
    RequestRoundTrip(r, false, tail);
    assert [] + (Print(r) + tail) == Print(r) + tail;
  }

  // A well-formed request is answered with its last key, however that name is written; what
  // follows the request is left.
  lemma {:induction false} KeyAnswered(r: Wish, i: nat, tail: seq<byte>, accept: AcceptFn)
    requires WellFormed(r) && LastKey(r.fields, i)
    ensures HandshakeStep(HandshakerState([], 0), Print(r) + tail, accept)
         == (HandshakerState(Upgrade(r.fields[i].value, accept), 0), Progress(Responding, tail))
  {
    WishReads(r, tail);
    KeysNamed(r.fields);
    FieldMapValues(r.fields, map[], i);
  }

  // Without a key it is refused.
  lemma {:induction false} KeylessRefused(r: Wish, tail: seq<byte>, accept: AcceptFn)
    requires WellFormed(r) && forall i | 0 <= i < |r.fields| :: !SaysKey(r.fields[i])
    ensures HandshakeStep(HandshakerState([], 0), Print(r) + tail, accept) == (HandshakerState([], 0), Refused)
  {
    WishReads(r, tail);
    KeysNamed(r.fields);
    FieldMapNames(r.fields, map[], WS_KEY);
  }

  // A body of five bytes behind a head with the usual capitals.
  function PostText(): seq<byte> {
    Lit("POST / HTTP/1.1") + CRLF + Lit("Content-Length: 5") + CRLF2 + Lit("hello")
  }

  function PostWish(): Wish {
    Wish(POST, Lit("/"), None, V_1_1, [Field(Lit("Content-Length"), Lit(" "), Lit("5"), [])], Lit("hello"))
  }

  lemma {:induction false} FiveReads()
    ensures ParseUsize(Lit("5")) == Some(5) && Trimmed(Lit("5")) && Plain(Lit("5"))
  {
    assert Lit("5") == [53];
    DigitValue(53);
  }

  lemma {:induction false} PostWellFormed()
    ensures WellFormed(PostWish())
  {
    var f := PostWish().fields[0];
    FiveReads();
    LengthSpelled(f);
    LengthName(f);
    assert Lit("/") == [47] && Lit(" ") == [32];
    assert WellFormedField(f) by {
      assert forall i | 0 <= i < 14 :: f.name[i] != 58;
    }
    assert Framed(PostWish().fields[1..], []);
  }

  lemma {:induction false} LengthSpelled(f: Field)
    requires f.name == Lit("Content-Length")
    ensures SaysLength(f)
  {
    assert f.name == [67, 111, 110, 116, 101, 110, 116, 45, 76, 101, 110, 103, 116, 104];
  }

  lemma {:induction false} JoinThree(a: seq<byte>, b: seq<byte>, c: seq<byte>, sep: seq<byte>)
    ensures Join([a, b, c], sep) == a + sep + (b + sep + c)
  {
    assert [a, b, c][1..] == [b, c] && [b, c][1..] == [c];
    assert Join([b, c], sep) == b + sep + c;
  }

  lemma {:induction false} PostLines()
    ensures PrintRequestLine(PostWish()) == Lit("POST / HTTP/1.1")
    ensures PrintField(PostWish().fields[0]) == Lit("Content-Length: 5")
  {
    JoinThree(Lit("POST"), Lit("/"), Lit("HTTP/1.1"), [SP]);
  }

  lemma {:induction false} PostPrints()
    requires WellFormed(PostWish())
    ensures Print(PostWish()) == PostText()
  {
    var r := PostWish();
    PostLines();
    assert PrintFields(r.fields) == [Lit("Content-Length: 5")];
    var lines := [Lit("POST / HTTP/1.1")] + PrintFields(r.fields);
    assert lines[1..] == [Lit("Content-Length: 5")];
    assert Join(lines, CRLF) == Lit("POST / HTTP/1.1") + CRLF + Lit("Content-Length: 5");
  }

  lemma {:induction false} PostReads(tail: seq<byte>)
    ensures var r := Deserialize(PostText() + tail);
            r.Ok? && r.value.0.verb == POST && r.value.0.path == Lit("/") && r.value.0.body == Lit("hello") && r.value.1 == tail
  {
    PostWellFormed();
    PostPrints();
    RequestRoundTrip(PostWish(), false, tail);
    assert [] + (PostText() + tail) == PostText() + tail;
  }
}
