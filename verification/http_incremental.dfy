// A request that arrives in pieces, against the same request parsed whole.
module HttpIncremental {
  import opened Bytes
  import opened Text
  import opened HttpRequests

  // ---------------------------------------------------------------- the head

  lemma {:induction false} ScanStable(s: seq<byte>, i: nat, more: seq<byte>)
    requires i <= |s| && ScanFrom(s, i).Ok?
    ensures ScanFrom(s + more, i) == ScanFrom(s, i)
    decreases |s| - i
  {
    if At(s, CRLF2, i) {
      assert (s + more)[i..i + 4] == s[i..i + 4];
    } else {
      assert At(s + more, CRLF2, i) ==> s[i] == CR by {
        if At(s + more, CRLF2, i) { AtStart(s + more, i); }
      }
      if At(s + more, CRLF2, i) {
        FoundLater(s, i, more);
      }
      ScanStable(s, i + 1, more);
    }
  }

  // A terminator found further on leaves room for four bytes here.
  lemma {:induction false} FoundLater(s: seq<byte>, i: nat, more: seq<byte>)
    requires i <= |s| && ScanFrom(s, i).Ok? && At(s + more, CRLF2, i)
    ensures At(s, CRLF2, i)
  {
    var k := ScanFrom(s, i).value;
    assert (s + more)[i..i + 4] == s[i..i + 4];
  }

  // What is left of the answer when the input is cut inside the head or its terminator.
  function CutAnswer(s: seq<byte>): ParseError {
    if s != [] && s[|s| - 1] == CR then BareCarriageReturn else Incomplete
  }

  lemma {:induction false} ScanPrefix(s: seq<byte>, i: nat, n: nat)
    requires i <= n && i <= |s| && ScanFrom(s, i).Ok? && n < ScanFrom(s, i).value + 4
    requires i > 0 && s[i - 1] == CR ==> i < n
    ensures ScanFrom(s[..n], i) == Err(CutAnswer(s[..n]))
    decreases n - i
  {
    var k := ScanFrom(s, i).value;
    var t := s[..n];
    if i < n {
      assert t[i] == s[i];
      assert i + 4 <= n ==> t[i..i + 4] == s[i..i + 4];
      if i == k {
        ScanTerminatorPrefix(s, i, n);
      } else if !(s[i] == CR && i + 1 == n) {
        ScanPrefix(s, i + 1, n);
      }
    }
  }

  lemma {:induction false} ScanTerminatorPrefix(s: seq<byte>, i: nat, n: nat)
    requires At(s, CRLF2, i) && i <= n < i + 4
    requires i < n
    ensures ScanFrom(s[..n], i) == Err(CutAnswer(s[..n]))
  {
    AtStart(s, i);
    var t := s[..n];
    if n == i + 2 {
      assert ScanFrom(t, i + 2) == Err(Incomplete);
    } else if n == i + 3 {
      assert ScanFrom(t, i + 2) == Err(BareCarriageReturn);
    }
  }

  lemma {:induction false} HeadStable(bytes: seq<byte>, more: seq<byte>)
    requires Head(bytes).Ok?
    ensures Head(bytes + more) == Ok((Head(bytes).value.0, Head(bytes).value.1 + more))
  {
    var s := Unled(bytes);
    var k := ScanFrom(s, 0).value;
    assert Unled(bytes + more) == s + more by {
      assert (bytes + more)[0..4] == bytes[0..4];
    }
    ScanStable(s, 0, more);
    assert (s + more)[..k] == s[..k] && (s + more)[k + 4..] == s[k + 4..] + more;
  }

  // A cut before the end of the terminator: waiting, except just after a CR.
  lemma {:induction false} HeadPrefix(bytes: seq<byte>, n: nat)
    requires Head(bytes).Ok? && n < |bytes| - |Head(bytes).value.1|
    ensures Head(bytes[..n]) == Err(CutAnswer(bytes[..n]))
  {
    var s := Unled(bytes);
    var t := bytes[..n];
    if At(bytes, CRLF2, 0) {
      AtStart(bytes, 0);
      if n < 4 {
        ScanTerminatorPrefixFromStart(bytes, n);
      } else {
        assert t[0..4] == bytes[0..4];
        assert Unled(t) == s[..n - 4];
        ScanPrefix(s, 0, n - 4);
        assert n > 4 ==> t[n - 1] == s[..n - 4][n - 5];
      }
    } else {
      assert n >= 4 ==> t[0..4] == bytes[0..4];
      ScanPrefix(s, 0, n);
    }
  }

  lemma {:induction false} ScanTerminatorPrefixFromStart(bytes: seq<byte>, n: nat)
    requires At(bytes, CRLF2, 0) && n < 4
    ensures Head(bytes[..n]) == Err(CutAnswer(bytes[..n]))
  {
    if n > 0 {
      ScanTerminatorPrefix(bytes, 0, n);
    }
  }

  // ---------------------------------------------------------------- the fields and body

  lemma {:induction false} ReadFieldStable(line: seq<byte>, p: Reading, more: seq<byte>)
    requires ReadField(line, p).Ok?
    ensures var q := ReadField(line, p).value;
            && ReadField(line, p.(rest := p.rest + more)) == Ok(q.(rest := q.rest + more))
            && |q.rest| <= |p.rest|
  {
    var (key, value) := ParseField(line).value;
    if key == CONTENT_LENGTH {
      CutAppends(p.rest, more, ParseUsize(value).value);
    }
  }

  lemma {:induction false} CutAppends(s: seq<byte>, more: seq<byte>, n: nat)
    requires n <= |s|
    ensures (s + more)[..n] == s[..n] && (s + more)[n..] == s[n..] + more
  {
  }

  lemma {:induction false} ReadFieldsStable(lines: seq<seq<byte>>, p: Reading, more: seq<byte>)
    requires ReadFields(lines, p).Ok?
    ensures var q := ReadFields(lines, p).value;
            && ReadFields(lines, p.(rest := p.rest + more)) == Ok(q.(rest := q.rest + more))
            && |q.rest| <= |p.rest|
    decreases |lines|
  {
    if lines != [] {
      ReadFieldStable(lines[0], p, more);
      ReadFieldsStable(lines[1..], ReadField(lines[0], p).value, more);
    }
  }

  // The rest of q is the end of the rest of p.
  predicate Leaves(p: Reading, q: Reading) {
    |q.rest| <= |p.rest| && q.rest == p.rest[|p.rest| - |q.rest|..]
  }

  lemma {:induction false} LeavesTogether(p: Reading, m: Reading, q: Reading)
    requires Leaves(p, m) && Leaves(m, q)
    ensures Leaves(p, q)
  {
  }

  // Reading lines one by one, whatever reads one.
  type LineReader = (seq<byte>, Reading) -> Result<Reading, ParseError>

  function Fold(read: LineReader, lines: seq<seq<byte>>, p: Reading): Result<Reading, ParseError> {
    if lines == [] then Ok(p)
    else
      var q :- read(lines[0], p);
      Fold(read, lines[1..], q)
  }

  lemma {:induction false} ReadFieldsFolds(lines: seq<seq<byte>>, p: Reading)
    ensures ReadFields(lines, p) == Fold(ReadField, lines, p)
    decreases |lines|
  {
    if lines != [] && ReadField(lines[0], p).Ok? {
      ReadFieldsFolds(lines[1..], ReadField(lines[0], p).value);
    }
  }

  // The reader q after all but the first n bytes behind p are cut off: waiting if q took more.
  function CutShort(p: Reading, q: Reading, n: nat): Result<Reading, ParseError>
    requires Leaves(p, q) && n <= |p.rest|
  {
    var k := |p.rest| - |q.rest|;
    if n < k then Err(Incomplete) else Ok(q.(rest := q.rest[..n - k]))
  }

  // One line, when only n of the bytes behind the head have come.
  lemma {:induction false} ReadFieldCut(line: seq<byte>, p: Reading, n: nat, m: Reading)
    requires ReadField(line, p) == Ok(m) && n <= |p.rest|
    ensures Leaves(p, m) && ReadField(line, p.(rest := p.rest[..n])) == CutShort(p, m, n)
  {
    var (key, value) := ParseField(line).value;
    if key == CONTENT_LENGTH && ParseUsize(value).value <= n {
      CutTwice(p.rest, n, ParseUsize(value).value);
    }
  }

  lemma {:induction false} CutTwice(s: seq<byte>, n: nat, k: nat)
    requires k <= n <= |s|
    ensures s[..n][..k] == s[..k] && s[..n][k..] == s[k..][..n - k]
  {
  }

  // A reader of lines takes its bytes from the front, and waits if they have not come.
  predicate CutsAt(read: LineReader, line: seq<byte>, p: Reading, n: nat) {
    read(line, p).Ok? && n <= |p.rest| ==>
      Leaves(p, read(line, p).value) && read(line, p.(rest := p.rest[..n])) == CutShort(p, read(line, p).value, n)
  }

  ghost predicate CutsWell(read: LineReader) {
    forall line, p, n: nat :: CutsAt(read, line, p, n)
  }

  lemma {:induction false} ReadFieldCutsWell()
    ensures CutsWell(ReadField)
  {
    forall line, p, n: nat ensures CutsAt(ReadField, line, p, n) {
      if ReadField(line, p).Ok? && n <= |p.rest| {
        ReadFieldCut(line, p, n, ReadField(line, p).value);
      }
    }
  }

  lemma {:induction false} CutsCompose(p: Reading, m: Reading, q: Reading, n: nat)
    requires Leaves(p, m) && Leaves(m, q) && n <= |p.rest|
    ensures Leaves(p, q)
    ensures var k := |p.rest| - |m.rest|;
            CutShort(p, q, n) == if n < k then Err(Incomplete) else CutShort(m, q, n - k)
  {
    LeavesTogether(p, m, q);
  }

  lemma {:induction false} FoldCut(read: LineReader, lines: seq<seq<byte>>, p: Reading, n: nat, q: Reading)
    requires CutsWell(read) && Fold(read, lines, p) == Ok(q) && n <= |p.rest|
    ensures Leaves(p, q) && Fold(read, lines, p.(rest := p.rest[..n])) == CutShort(p, q, n)
    decreases |lines|
  {
    if lines != [] {
      var m := read(lines[0], p).value;
      assert CutsAt(read, lines[0], p, n);
      var k := |p.rest| - |m.rest|;
      FoldCut(read, lines[1..], m, if n < k then 0 else n - k, q);
      CutsCompose(p, m, q, n);
    }
  }

  // All lines: the same answer as soon as the whole body has come, and waiting before.
  lemma {:induction false} ReadFieldsCut(lines: seq<seq<byte>>, p: Reading, n: nat, q: Reading)
    requires ReadFields(lines, p) == Ok(q) && n <= |p.rest|
    ensures Leaves(p, q) && ReadFields(lines, p.(rest := p.rest[..n])) == CutShort(p, q, n)
  {
    ReadFieldCutsWell();
    ReadFieldsFolds(lines, p);
    ReadFieldsFolds(lines, p.(rest := p.rest[..n]));
    FoldCut(ReadField, lines, p, n, q);
  }

  lemma {:induction false} ReadFieldsLeave(lines: seq<seq<byte>>, p: Reading, q: Reading)
    requires ReadFields(lines, p) == Ok(q)
    ensures Leaves(p, q)
  {
    ReadFieldsCut(lines, p, 0, q);
  }

  // ---------------------------------------------------------------- the whole request

  // An accepted request is not changed by what follows it.
  lemma {:induction false} DeserializeStable(buf: seq<byte>, more: seq<byte>)
    requires Deserialize(buf).Ok?
    ensures Deserialize(buf + more) == Ok((Deserialize(buf).value.0, Deserialize(buf).value.1 + more))
  {
    var (head, rest) := Head(buf).value;
    HeadStable(buf, more);
    ReadFieldsStable(Split(head, CRLF)[1..], Reading(map[], [], rest), more);
  }

  // Every proper prefix of an accepted request waits, except one cut just after a CR of the
  // head or its terminator, which is refused.
  lemma {:induction false} DeserializePrefix(buf: seq<byte>, n: nat)
    requires Deserialize(buf).Ok? && n < |buf| - |Deserialize(buf).value.1|
    ensures var headLen := |buf| - |Head(buf).value.1|;
            Deserialize(buf[..n]) == Err(if n < headLen then CutAnswer(buf[..n]) else Incomplete)
  {
    var (head, rest) := Head(buf).value;
    var headLen := |buf| - |rest|;
    if n < headLen {
      HeadPrefix(buf, n);
    } else {
      HeadOfPrefix(buf, n);
      var p := Reading(map[], [], rest);
      var lines := Split(head, CRLF)[1..];
      ReadFieldsCut(lines, p, n - headLen, ReadFields(lines, p).value);
    }
  }

  // The Parser wrapper consumes nothing while the request is incomplete.
  lemma {:induction false} ParseHttpPrefix(buf: seq<byte>, n: nat)
    requires Deserialize(buf).Ok? && n < |buf| - |Deserialize(buf).value.1|
    ensures var bare := n < |buf| - |Head(buf).value.1| && n > 0 && buf[n - 1] == CR;
            ParseHttp(buf[..n]) == if bare then Err(BareCarriageReturn) else Ok((None, buf[..n]))
  {
    DeserializePrefix(buf, n);
    WrapsError(buf[..n]);
  }

  lemma {:induction false} WrapsError(buf: seq<byte>)
    ensures Deserialize(buf).Err? ==>
              ParseHttp(buf) == if Deserialize(buf).error.Incomplete? then Ok((None, buf)) else Err(Deserialize(buf).error)
  {
  }

  lemma {:induction false} ScanOfPrefix(s: seq<byte>, i: nat, n: nat)
    requires i <= n <= |s| && ScanFrom(s, i).Ok? && n >= ScanFrom(s, i).value + 4
    ensures ScanFrom(s[..n], i) == ScanFrom(s, i)
    decreases |s| - i
  {
    assert s[..n][i] == s[i];
    assert i + 4 <= n ==> s[..n][i..i + 4] == s[i..i + 4];
    if !At(s, CRLF2, i) {
      ScanOfPrefix(s, i + 1, n);
    }
  }

  // A cut after the terminator leaves the same head.
  lemma {:induction false} HeadOfPrefix(buf: seq<byte>, n: nat)
    requires Head(buf).Ok? && |buf| - |Head(buf).value.1| <= n <= |buf|
    ensures var (head, rest) := Head(buf).value;
            Head(buf[..n]) == Ok((head, rest[..n - (|buf| - |rest|)]))
  {
    var s := Unled(buf);
    var k := ScanFrom(s, 0).value;
    var m := n - (|buf| - |s|);
    assert buf[..n][0..4] == buf[0..4];
    assert Unled(buf[..n]) == s[..m];
    ScanOfPrefix(s, 0, m);
    assert s[..m][..k] == s[..k] && s[..m][k + 4..] == s[k + 4..][..m - k - 4];
  }

  lemma {:induction false} HeadLeavesSuffix(buf: seq<byte>)
    requires Head(buf).Ok?
    ensures var rest := Head(buf).value.1; |rest| <= |buf| && rest == buf[|buf| - |rest|..]
  {
  }

  lemma {:induction false} UnderstoodLeaves(head: seq<byte>, after: seq<byte>)
    requires Understood(head, after).Ok?
    ensures var rest := Understood(head, after).value.1;
            |rest| <= |after| && rest == after[|after| - |rest|..]
  {
    var p := Reading(map[], [], after);
    var lines := Split(head, CRLF)[1..];
    ReadFieldsLeave(lines, p, ReadFields(lines, p).value);
  }

  lemma {:induction false} SuffixTwice(s: seq<byte>, t: seq<byte>, u: seq<byte>)
    requires |u| <= |t| <= |s| && t == s[|s| - |t|..] && u == t[|t| - |u|..]
    ensures u == s[|s| - |u|..] && s == s[..|s| - |u|] + u
  {
  }

  lemma {:induction false} DeserializeParts(buf: seq<byte>)
    requires Deserialize(buf).Ok?
    ensures Head(buf).Ok? && Deserialize(buf) == Understood(Head(buf).value.0, Head(buf).value.1)
  {
  }

  lemma {:induction false} DeserializeLeavesSuffix(buf: seq<byte>)
    requires Deserialize(buf).Ok?
    ensures Head(buf).Ok?
    ensures var rest := Deserialize(buf).value.1;
            && |rest| <= |Head(buf).value.1| <= |buf| && rest == buf[|buf| - |rest|..]
            && buf == buf[..|buf| - |rest|] + rest
  {
    DeserializeParts(buf);
    HeadLeavesSuffix(buf);
    PartsLeave(buf, Head(buf).value.0, Head(buf).value.1);
  }

  lemma {:induction false} PartsLeave(buf: seq<byte>, head: seq<byte>, after: seq<byte>)
    requires |after| <= |buf| && after == buf[|buf| - |after|..] && Understood(head, after).Ok?
    ensures var rest := Understood(head, after).value.1;
            |rest| <= |after| && rest == buf[|buf| - |rest|..] && buf == buf[..|buf| - |rest|] + rest
  {
    UnderstoodLeaves(head, after);
    SuffixTwice(buf, after, Understood(head, after).value.1);
  }

  // What is consumed by an accepted request is by itself that request.
  lemma {:induction false} DeserializeShrinks(buf: seq<byte>)
    requires Deserialize(buf).Ok?
    ensures var (request, rest) := Deserialize(buf).value;
            && |rest| <= |buf| && buf == buf[..|buf| - |rest|] + rest
            && Deserialize(buf[..|buf| - |rest|]) == Ok((request, []))
  {
    DeserializeLeavesSuffix(buf);
    var (head, after) := Head(buf).value;
    var rest := Deserialize(buf).value.1;
    var p, lines := Reading(map[], [], after), Split(head, CRLF)[1..];
    HeadOfPrefix(buf, |buf| - |rest|);
    ReadFieldsCut(lines, p, |after| - |rest|, ReadFields(lines, p).value);
  }
}
