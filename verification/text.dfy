// The string operations of the standard library that the parsers lean on, over bytes.
module Text {
  import opened Bytes

  const CR: byte := 13
  const LF: byte := 10
  const SP: byte := 32
  const CRLF: seq<byte> := [13, 10]
  const CRLF2: seq<byte> := [13, 10, 13, 10]

  // A literal, as its ASCII bytes.
  function Lit(s: string): (r: seq<byte>)
    ensures |r| == |s|
  {
    seq(|s|, i requires 0 <= i < |s| => (s[i] as int % 128) as byte)
  }

  predicate Lacks(s: seq<byte>, b: byte) {
    forall i | 0 <= i < |s| :: s[i] != b
  }

  predicate Ascii(s: seq<byte>) {
    forall i | 0 <= i < |s| :: s[i] < 128
  }

  // ---------------------------------------------------------------- searching, splitting

  predicate At(s: seq<byte>, pat: seq<byte>, i: nat) {
    i + |pat| <= |s| && s[i..i + |pat|] == pat
  }

  // The first place where pat occurs.
  function Find(s: seq<byte>, pat: seq<byte>): (r: Option<nat>)
    requires pat != []
    ensures r.Some? ==> At(s, pat, r.value)
  {
    if At(s, pat, 0) then Some(0)
    else if s == [] then None
    else
      match Find(s[1..], pat)
      case Some(i) => assert s[1..][i..i + |pat|] == s[i + 1..i + 1 + |pat|]; Some(i + 1)
      case None => None
  }

  lemma {:induction false} FindIsFirst(s: seq<byte>, pat: seq<byte>, i: nat)
    requires pat != [] && At(s, pat, i)
    ensures Find(s, pat).Some? && Find(s, pat).value <= i
    decreases |s|
  {
    if !At(s, pat, 0) {
      assert s[1..][i - 1..i - 1 + |pat|] == s[i..i + |pat|];
      FindIsFirst(s[1..], pat, i - 1);
    }
  }

  lemma {:induction false} FindExact(s: seq<byte>, pat: seq<byte>, i: nat)
    requires pat != []
    ensures Find(s, pat) == Some(i) <==> At(s, pat, i) && forall j | 0 <= j < i :: !At(s, pat, j)
  {
    if Find(s, pat) == Some(i) {
      forall j | 0 <= j < i
        ensures !At(s, pat, j)
      {
        if At(s, pat, j) {
          FindIsFirst(s, pat, j);
        }
      }
    }
    if At(s, pat, i) {
      FindIsFirst(s, pat, i);
    }
  }

  function Split(s: seq<byte>, sep: seq<byte>): (parts: seq<seq<byte>>)
    requires sep != []
    ensures parts != []
    decreases |s|
  {
    match Find(s, sep)
    case None => [s]
    case Some(i) => [s[..i]] + Split(s[i + |sep|..], sep)
  }

  function Join(parts: seq<seq<byte>>, sep: seq<byte>): seq<byte>
    requires parts != []
  {
    if |parts| == 1 then parts[0] else parts[0] + sep + Join(parts[1..], sep)
  }

  // A part that lacks the first byte of the separator ends where the separator starts.
  lemma {:induction false} FindAfter(part: seq<byte>, sep: seq<byte>, rest: seq<byte>)
    requires sep != [] && Lacks(part, sep[0])
    ensures Find(part + sep + rest, sep) == Some(|part|)
  {
    var s := part + sep + rest;
    if part == [] {
      assert s[0..|sep|] == sep;
    } else {
      assert s[0..|sep|][0] == part[0];
      FindAfter(part[1..], sep, rest);
      assert s[1..] == part[1..] + sep + rest;
    }
  }

  lemma {:induction false} FindNone(part: seq<byte>, sep: seq<byte>)
    requires sep != [] && Lacks(part, sep[0])
    ensures Find(part, sep) == None
  {
    if part != [] {
      assert |part| >= |sep| ==> part[0..|sep|][0] == part[0];
      FindNone(part[1..], sep);
    }
  }

  predicate AllLack(parts: seq<seq<byte>>, b: byte) {
    forall i | 0 <= i < |parts| :: Lacks(parts[i], b)
  }

  lemma {:induction false} SplitJoin(parts: seq<seq<byte>>, sep: seq<byte>)
    requires parts != [] && sep != [] && AllLack(parts, sep[0])
    ensures Split(Join(parts, sep), sep) == parts
    decreases |parts|
  {
    assert Lacks(parts[0], sep[0]);
    if |parts| == 1 {
      FindNone(parts[0], sep);
    } else {
      var rest := Join(parts[1..], sep);
      FindAfter(parts[0], sep, rest);
      SplitJoin(parts[1..], sep);
      assert (parts[0] + sep + rest)[|parts[0]| + |sep|..] == rest;
      assert (parts[0] + sep + rest)[..|parts[0]|] == parts[0];
    }
  }

  lemma {:induction false} JoinSplit(s: seq<byte>, sep: seq<byte>)
    requires sep != []
    ensures Join(Split(s, sep), sep) == s
    decreases |s|
  {
    match Find(s, sep) {
      case None =>
      case Some(i) =>
        JoinSplit(s[i + |sep|..], sep);
        assert Split(s, sep)[1..] == Split(s[i + |sep|..], sep);
        assert s == s[..i] + s[i..i + |sep|] + s[i + |sep|..];
    }
  }

  lemma {:induction false} SplitFirst(part: seq<byte>, b: byte, rest: seq<byte>)
    requires Lacks(part, b)
    ensures Split(part + [b] + rest, [b]) == [part] + Split(rest, [b])
  {
    FindAfter(part, [b], rest);
    var s := part + [b] + rest;
    assert s[..|part|] == part && s[|part| + 1..] == rest;
  }

  // split_once on a byte.
  function SplitOnce(s: seq<byte>, b: byte): (r: Option<(seq<byte>, seq<byte>)>)
    ensures r.Some? ==> s == r.value.0 + [b] + r.value.1
  {
    match Find(s, [b])
    case None => None
    case Some(i) =>
      assert s == s[..i] + s[i..i + 1] + s[i + 1..];
      Some((s[..i], s[i + 1..]))
  }

  lemma {:induction false} SplitOnceAt(a: seq<byte>, b: byte, c: seq<byte>)
    requires Lacks(a, b)
    ensures SplitOnce(a + [b] + c, b) == Some((a, c))
  {
    FindAfter(a, [b], c);
    assert (a + [b] + c)[..|a|] == a && (a + [b] + c)[|a| + 1..] == c;
  }

  lemma {:induction false} SplitOnceNone(a: seq<byte>, b: byte)
    requires Lacks(a, b)
    ensures SplitOnce(a, b) == None
  {
    FindNone(a, [b]);
  }

  // The cut is at the first such byte, and there is none exactly if the byte is not there.
  lemma {:induction false} SplitOnceExact(s: seq<byte>, b: byte, a: seq<byte>, c: seq<byte>)
    ensures SplitOnce(s, b) == Some((a, c)) <==> s == a + [b] + c && Lacks(a, b)
    ensures SplitOnce(s, b) == None <==> Lacks(s, b)
  {
    if s == a + [b] + c && Lacks(a, b) {
      SplitOnceAt(a, b, c);
    }
    if Lacks(s, b) {
      SplitOnceNone(s, b);
    }
    if !Lacks(s, b) {
      var i :| 0 <= i < |s| && s[i] == b;
      assert s[i..i + 1] == [s[i]];
      FindIsFirst(s, [b], i);
    }
    if SplitOnce(s, b).Some? {
      var i := Find(s, [b]).value;
      forall j | 0 <= j < i ensures s[..i][j] != b {
        FindExact(s, [b], i);
        assert !At(s, [b], j) && s[j..j + 1] == [s[j]];
      }
    }
  }

  lemma {:induction false} SplitByteLacks(s: seq<byte>, b: byte)
    ensures AllLack(Split(s, [b]), b)
    decreases |s|
  {
    match Find(s, [b])
    case None =>
      SplitOnceExact(s, b, [], []);
    case Some(i) =>
      SplitOnceExact(s, b, s[..i], s[i + 1..]);
      SplitByteLacks(s[i + 1..], b);
      assert Split(s, [b])[1..] == Split(s[i + 1..], [b]);
      FirstAndRest(Split(s, [b]), b);
  }

  lemma {:induction false} FirstAndRest(parts: seq<seq<byte>>, b: byte)
    requires parts != [] && Lacks(parts[0], b) && AllLack(parts[1..], b)
    ensures AllLack(parts, b)
  {
    forall i | 0 <= i < |parts| ensures Lacks(parts[i], b) {
      if i > 0 { assert parts[i] == parts[1..][i - 1]; }
    }
  }

  // ---------------------------------------------------------------- case and white space

  function LowerByte(b: byte): byte {
    if 65 <= b <= 90 then b + 32 else b
  }

  function UpperByte(b: byte): byte {
    if 97 <= b <= 122 then b - 32 else b
  }

  function ToLower(s: seq<byte>): (r: seq<byte>)
    ensures |r| == |s|
  {
    seq(|s|, i requires 0 <= i < |s| => LowerByte(s[i]))
  }

  function ToUpper(s: seq<byte>): (r: seq<byte>)
    ensures |r| == |s|
  {
    seq(|s|, i requires 0 <= i < |s| => UpperByte(s[i]))
  }

  // The same byte, or the two cases of one of the 26 ASCII letters: 65 to 90 and 97 to 122.
  predicate SameLetter(a: byte, b: byte) {
    a == b || (65 <= a <= 90 && b == a + 32) || (97 <= a <= 122 && b == a - 32)
  }

  predicate SameLetters(s: seq<byte>, t: seq<byte>) {
    |s| == |t| && forall i | 0 <= i < |s| :: SameLetter(s[i], t[i])
  }

  // Lower case is the one spelling with the same letters and no capital.
  lemma {:induction false} LowerExact(s: seq<byte>, t: seq<byte>)
    ensures t == ToLower(s) <==> SameLetters(s, t) && forall i | 0 <= i < |t| :: !(65 <= t[i] <= 90)
    ensures ToLower(s) == ToLower(t) <==> SameLetters(s, t)
  {
    if SameLetters(s, t) {
      assert forall i | 0 <= i < |s| :: SameLetter(s[i], t[i]);
      assert ToLower(s) == ToLower(t);
    }
    if ToLower(s) == ToLower(t) {
      forall i | 0 <= i < |s| ensures SameLetter(s[i], t[i]) {
        assert ToLower(s)[i] == ToLower(t)[i];
      }
    }
  }

  lemma {:induction false} UpperExact(s: seq<byte>, t: seq<byte>)
    ensures t == ToUpper(s) <==> SameLetters(s, t) && forall i | 0 <= i < |t| :: !(97 <= t[i] <= 122)
    ensures ToUpper(s) == ToUpper(t) <==> SameLetters(s, t)
  {
    if SameLetters(s, t) {
      assert forall i | 0 <= i < |s| :: SameLetter(s[i], t[i]);
      assert ToUpper(s) == ToUpper(t);
    }
    if ToUpper(s) == ToUpper(t) {
      forall i | 0 <= i < |s| ensures SameLetter(s[i], t[i]) {
        assert ToUpper(s)[i] == ToUpper(t)[i];
      }
    }
  }

  // char::is_whitespace on ASCII.
  predicate IsSpace(b: byte) {
    9 <= b <= 13 || b == 32
  }

  predicate StartsWithSpace(s: seq<byte>) {
    s != [] && IsSpace(s[0])
  }

  predicate EndsWithSpace(s: seq<byte>) {
    s != [] && IsSpace(s[|s| - 1])
  }

  function TrimStart(s: seq<byte>): seq<byte> {
    if StartsWithSpace(s) then TrimStart(s[1..]) else s
  }

  function TrimEnd(s: seq<byte>): seq<byte> {
    if EndsWithSpace(s) then TrimEnd(s[..|s| - 1]) else s
  }

  function Trim(s: seq<byte>): seq<byte> {
    TrimEnd(TrimStart(s))
  }

  predicate AllSpace(s: seq<byte>) {
    forall i | 0 <= i < |s| :: IsSpace(s[i])
  }

  predicate Trimmed(s: seq<byte>) {
    !StartsWithSpace(s) && !EndsWithSpace(s)
  }

  lemma {:induction false} TrimStartDrops(lead: seq<byte>, s: seq<byte>)
    requires AllSpace(lead)
    ensures TrimStart(lead + s) == TrimStart(s)
  {
    if lead == [] {
      assert lead + s == s;
    } else {
      assert (lead + s)[1..] == lead[1..] + s;
      TrimStartDrops(lead[1..], s);
    }
  }

  lemma {:induction false} TrimEndDrops(s: seq<byte>, trail: seq<byte>)
    requires AllSpace(trail)
    ensures TrimEnd(s + trail) == TrimEnd(s)
  {
    if trail == [] {
      assert s + trail == s;
    } else {
      assert (s + trail)[..|s + trail| - 1] == s + trail[..|trail| - 1];
      TrimEndDrops(s, trail[..|trail| - 1]);
    }
  }

  // Trimming removes exactly the white space around a trimmed value.
  lemma {:induction false} TrimPadded(lead: seq<byte>, value: seq<byte>, trail: seq<byte>)
    requires AllSpace(lead) && AllSpace(trail) && Trimmed(value)
    ensures Trim(lead + value + trail) == value
  {
    assert lead + value + trail == lead + (value + trail);
    TrimStartDrops(lead, value + trail);
    if value == [] {
      assert value + trail == trail + [];
      TrimStartDrops(trail, []);
    } else {
      assert TrimStart(value + trail) == value + trail;
      TrimEndDrops(value, trail);
    }
  }

  // Tab, line feed, vertical tab, form feed, carriage return and space.
  predicate Blank(s: seq<byte>) {
    forall i | 0 <= i < |s| :: s[i] in {9, 10, 11, 12, 13, 32}
  }

  // No blank at either end.
  predicate Bare(s: seq<byte>) {
    s != [] ==> !Blank([s[0]]) && !Blank([s[|s| - 1]])
  }

  lemma {:induction false} BlankIsSpace(s: seq<byte>)
    ensures Blank(s) <==> AllSpace(s)
    ensures Bare(s) <==> Trimmed(s)
  {
    if s != [] {
      assert Blank([s[0]]) <==> [s[0]][0] in {9, 10, 11, 12, 13, 32};
      assert Blank([s[|s| - 1]]) <==> [s[|s| - 1]][0] in {9, 10, 11, 12, 13, 32};
    }
  }

  lemma {:induction false} TrimStartCuts(s: seq<byte>) returns (lead: seq<byte>)
    ensures s == lead + TrimStart(s) && AllSpace(lead) && !StartsWithSpace(TrimStart(s))
    decreases |s|
  {
    if StartsWithSpace(s) {
      var more := TrimStartCuts(s[1..]);
      lead := [s[0]] + more;
    } else {
      lead := [];
    }
  }

  lemma {:induction false} TrimEndCuts(s: seq<byte>) returns (trail: seq<byte>)
    ensures s == TrimEnd(s) + trail && AllSpace(trail) && !EndsWithSpace(TrimEnd(s))
    decreases |s|
  {
    if EndsWithSpace(s) {
      var more := TrimEndCuts(s[..|s| - 1]);
      trail := more + [s[|s| - 1]];
    } else {
      trail := [];
    }
  }

  // The value and the padding around it.
  predicate Padded(s: seq<byte>, lead: seq<byte>, t: seq<byte>, trail: seq<byte>) {
    s == lead + t + trail && Blank(lead) && Blank(trail) && Bare(t)
  }

  // Trimming gives the part between the blanks at the two ends, and nothing else.
  lemma {:induction false} TrimExact(s: seq<byte>, t: seq<byte>)
    ensures t == Trim(s) <==> exists lead, trail :: Padded(s, lead, t, trail)
  {
    if t == Trim(s) {
      var lead := TrimStartCuts(s);
      var trail := TrimEndCuts(TrimStart(s));
      assert t != [] ==> t[0] == TrimStart(s)[0];
      BlankIsSpace(lead);
      BlankIsSpace(trail);
      BlankIsSpace(t);
      assert Padded(s, lead, t, trail);
    }
    if lead, trail :| Padded(s, lead, t, trail) {
      BlankIsSpace(lead);
      BlankIsSpace(trail);
      BlankIsSpace(t);
      TrimPadded(lead, t, trail);
    }
  }

  // ---------------------------------------------------------------- decimal numbers

  predicate IsDigit(b: byte) {
    48 <= b <= 57
  }

  predicate AllDigits(s: seq<byte>) {
    forall i | 0 <= i < |s| :: IsDigit(s[i])
  }

  function DigitsValue(s: seq<byte>): nat
    requires AllDigits(s)
  {
    if s == [] then 0
    else DigitsValue(s[..|s| - 1]) * 10 + (s[|s| - 1] - 48) as nat
  }

  // str::parse::<usize>: an optional plus sign, at least one digit, no overflow.
  function ParseUsize(s: seq<byte>): Option<nat> {
    var digits := if |s| > 1 && s[0] == 43 then s[1..] else s;
    if digits != [] && AllDigits(digits) && DigitsValue(digits) < USIZE_LIMIT
    then Some(DigitsValue(digits)) else None
  }

  // format!("{}", n).
  function Decimal(n: nat): (s: seq<byte>)
    ensures s != [] && AllDigits(s)
  {
    if n < 10 then [48 + n as byte] else Decimal(n / 10) + [48 + (n % 10) as byte]
  }

  lemma {:induction false} DecimalValue(n: nat)
    ensures DigitsValue(Decimal(n)) == n
  {
    if n < 10 {
      assert DigitsValue([]) == 0;
      assert Decimal(n)[..0] == [];
    } else {
      DecimalValue(n / 10);
      assert Decimal(n)[..|Decimal(n)| - 1] == Decimal(n / 10);
    }
  }

  function Pow10(k: nat): nat {
    if k == 0 then 1 else 10 * Pow10(k - 1)
  }

  // The first digits count most: in front of k digits a number is worth 10^k times itself.
  lemma {:induction false} DigitsAppend(a: seq<byte>, b: seq<byte>)
    requires AllDigits(a) && AllDigits(b)
    ensures AllDigits(a + b) && DigitsValue(a + b) == DigitsValue(a) * Pow10(|b|) + DigitsValue(b)
    decreases |b|
  {
    if b == [] {
      assert a + b == a;
    } else {
      var n := |b| - 1;
      assert (a + b)[..|a + b| - 1] == a + b[..n];
      DigitsAppend(a, b[..n]);
      TenTimes(DigitsValue(a), Pow10(n), DigitsValue(b[..n]));
    }
  }

  lemma {:induction false} TenTimes(x: nat, p: nat, y: nat)
    ensures (x * p + y) * 10 == x * (10 * p) + y * 10
  {
  }

  // A digit is worth its distance from 48.
  lemma {:induction false} DigitValue(d: byte)
    requires IsDigit(d)
    ensures DigitsValue([d]) == (d - 48) as nat
  {
    assert [d][..0] == [] && DigitsValue([]) == 0;
  }

  // The accepted numbers: digits, at least one, after at most one plus sign, below 2^64.
  lemma {:induction false} ParseUsizeExact(s: seq<byte>, n: nat)
    ensures ParseUsize(s) == Some(n)
       <==> exists d :: (s == d || s == [43] + d) && d != [] && AllDigits(d) && DigitsValue(d) == n < 0x1_0000_0000_0000_0000
  {
    if ParseUsize(s) == Some(n) {
      var d := if |s| > 1 && s[0] == 43 then s[1..] else s;
      assert s == d || s == [43] + d;
    }
    if d :| (s == d || s == [43] + d) && d != [] && AllDigits(d) && DigitsValue(d) == n < 0x1_0000_0000_0000_0000 {
      assert s == [43] + d ==> s[1..] == d;
    }
  }

  lemma {:induction false} DecimalParses(n: nat)
    requires n < USIZE_LIMIT
    ensures ParseUsize(Decimal(n)) == Some(n)
    ensures Trimmed(Decimal(n)) && Lacks(Decimal(n), CR) && Ascii(Decimal(n))
  {
    DecimalValue(n);
  }
}
