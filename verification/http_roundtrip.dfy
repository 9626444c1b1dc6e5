// A printer of well-formed requests (sections 3, 5 and 6.2 of RFC 9112), and the parser
// reading back what it prints.
module HttpRoundTrip {
  import opened Bytes
  import opened Text
  import opened HttpRequests

  // A field line as it may be written: any letter case, any padding around the value.
  datatype Field = Field(name: seq<byte>, lead: seq<byte>, value: seq<byte>, trail: seq<byte>)

  datatype Param = Param(key: seq<byte>, value: seq<byte>)

  // What a client wants to say. A request without query has no '?' in its target.
  datatype Wish = Wish(
    verb: Method, path: seq<byte>, query: Option<seq<Param>>, version: Version,
    fields: seq<Field>, body: seq<byte>)

  predicate Plain(s: seq<byte>) {
    Ascii(s) && Lacks(s, CR)
  }

  predicate WellFormedField(f: Field) {
    && Plain(f.name) && Lacks(f.name, 58) && Trimmed(f.name)
    && Plain(f.lead) && AllSpace(f.lead) && Plain(f.trail) && AllSpace(f.trail)
    && Plain(f.value) && Trimmed(f.value)
  }

  predicate WellFormedParam(p: Param) {
    && Plain(p.key) && Lacks(p.key, SP) && Lacks(p.key, 38) && Lacks(p.key, 61)
    && Plain(p.value) && Lacks(p.value, SP) && Lacks(p.value, 38)
  }

  function Name(f: Field): seq<byte> {
    ToLower(f.name)
  }

  // At most one content-length, saying how long the body is; without one, no body.
  predicate Framed(fields: seq<Field>, body: seq<byte>) {
    if fields == [] then body == []
    else if Name(fields[0]) == CONTENT_LENGTH then
      ParseUsize(fields[0].value) == Some(|body|) && Framed(fields[1..], [])
      && forall i | 1 <= i < |fields| :: Name(fields[i]) != CONTENT_LENGTH
    else Framed(fields[1..], body)
  }

  predicate WellFormed(r: Wish) {
    && r.verb != OTHER
    && Plain(r.path) && Lacks(r.path, SP) && Lacks(r.path, 63)
    && (r.query.Some? ==> r.query.value != [] && forall i | 0 <= i < |r.query.value| :: WellFormedParam(r.query.value[i]))
    && (forall i | 0 <= i < |r.fields| :: WellFormedField(r.fields[i]))
    && Framed(r.fields, r.body)
  }

  // ---------------------------------------------------------------- printing

  function PrintMethod(m: Method): seq<byte> {
    if m == GET then Lit("GET") else Lit("POST")
  }

  function PrintParam(p: Param): seq<byte> {
    p.key + [61] + p.value
  }

  function PrintParams(ps: seq<Param>): (r: seq<seq<byte>>)
    ensures |r| == |ps|
  {
    seq(|ps|, i requires 0 <= i < |ps| => PrintParam(ps[i]))
  }

  function PrintTarget(r: Wish): seq<byte>
    requires r.query.Some? ==> r.query.value != []
  {
    if r.query.None? then r.path else r.path + [63] + Join(PrintParams(r.query.value), [38])
  }

  function PrintRequestLine(r: Wish): seq<byte>
    requires r.query.Some? ==> r.query.value != []
  {
    Join([PrintMethod(r.verb), PrintTarget(r), VersionText(r.version)], [SP])
  }

  function PrintField(f: Field): seq<byte> {
    f.name + [58] + (f.lead + f.value + f.trail)
  }

  function PrintFields(fs: seq<Field>): (r: seq<seq<byte>>)
    ensures |r| == |fs|
  {
    seq(|fs|, i requires 0 <= i < |fs| => PrintField(fs[i]))
  }

  function PrintHead(r: Wish): seq<byte>
    requires r.query.Some? ==> r.query.value != []
  {
    Join([PrintRequestLine(r)] + PrintFields(r.fields), CRLF)
  }

  function Print(r: Wish): seq<byte>
    requires WellFormed(r)
  {
    PrintHead(r) + CRLF2 + r.body
  }

  // ---------------------------------------------------------------- what should come back

  function ParamMap(ps: seq<Param>, m: Fields): Fields {
    if ps == [] then m else ParamMap(ps[1..], m[ps[0].key := ps[0].value])
  }

  function FieldMap(fs: seq<Field>, m: Fields): Fields {
    if fs == [] then m else FieldMap(fs[1..], m[Name(fs[0]) := fs[0].value])
  }

  function Meaning(r: Wish): Request {
    Request(r.verb, r.path, r.version, FieldMap(r.fields, map[]),
            if r.query.Some? then ParamMap(r.query.value, map[]) else map[], r.body)
  }

  predicate Named(fs: seq<Field>, k: seq<byte>) {
    exists i :: 0 <= i < |fs| && Name(fs[i]) == k
  }

  // A name is in the map exactly if some field or the map before has it.
  lemma {:induction false} FieldMapNames(fs: seq<Field>, m: Fields, k: seq<byte>)
    ensures k in FieldMap(fs, m) <==> k in m || Named(fs, k)
    ensures !Named(fs, k) && k in m ==> FieldMap(fs, m)[k] == m[k]
    decreases |fs|
  {
    if fs != [] {
      FieldMapNames(fs[1..], m[Name(fs[0]) := fs[0].value], k);
      assert Named(fs, k) <==> Name(fs[0]) == k || Named(fs[1..], k) by {
        if i :| 0 <= i < |fs[1..]| && Name(fs[1..][i]) == k {
          assert Name(fs[i + 1]) == k;
        }
        if i :| 1 <= i < |fs| && Name(fs[i]) == k {
          assert Name(fs[1..][i - 1]) == k;
        }
      }
    }
  }

  // The value of the last field with a name wins; with distinct names each keeps its own.
  lemma {:induction false} FieldMapValues(fs: seq<Field>, m: Fields, i: nat)
    requires i < |fs| && forall j | i < j < |fs| :: Name(fs[j]) != Name(fs[i])
    ensures Name(fs[i]) in FieldMap(fs, m) && FieldMap(fs, m)[Name(fs[i])] == fs[i].value
    decreases |fs|
  {
    var m' := m[Name(fs[0]) := fs[0].value];
    if i == 0 {
      FieldMapNames(fs[1..], m', Name(fs[0]));
    } else {
      FieldMapValues(fs[1..], m', i - 1);
    }
  }

  predicate Keyed(ps: seq<Param>, k: seq<byte>) {
    exists i :: 0 <= i < |ps| && ps[i].key == k
  }

  lemma {:induction false} ParamMapNames(ps: seq<Param>, m: Fields, k: seq<byte>)
    ensures k in ParamMap(ps, m) <==> k in m || Keyed(ps, k)
    ensures !Keyed(ps, k) && k in m ==> ParamMap(ps, m)[k] == m[k]
    decreases |ps|
  {
    if ps != [] {
      ParamMapNames(ps[1..], m[ps[0].key := ps[0].value], k);
      assert Keyed(ps, k) <==> ps[0].key == k || Keyed(ps[1..], k) by {
        if i :| 0 <= i < |ps[1..]| && ps[1..][i].key == k {
          assert ps[i + 1].key == k;
        }
        if i :| 1 <= i < |ps| && ps[i].key == k {
          assert ps[1..][i - 1].key == k;
        }
      }
    }
  }

  // The value of the last parameter with a key wins; with distinct keys each keeps its own.
  lemma {:induction false} ParamMapValues(ps: seq<Param>, m: Fields, i: nat)
    requires i < |ps| && forall j | i < j < |ps| :: ps[j].key != ps[i].key
    ensures ps[i].key in ParamMap(ps, m) && ParamMap(ps, m)[ps[i].key] == ps[i].value
    decreases |ps|
  {
    var m' := m[ps[0].key := ps[0].value];
    if i == 0 {
      ParamMapNames(ps[1..], m', ps[0].key);
    } else {
      ParamMapValues(ps[1..], m', i - 1);
    }
  }

  // ---------------------------------------------------------------- reading it back

  lemma {:induction false} MethodsRead(m: Method)
    requires m != OTHER
    ensures ParseMethod(PrintMethod(m)) == Some(m)
    ensures Plain(PrintMethod(m)) && Lacks(PrintMethod(m), SP)
  {
    assert Lit("GET") != Lit("POST") by {
      assert |Lit("GET")| != |Lit("POST")|;
    }
  }

  lemma {:induction false} VersionsRead(v: Version)
    ensures ParseVersion(VersionText(v)) == Some(v)
    ensures Plain(VersionText(v)) && Lacks(VersionText(v), SP) && !EndsWithSpace(VersionText(v))
  {
    assert ToUpper(VersionText(v)) == VersionText(v);
    assert |Lit("HTTP/1")| == 6 && |Lit("HTTP/1.1")| == 8 && |Lit("HTTP/2")| == 6 && |Lit("HTTP/3")| == 6;
    assert Lit("HTTP/1")[5] == 49 && Lit("HTTP/2")[5] == 50 && Lit("HTTP/3")[5] == 51;
  }

  lemma {:induction false} ParamsRead(ps: seq<Param>, m: Fields)
    requires forall i | 0 <= i < |ps| :: WellFormedParam(ps[i])
    ensures QueryFrom(PrintParams(ps), m) == Ok(ParamMap(ps, m))
    decreases |ps|
  {
    if ps != [] {
      assert WellFormedParam(ps[0]);
      SplitOnceAt(ps[0].key, 61, ps[0].value);
      assert PrintParams(ps)[1..] == PrintParams(ps[1..]);
      ParamsRead(ps[1..], m[ps[0].key := ps[0].value]);
    }
  }

  lemma {:induction false} JoinLacks(parts: seq<seq<byte>>, sep: byte, b: byte)
    requires parts != [] && AllLack(parts, b) && sep != b
    ensures Lacks(Join(parts, [sep]), b)
    decreases |parts|
  {
    assert Lacks(parts[0], b);
    if |parts| > 1 {
      JoinLacks(parts[1..], sep, b);
    }
  }

  lemma {:induction false} JoinAscii(parts: seq<seq<byte>>, sep: seq<byte>)
    requires parts != [] && Ascii(sep) && forall i | 0 <= i < |parts| :: Ascii(parts[i])
    ensures Ascii(Join(parts, sep))
    decreases |parts|
  {
    if |parts| > 1 {
      JoinAscii(parts[1..], sep);
    }
  }

  lemma {:induction false} QueryReads(ps: seq<Param>)
    requires ps != [] && forall i | 0 <= i < |ps| :: WellFormedParam(ps[i])
    ensures var query := Join(PrintParams(ps), [38]);
            && QueryFrom(Split(query, [38]), map[]) == Ok(ParamMap(ps, map[]))
            && Plain(query) && Lacks(query, SP)
  {
    var printed := PrintParams(ps);
    PrintedParamsPlain(ps);
    SplitJoin(printed, [38]);
    JoinLacks(printed, 38, SP);
    JoinLacks(printed, 38, CR);
    JoinAscii(printed, [38]);
    ParamsRead(ps, map[]);
  }

  lemma {:induction false} PrintedParamsPlain(ps: seq<Param>)
    requires forall i | 0 <= i < |ps| :: WellFormedParam(ps[i])
    ensures var printed := PrintParams(ps);
            && AllLack(printed, CR) && AllLack(printed, SP) && AllLack(printed, 38)
            && forall i | 0 <= i < |printed| :: Ascii(printed[i])
  {
    forall i | 0 <= i < |ps|
      ensures Plain(PrintParam(ps[i])) && Lacks(PrintParam(ps[i]), SP) && Lacks(PrintParam(ps[i]), 38)
    {
      assert WellFormedParam(ps[i]);
    }
  }

  lemma {:induction false} TargetReads(r: Wish)
    requires WellFormed(r)
    ensures ParseTarget(PrintTarget(r)) == Ok((r.path, Meaning(r).queryParams))
    ensures Plain(PrintTarget(r)) && Lacks(PrintTarget(r), SP)
  {
    if r.query.None? {
      SplitOnceNone(r.path, 63);
    } else {
      QueryReads(r.query.value);
      QueriedTargetReads(r.path, Join(PrintParams(r.query.value), [38]));
    }
  }

  lemma {:induction false} QueriedTargetReads(path: seq<byte>, query: seq<byte>)
    requires Plain(path) && Lacks(path, SP) && Lacks(path, 63)
    requires Plain(query) && Lacks(query, SP)
    ensures var target := path + [63] + query;
            && SplitOnce(target, 63) == Some((path, query))
            && Plain(target) && Lacks(target, SP)
  {
    SplitOnceAt(path, 63, query);
  }

  lemma {:induction false} RequestLineReads(r: Wish)
    requires WellFormed(r)
    ensures ParseRequestLine(PrintRequestLine(r)) == Ok(Meaning(r).(headers := map[], body := []))
    ensures Plain(PrintRequestLine(r))
  {
    var parts := [PrintMethod(r.verb), PrintTarget(r), VersionText(r.version)];
    MethodsRead(r.verb);
    TargetReads(r);
    VersionsRead(r.version);
    SplitJoin(parts, [SP]);
    JoinLacks(parts, SP, CR);
    JoinAscii(parts, [SP]);
  }

  lemma {:induction false} FieldReads(f: Field)
    requires WellFormedField(f)
    ensures ParseField(PrintField(f)) == Ok((Name(f), f.value))
    ensures Plain(PrintField(f))
  {
    SplitOnceAt(f.name, 58, f.lead + f.value + f.trail);
    TrimPadded(f.lead, f.value, f.trail);
  }

  // Reading the printed fields with the body and a tail behind them.
  lemma {:induction false} FieldsRead(fs: seq<Field>, m: Fields, before: seq<byte>, body: seq<byte>, tail: seq<byte>)
    requires forall i | 0 <= i < |fs| :: WellFormedField(fs[i])
    requires Framed(fs, body)
    requires before == [] || forall i | 0 <= i < |fs| :: Name(fs[i]) != CONTENT_LENGTH
    ensures ReadFields(PrintFields(fs), Reading(m, before, body + tail))
         == Ok(Reading(FieldMap(fs, m), if before == [] then body else before, tail))
    decreases |fs|
  {
    if fs == [] {
      assert body + tail == tail;
    } else {
      var f := fs[0];
      assert WellFormedField(f);
      FieldReads(f);
      assert PrintFields(fs)[1..] == PrintFields(fs[1..]);
      var m' := m[Name(f) := f.value];
      if Name(f) == CONTENT_LENGTH {
        assert (body + tail)[..|body|] == body && (body + tail)[|body|..] == [] + tail;
        FieldsRead(fs[1..], m', body, [], tail);
      } else {
        FieldsRead(fs[1..], m', before, body, tail);
      }
    }
  }

  // Scanning over a CRLF that starts no terminator.
  lemma {:induction false} PastCrlf(s: seq<byte>, n: nat)
    requires n + 2 < |s| && s[n] == CR && s[n + 1] == LF && s[n + 2] != CR
    ensures ScanFrom(s, n) == ScanFrom(s, n + 2)
  {
    assert n + 4 <= |s| ==> s[n..n + 4][2] == s[n + 2];
  }

  // Scanning past one line and its CRLF, when what follows does not start with CR.
  lemma {:induction false} PastLine(s: seq<byte>, n: nat)
    requires n + 2 < |s| && Plain(s[..n]) && s[n] == CR && s[n + 1] == LF && s[n + 2] != CR
    requires ScanFrom(s[n + 2..], 0).Ok?
    ensures ScanFrom(s, 0) == Ok(n + 2 + ScanFrom(s[n + 2..], 0).value)
  {
    ScanSkips(s, n);
    PastCrlf(s, n);
    ScanShifts(s, n + 2, 0);
  }

  // Joining CR-free lines: the first CRLFCRLF is the terminator, because no line after the
  // first is empty.
  lemma {:induction false} LinesAreClean(lines: seq<seq<byte>>, rest: seq<byte>)
    requires lines != [] && (forall i | 0 <= i < |lines| :: Plain(lines[i]))
    requires forall i | 1 <= i < |lines| :: lines[i] != []
    ensures ScanFrom(Join(lines, CRLF) + CRLF2 + rest, 0) == Ok(|Join(lines, CRLF)|)
    decreases |lines|
  {
    assert Plain(lines[0]);
    var s := Join(lines, CRLF) + CRLF2 + rest;
    var n := |lines[0]|;
    assert s[..n] == lines[0];
    if |lines| == 1 {
      ScanSkips(s, n);
      assert s[n..n + 4] == CRLF2;
    } else {
      var more := Join(lines[1..], CRLF) + CRLF2 + rest;
      LinesAreClean(lines[1..], rest);
      assert lines[1] != [] && Plain(lines[1]) && more[0] == lines[1][0];
      assert s == lines[0] + CRLF + more;
      assert s[n + 2..] == more;
      PastLine(s, n);
    }
  }

  // Scanning passes over plain bytes.
  lemma {:induction false} ScanSkips(s: seq<byte>, n: nat)
    requires n <= |s| && Plain(s[..n])
    ensures ScanFrom(s, 0) == ScanFrom(s, n)
  {
    for i := 0 to n
      invariant ScanFrom(s, 0) == ScanFrom(s, i)
    {
      assert s[..n][i] == s[i];
    }
  }

  // Scanning from the middle is scanning the suffix.
  lemma {:induction false} ScanShifts(s: seq<byte>, k: nat, i: nat)
    requires k + i <= |s|
    ensures ScanFrom(s, k + i)
         == if ScanFrom(s[k..], i).Ok? then Ok(k + ScanFrom(s[k..], i).value) else ScanFrom(s[k..], i)
    decreases |s| - i
  {
    if k + i < |s| {
      assert k + i + 4 <= |s| ==> s[k..][i..i + 4] == s[k + i..k + i + 4];
      ScanShifts(s, k, i + 1);
    }
  }

  predicate PlainLines(lines: seq<seq<byte>>) {
    lines != [] && forall i | 0 <= i < |lines| :: Plain(lines[i]) && lines[i] != []
  }

  lemma {:induction false} JoinStartsWith(lines: seq<seq<byte>>)
    requires PlainLines(lines)
    ensures Join(lines, CRLF) != [] && Join(lines, CRLF)[0] != CR
  {
    assert Plain(lines[0]) && lines[0] != [];
    assert Join(lines, CRLF)[0] == lines[0][0];
  }

  lemma {:induction false} NotLed(bytes: seq<byte>)
    requires bytes != [] && bytes[0] != CR
    ensures Unled(bytes) == bytes && Unled(CRLF2 + bytes) == bytes
  {
    assert |bytes| >= 4 ==> bytes[0..4][0] == bytes[0];
    assert (CRLF2 + bytes)[0..4] == CRLF2 && (CRLF2 + bytes)[4..] == bytes;
  }

  // A head of plain, non-empty lines is scanned and split back into them.
  lemma {:induction false} HeadReads(lines: seq<seq<byte>>, led: bool, rest: seq<byte>)
    requires PlainLines(lines)
    ensures Head((if led then CRLF2 else []) + (Join(lines, CRLF) + CRLF2 + rest)) == Ok((Join(lines, CRLF), rest))
    ensures Split(Join(lines, CRLF), CRLF) == lines
  {
    var head := Join(lines, CRLF);
    var s := head + CRLF2 + rest;
    LinesAreClean(lines, rest);
    JoinStartsWith(lines);
    assert s[0] == head[0];
    NotLed(s);
    assert [] + s == s;
    assert s[..|head|] == head && s[|head| + 4..] == rest;
    assert AllLack(lines, CR) by {
      forall i | 0 <= i < |lines| ensures Lacks(lines[i], CR) { assert Plain(lines[i]); }
    }
    SplitJoin(lines, CRLF);
  }

  lemma {:induction false} PrintedLinesPlain(r: Wish)
    requires WellFormed(r)
    ensures PlainLines([PrintRequestLine(r)] + PrintFields(r.fields))
  {
    RequestLineReads(r);
    forall i | 0 <= i < |r.fields|
      ensures Plain(PrintField(r.fields[i])) && PrintField(r.fields[i]) != []
    {
      assert WellFormedField(r.fields[i]);
      FieldReads(r.fields[i]);
    }
  }

  // Every well-formed request, after at most one empty head and before anything, is parsed
  // to what it means, and exactly the tail is left.
  lemma {:induction false} RequestRoundTrip(r: Wish, led: bool, tail: seq<byte>)
    requires WellFormed(r)
    ensures Deserialize((if led then CRLF2 else []) + (Print(r) + tail)) == Ok((Meaning(r), tail))
  {
    var lines := [PrintRequestLine(r)] + PrintFields(r.fields);
    PrintedLinesPlain(r);
    RequestLineReads(r);
    assert Print(r) + tail == Join(lines, CRLF) + CRLF2 + (r.body + tail);
    HeadReads(lines, led, r.body + tail);
    assert lines[1..] == PrintFields(r.fields);
    FieldsRead(r.fields, map[], [], r.body, tail);
  }
}
