// The requests that the parser accepts, exactly: a grammar in bytes, and the parser reading
// what it describes and nothing else.
module HttpGrammar {
  import opened Bytes
  import opened Text
  import opened HttpRequests
  import opened HttpRoundTrip

  // ---------------------------------------------------------------- field lines

  // A field line: a name without colon and without blanks at its ends, and a padded value.
  predicate FieldOk(f: Field) {
    && Lacks(f.name, 58) && Bare(f.name)
    && Blank(f.lead) && Blank(f.trail) && Bare(f.value)
  }

  lemma {:induction false} LowerKeepsBlanks(k: seq<byte>)
    ensures StartsWithSpace(ToLower(k)) <==> k != [] && Blank([k[0]])
    ensures EndsWithSpace(ToLower(k)) <==> k != [] && Blank([k[|k| - 1]])
  {
    if k != [] {
      BlankIsSpace([k[0]]);
      BlankIsSpace([k[|k| - 1]]);
    }
  }

  lemma {:induction false} FieldCuts(line: seq<byte>, k: seq<byte>, v: seq<byte>) returns (f: Field)
    requires SplitOnce(line, 58) == Some((k, v))
    ensures f.name == k && f.value == Trim(v) && line == PrintField(f)
    ensures Blank(f.lead) && Blank(f.trail) && Bare(f.value) && Lacks(k, 58)
  {
    TrimExact(v, Trim(v));
    var lead, trail :| Padded(v, lead, Trim(v), trail);
    f := Field(k, lead, Trim(v), trail);
    SplitOnceExact(line, 58, k, v);
  }

  lemma {:induction false} FieldParses(f: Field)
    requires FieldOk(f)
    ensures ParseField(PrintField(f)) == Ok((ToLower(f.name), f.value))
  {
    var v := f.lead + f.value + f.trail;
    SplitOnceExact(PrintField(f), 58, f.name, v);
    assert Padded(v, f.lead, f.value, f.trail);
    TrimExact(v, f.value);
    LowerKeepsBlanks(f.name);
  }

  // A line is read as a field exactly if it is one, and then to its lower-cased name and its
  // value without the padding.
  lemma {:induction false} FieldExact(line: seq<byte>, key: seq<byte>, value: seq<byte>)
    ensures ParseField(line) == Ok((key, value))
       <==> exists f :: FieldOk(f) && line == PrintField(f) && key == ToLower(f.name) && value == f.value
  {
    if ParseField(line) == Ok((key, value)) {
      var (k, v) := SplitOnce(line, 58).value;
      var f := FieldCuts(line, k, v);
      LowerKeepsBlanks(k);
      assert FieldOk(f) && key == ToLower(f.name) && value == f.value;
    }
    if f :| FieldOk(f) && line == PrintField(f) && key == ToLower(f.name) && value == f.value {
      FieldParses(f);
    }
  }

  // The three refusals of a field line.
  lemma {:induction false} FieldErrors(line: seq<byte>, k: seq<byte>, v: seq<byte>)
    ensures ParseField(line) == Err(MissingValueInField) <==> Lacks(line, 58)
    ensures line == k + [58] + v && Lacks(k, 58) ==>
              && (ParseField(line) == Err(WhitespaceBeforeColon) <==> k != [] && Blank([k[|k| - 1]]))
              && (ParseField(line) == Err(DeprecatedHeaderFolding) <==> k != [] && Blank([k[0]]) && !Blank([k[|k| - 1]]))
  {
    SplitOnceExact(line, 58, k, v);
    LowerKeepsBlanks(k);
  }

  // ---------------------------------------------------------------- bodies

  // "Content-Length", in any letter case.
  predicate SaysLength(f: Field) {
    SameLetters(f.name, [67, 111, 110, 116, 101, 110, 116, 45, 76, 101, 110, 103, 116, 104])
  }

  lemma {:induction false} LengthName(f: Field)
    ensures ToLower(f.name) == CONTENT_LENGTH <==> SaysLength(f)
  {
    var written: seq<byte> := [67, 111, 110, 116, 101, 110, 116, 45, 76, 101, 110, 103, 116, 104];
    LengthLiteral(written);
    LowerExact(f.name, written);
  }

  lemma {:induction false} LengthLiteral(written: seq<byte>)
    requires written == [67, 111, 110, 116, 101, 110, 116, 45, 76, 101, 110, 103, 116, 104]
    ensures ToLower(written) == CONTENT_LENGTH
  {
    assert CONTENT_LENGTH == [99, 111, 110, 116, 101, 110, 116, 45, 108, 101, 110, 103, 116, 104];
  }

  predicate Numbered(fs: seq<Field>) {
    forall i | 0 <= i < |fs| && SaysLength(fs[i]) :: ParseUsize(fs[i].value).Some?
  }

  // The lengths that the fields announce, in order.
  function Lengths(fs: seq<Field>): seq<nat>
    requires Numbered(fs)
  {
    if fs == [] then []
    else (if SaysLength(fs[0]) then [ParseUsize(fs[0].value).value] else []) + Lengths(fs[1..])
  }

  function Sum(ns: seq<nat>): nat {
    if ns == [] then 0 else ns[0] + Sum(ns[1..])
  }

  // Each length is taken from the front of what follows; the last one is the body.
  predicate Cut(ns: seq<nat>, before: seq<byte>, after: seq<byte>, body: seq<byte>, left: seq<byte>) {
    var k := Sum(ns);
    && k <= |after| && left == after[k..]
    && if ns == [] then body == before
       else ns[|ns| - 1] <= k && body == after[k - ns[|ns| - 1]..k]
  }

  predicate Bodied(fs: seq<Field>, p: Reading, q: Reading) {
    Numbered(fs) && q.headers == FieldMap(fs, p.headers) && Cut(Lengths(fs), p.body, p.rest, q.body, q.rest)
  }

  predicate FieldsOk(fs: seq<Field>) {
    forall i | 0 <= i < |fs| :: FieldOk(fs[i])
  }

  // What one field does.
  lemma {:induction false} OneField(f: Field, p: Reading)
    requires FieldOk(f)
    ensures ReadField(PrintField(f), p) ==
            if SaysLength(f) then
              match ParseUsize(f.value)
              case None => Err(InvalidContentLength)
              case Some(n) =>
                if n > |p.rest| then Err(Incomplete)
                else Ok(Reading(p.headers[Name(f) := f.value], p.rest[..n], p.rest[n..]))
            else Ok(p.(headers := p.headers[Name(f) := f.value]))
  {
    FieldParses(f);
    LengthName(f);
  }

  lemma {:induction false} CutStep(n: nat, ns: seq<nat>, before: seq<byte>, after: seq<byte>, body: seq<byte>, left: seq<byte>)
    ensures Cut([n] + ns, before, after, body, left) <==> n <= |after| && Cut(ns, after[..n], after[n..], body, left)
  {
    var all := [n] + ns;
    assert all[1..] == ns && Sum(all) == n + Sum(ns);
    if ns != [] {
      LastInSum(ns);
      assert all[|all| - 1] == ns[|ns| - 1];
    }
    if n + Sum(ns) <= |after| {
      SlicesShift(after, n, Sum(ns));
      if ns != [] {
        SliceShifts(after, n, Sum(ns) - ns[|ns| - 1], Sum(ns));
      } else {
        assert after[n - n..n] == after[..n];
      }
    }
  }

  lemma {:induction false} LengthsStep(fs: seq<Field>)
    requires fs != [] && Numbered(fs)
    ensures Numbered(fs[1..])
    ensures Lengths(fs) == if SaysLength(fs[0]) then [ParseUsize(fs[0].value).value] + Lengths(fs[1..]) else Lengths(fs[1..])
  {
    NumberedStep(fs);
  }

  // The reading after one field, if it can be read.
  function ReadOn(f: Field, p: Reading): Option<Reading> {
    var headers := p.headers[Name(f) := f.value];
    if !SaysLength(f) then Some(p.(headers := headers))
    else
      match ParseUsize(f.value)
      case None => None
      case Some(n) => if n > |p.rest| then None else Some(Reading(headers, p.rest[..n], p.rest[n..]))
  }

  lemma {:induction false} BodiedStep(fs: seq<Field>, p: Reading, q: Reading)
    requires fs != []
    ensures Bodied(fs, p, q) <==> ReadOn(fs[0], p).Some? && Bodied(fs[1..], ReadOn(fs[0], p).value, q)
  {
    NumberedStep(fs);
    if Numbered(fs) {
      LengthsStep(fs);
      if SaysLength(fs[0]) {
        CutStep(ParseUsize(fs[0].value).value, Lengths(fs[1..]), p.body, p.rest, q.body, q.rest);
      }
    }
  }

  lemma {:induction false} NumberedStep(fs: seq<Field>)
    requires fs != []
    ensures Numbered(fs) <==> Numbered(fs[1..]) && (SaysLength(fs[0]) ==> ParseUsize(fs[0].value).Some?)
  {
    if Numbered(fs[1..]) && (SaysLength(fs[0]) ==> ParseUsize(fs[0].value).Some?) {
      forall i | 0 <= i < |fs| && SaysLength(fs[i]) ensures ParseUsize(fs[i].value).Some? {
        if i > 0 { assert fs[i] == fs[1..][i - 1]; }
      }
    }
  }

  lemma {:induction false} LastInSum(ns: seq<nat>)
    requires ns != []
    ensures ns[|ns| - 1] <= Sum(ns)
    decreases |ns|
  {
    if |ns| > 1 { LastInSum(ns[1..]); }
  }

  lemma {:induction false} SlicesShift(s: seq<byte>, n: nat, k: nat)
    requires n <= |s|
    ensures n + k <= |s| ==> s[n..][k..] == s[n + k..]
    ensures s[..n] == s[n - n..n]
  {
  }

  lemma {:induction false} SliceShifts(s: seq<byte>, n: nat, a: nat, b: nat)
    requires a <= b && n + b <= |s|
    ensures s[n..][a..b] == s[n + a..n + b]
  {
  }

  lemma {:induction false} PrintedFirst(fs: seq<Field>)
    requires fs != []
    ensures PrintFields(fs)[0] == PrintField(fs[0]) && PrintFields(fs)[1..] == PrintFields(fs[1..])
  {
  }

  lemma {:induction false} FieldReads(f: Field, p: Reading)
    requires FieldOk(f)
    ensures ReadField(PrintField(f), p).Ok? <==> ReadOn(f, p).Some?
    ensures ReadOn(f, p).Some? ==> ReadField(PrintField(f), p) == Ok(ReadOn(f, p).value)
  {
    OneField(f, p);
  }

  lemma {:induction false} FieldsParse(fs: seq<Field>, p: Reading, q: Reading)
    requires FieldsOk(fs)
    ensures ReadFields(PrintFields(fs), p) == Ok(q) <==> Bodied(fs, p, q)
    decreases |fs|
  {
    if fs != [] {
      PrintedFirst(fs);
      BodiedStep(fs, p, q);
      FieldReads(fs[0], p);
      if ReadOn(fs[0], p).Some? {
        FieldsParse(fs[1..], ReadOn(fs[0], p).value, q);
      }
    } else {
      assert p.rest[0..] == p.rest;
    }
  }

  lemma {:induction false} LineIsField(line: seq<byte>) returns (f: Field)
    requires ParseField(line).Ok?
    ensures FieldOk(f) && line == PrintField(f)
  {
    var (key, value) := ParseField(line).value;
    FieldExact(line, key, value);
    f :| FieldOk(f) && line == PrintField(f) && key == ToLower(f.name) && value == f.value;
  }

  lemma {:induction false} OneMoreField(f: Field, more: seq<Field>, lines: seq<seq<byte>>)
    requires FieldOk(f) && FieldsOk(more) && lines != [] && lines[0] == PrintField(f) && lines[1..] == PrintFields(more)
    ensures FieldsOk([f] + more) && lines == PrintFields([f] + more)
  {
    assert PrintFields([f] + more) == [PrintField(f)] + PrintFields(more);
  }

  // Lines that are read are fields.
  lemma {:induction false} LinesAreFields(lines: seq<seq<byte>>, p: Reading) returns (fs: seq<Field>)
    requires ReadFields(lines, p).Ok?
    ensures FieldsOk(fs) && lines == PrintFields(fs)
    decreases |lines|
  {
    fs := [];
    if lines != [] {
      var f := LineIsField(lines[0]);
      var more := LinesAreFields(lines[1..], ReadField(lines[0], p).value);
      OneMoreField(f, more, lines);
      fs := [f] + more;
    }
  }

  // ---------------------------------------------------------------- the request line

  // "GET" and "POST", in capitals.
  predicate MethodIs(s: seq<byte>, m: Method) {
    (m == GET && s == [71, 69, 84]) || (m == POST && s == [80, 79, 83, 84])
  }

  lemma {:induction false} MethodExact(s: seq<byte>, m: Method)
    ensures ParseMethod(s) == Some(m) <==> MethodIs(s, m)
  {
    assert Lit("GET") == [71, 69, 84] && Lit("POST") == [80, 79, 83, 84];
  }

  // "HTTP/1", "HTTP/1.1", "HTTP/2" and "HTTP/3".
  function Spelling(v: Version): seq<byte> {
    match v
    case V_1_0 => [72, 84, 84, 80, 47, 49]
    case V_1_1 => [72, 84, 84, 80, 47, 49, 46, 49]
    case V_2_0 => [72, 84, 84, 80, 47, 50]
    case V_3_0 => [72, 84, 84, 80, 47, 51]
  }

  lemma {:induction false} SpellingIsText(v: Version)
    ensures VersionText(v) == Spelling(v) && ToUpper(Spelling(v)) == Spelling(v)
  {
    assert Lit("HTTP/1") == Spelling(V_1_0);
    assert Lit("HTTP/1.1") == Spelling(V_1_1);
    assert Lit("HTTP/2") == Spelling(V_2_0);
    assert Lit("HTTP/3") == Spelling(V_3_0);
  }

  // A version is recognised in any letter case.
  lemma {:induction false} VersionExact(s: seq<byte>, v: Version)
    ensures ParseVersion(s) == Some(v) <==> SameLetters(s, Spelling(v))
  {
    UpperExact(s, Spelling(v));
    VersionUpper(s, v);
  }

  lemma {:induction false} VersionUpper(s: seq<byte>, v: Version)
    ensures ParseVersion(s) == Some(v) <==> ToUpper(s) == ToUpper(Spelling(v))
  {
    SpellingIsText(V_1_0);
    SpellingIsText(V_1_1);
    SpellingIsText(V_2_0);
    SpellingIsText(V_3_0);
  }

  predicate ParamOk(q: Param) {
    Lacks(q.key, 61) && Lacks(q.key, 38) && Lacks(q.value, 38)
  }

  predicate ParamsOk(ps: seq<Param>) {
    forall i | 0 <= i < |ps| :: ParamOk(ps[i])
  }

  lemma {:induction false} ParamsParse(ps: seq<Param>, m: Fields)
    requires ParamsOk(ps)
    ensures QueryFrom(PrintParams(ps), m) == Ok(ParamMap(ps, m))
    decreases |ps|
  {
    if ps != [] {
      assert ParamOk(ps[0]);
      SplitOnceAt(ps[0].key, 61, ps[0].value);
      assert PrintParams(ps)[1..] == PrintParams(ps[1..]);
      ParamsParse(ps[1..], m[ps[0].key := ps[0].value]);
    }
  }

  lemma {:induction false} PartIsParam(part: seq<byte>) returns (q: Param)
    requires SplitOnce(part, 61).Some? && Lacks(part, 38)
    ensures ParamOk(q) && part == PrintParam(q) && SplitOnce(part, 61) == Some((q.key, q.value))
  {
    var (k, v) := SplitOnce(part, 61).value;
    SplitOnceExact(part, 61, k, v);
    q := Param(k, v);
    forall i | 0 <= i < |k| ensures k[i] != 38 { assert part[i] == k[i]; }
    forall i | 0 <= i < |v| ensures v[i] != 38 { assert part[|k| + 1 + i] == v[i]; }
  }

  // Parts of a query that are read are parameters.
  lemma {:induction false} PartsAreParams(parts: seq<seq<byte>>, m: Fields) returns (ps: seq<Param>)
    requires QueryFrom(parts, m).Ok? && AllLack(parts, 38)
    ensures ParamsOk(ps) && parts == PrintParams(ps)
    decreases |parts|
  {
    ps := [];
    if parts != [] {
      assert Lacks(parts[0], 38);
      var q := PartIsParam(parts[0]);
      var more := PartsAreParams(parts[1..], m[q.key := q.value]);
      ps := [q] + more;
      assert PrintParams(ps) == [PrintParam(q)] + PrintParams(more);
    }
  }

  predicate QuerySays(target: seq<byte>, path: seq<byte>, ps: seq<Param>, params: Fields) {
    && ps != [] && ParamsOk(ps) && target == path + [63] + Join(PrintParams(ps), [38])
    && params == ParamMap(ps, map[])
  }

  // A path alone, or a path and one or more parameters.
  ghost predicate TargetSays(target: seq<byte>, path: seq<byte>, params: Fields) {
    && Lacks(path, 63)
    && ((target == path && params == map[]) || exists ps :: QuerySays(target, path, ps, params))
  }

  lemma {:induction false} QueryCuts(query: seq<byte>, params: Fields) returns (ps: seq<Param>)
    requires QueryFrom(Split(query, [38]), map[]) == Ok(params)
    ensures ps != [] && ParamsOk(ps) && query == Join(PrintParams(ps), [38]) && params == ParamMap(ps, map[])
  {
    SplitByteLacks(query, 38);
    ps := PartsAreParams(Split(query, [38]), map[]);
    ParamsParse(ps, map[]);
    JoinSplit(query, [38]);
  }

  lemma {:induction false} ParamsJoin(ps: seq<Param>)
    requires ps != [] && ParamsOk(ps)
    ensures QueryFrom(Split(Join(PrintParams(ps), [38]), [38]), map[]) == Ok(ParamMap(ps, map[]))
  {
    forall i | 0 <= i < |ps| ensures Lacks(PrintParams(ps)[i], 38) {
      assert ParamOk(ps[i]);
    }
    SplitJoin(PrintParams(ps), [38]);
    ParamsParse(ps, map[]);
  }

  lemma {:induction false} TargetExact(target: seq<byte>, path: seq<byte>, params: Fields)
    ensures ParseTarget(target) == Ok((path, params)) <==> TargetSays(target, path, params)
  {
    if ParseTarget(target) == Ok((path, params)) {
      if SplitOnce(target, 63).None? {
        SplitOnceExact(target, 63, [], []);
      } else {
        var query := SplitOnce(target, 63).value.1;
        SplitOnceExact(target, 63, path, query);
        var ps := QueryCuts(query, params);
        assert QuerySays(target, path, ps, params);
      }
    }
    if TargetSays(target, path, params) {
      SplitOnceExact(target, 63, [], []);
      if ps :| QuerySays(target, path, ps, params) {
        SplitOnceExact(target, 63, path, Join(PrintParams(ps), [38]));
        ParamsJoin(ps);
      }
    }
  }

  predicate Spaceless(s: seq<byte>) {
    Lacks(s, SP)
  }

  // Three parts between two spaces: a method, a target and a version.
  ghost predicate LineParts(line: seq<byte>, verb: seq<byte>, target: seq<byte>, version: seq<byte>, request: Request) {
    && line == Join([verb, target, version], [SP]) && Spaceless(verb) && Spaceless(target) && Spaceless(version)
    && MethodIs(verb, request.verb) && TargetSays(target, request.path, request.queryParams)
    && SameLetters(version, Spelling(request.version))
    && request.headers == map[] && request.body == []
  }

  ghost predicate LineSays(line: seq<byte>, request: Request) {
    exists verb, target, version :: LineParts(line, verb, target, version, request)
  }

  lemma {:induction false} VersionEnds(version: seq<byte>, v: Version)
    requires SameLetters(version, Spelling(v))
    ensures !EndsWithSpace(version)
  {
    assert SameLetter(version[|version| - 1], Spelling(v)[|version| - 1]);
  }

  lemma {:induction false} LineReads(parts: seq<seq<byte>>, request: Request)
    requires |parts| == 3
    ensures ParseMethod(parts[0]) == Some(request.verb) <==> MethodIs(parts[0], request.verb)
    ensures ParseTarget(parts[1]) == Ok((request.path, request.queryParams)) <==> TargetSays(parts[1], request.path, request.queryParams)
    ensures ParseVersion(parts[2]) == Some(request.version) <==> SameLetters(parts[2], Spelling(request.version))
    ensures SameLetters(parts[2], Spelling(request.version)) ==> !EndsWithSpace(parts[2])
  {
    MethodExact(parts[0], request.verb);
    TargetExact(parts[1], request.path, request.queryParams);
    VersionExact(parts[2], request.version);
    if SameLetters(parts[2], Spelling(request.version)) { VersionEnds(parts[2], request.version); }
  }

  lemma {:induction false} RequestLineExact(line: seq<byte>, request: Request)
    ensures ParseRequestLine(line) == Ok(request)
       <==> LineSays(line, request)
  {
    if ParseRequestLine(line) == Ok(request) {
      var parts := Split(line, [SP]);
      SplitByteLacks(line, SP);
      JoinSplit(line, [SP]);
      LineReads(parts, request);
      assert parts == [parts[0], parts[1], parts[2]];
      assert LineParts(line, parts[0], parts[1], parts[2], request);
    }
    if verb, target, version :| LineParts(line, verb, target, version, request) {
      SplitJoin([verb, target, version], [SP]);
      LineReads([verb, target, version], request);
    }
  }

  lemma {:induction false} TargetErrors(target: seq<byte>)
    ensures ParseTarget(target).Err? ==> ParseTarget(target).error == BadQuery
  {
    if SplitOnce(target, 63).Some? { QueryErrors(Split(SplitOnce(target, 63).value.1, [38]), map[]); }
  }

  lemma {:induction false} QueryErrors(params: seq<seq<byte>>, m: Fields)
    ensures QueryFrom(params, m).Err? ==> QueryFrom(params, m).error == BadQuery
    decreases |params|
  {
    if params != [] && SplitOnce(params[0], 61).Some? {
      var (key, value) := SplitOnce(params[0], 61).value;
      QueryErrors(params[1..], m[key := value]);
    }
  }

  // The refusals of a request line, in their order: not three parts, no known method, a
  // parameter without equals sign, a blank at the end, no known version.
  lemma {:induction false} RequestLineErrors(line: seq<byte>)
    ensures var parts := Split(line, [SP]);
            if |parts| != 3 then ParseRequestLine(line) == Err(BadStatusLine)
            else if !MethodIs(parts[0], GET) && !MethodIs(parts[0], POST) then ParseRequestLine(line) == Err(BadMethod)
            else if !(exists path, params :: TargetSays(parts[1], path, params)) then ParseRequestLine(line) == Err(BadQuery)
            else if parts[2] != [] && Blank([parts[2][|parts[2]| - 1]]) then ParseRequestLine(line) == Err(WhiteSpaceAfterStartLine)
            else if !(exists v :: SameLetters(parts[2], Spelling(v))) then ParseRequestLine(line) == Err(UnknownVersion)
            else ParseRequestLine(line).Ok?
  {
    var parts := Split(line, [SP]);
    if |parts| == 3 {
      MethodExact(parts[0], GET);
      MethodExact(parts[0], POST);
      TargetKnown(parts[1]);
      TargetErrors(parts[1]);
      VersionKnown(parts[2]);
      if parts[2] != [] { BlankIsSpace([parts[2][|parts[2]| - 1]]); }
    }
  }

  lemma {:induction false} TargetKnown(target: seq<byte>)
    ensures ParseTarget(target).Ok? <==> exists path, params :: TargetSays(target, path, params)
  {
    if ParseTarget(target).Ok? {
      var (path, params) := ParseTarget(target).value;
      TargetExact(target, path, params);
    }
    if path, params :| TargetSays(target, path, params) {
      TargetExact(target, path, params);
    }
  }

  lemma {:induction false} VersionKnown(s: seq<byte>)
    ensures ParseVersion(s).Some? <==> exists v :: SameLetters(s, Spelling(v))
  {
    if ParseVersion(s).Some? {
      VersionExact(s, ParseVersion(s).value);
    }
    if v :| SameLetters(s, Spelling(v)) {
      VersionExact(s, v);
    }
  }

  // ---------------------------------------------------------------- the whole request

  predicate CrlfOnly(h: seq<byte>) {
    Ascii(h) && forall j | 0 <= j < |h| && h[j] == CR :: j + 1 < |h| && h[j + 1] == LF
  }

  lemma {:induction false} HeadIsCrlfOnly(bytes: seq<byte>)
    requires Head(bytes).Ok?
    ensures CrlfOnly(Head(bytes).value.0)
  {
    var (head, rest) := Head(bytes).value;
    var s := Unled(bytes);
    HeadExact(bytes, head, rest);
    forall j | 0 <= j < |head| ensures head[j] < 128 && (head[j] == CR ==> j + 1 < |head| && head[j + 1] == LF) {
      assert s[j] == head[j];
      assert s[|head|] == CRLF2[0];
      assert j + 1 < |head| ==> s[j + 1] == head[j + 1];
    }
  }

  lemma {:induction false} PiecesPlain(h: seq<byte>)
    requires CrlfOnly(h)
    ensures forall i | 0 <= i < |Split(h, CRLF)| :: Plain(Split(h, CRLF)[i])
    decreases |h|
  {
    match Find(h, CRLF)
    case None =>
      forall j | 0 <= j < |h| ensures h[j] != CR {
        if h[j] == CR {
          assert h[j..j + 2] == CRLF;
          FindIsFirst(h, CRLF, j);
        }
      }
    case Some(i) =>
      FirstPlain(h, i);
      PiecesPlain(h[i + 2..]);
      PlainFirst(Split(h, CRLF));
  }

  lemma {:induction false} FirstPlain(h: seq<byte>, i: nat)
    requires CrlfOnly(h) && Find(h, CRLF) == Some(i)
    ensures Plain(h[..i]) && i + 2 <= |h| && CrlfOnly(h[i + 2..])
  {
    forall j | 0 <= j < i ensures h[..i][j] != CR {
      if h[j] == CR {
        assert h[j..j + 2] == CRLF;
        FindIsFirst(h, CRLF, j);
      }
    }
  }

  lemma {:induction false} PlainFirst(parts: seq<seq<byte>>)
    requires parts != [] && Plain(parts[0]) && forall i | 0 <= i < |parts[1..]| :: Plain(parts[1..][i])
    ensures forall i | 0 <= i < |parts| :: Plain(parts[i])
  {
    forall i | 0 <= i < |parts| ensures Plain(parts[i]) {
      if i > 0 { assert parts[i] == parts[1..][i - 1]; }
    }
  }

  // A request as it is written: at most one empty head in front, a request line, field lines,
  // all of them ASCII without CR, an empty line, and what follows.
  predicate Written(buf: seq<byte>, led: bool, line: seq<byte>, fs: seq<Field>, after: seq<byte>) {
    && buf == (if led then CRLF2 else []) + (Join([line] + PrintFields(fs), CRLF) + CRLF2 + after)
    && Plain(line) && FieldsOk(fs) && forall i | 0 <= i < |fs| :: Plain(PrintField(fs[i]))
  }

  // What is known of a request before its fields are read.
  function Unread(request: Request): Request {
    request.(headers := map[], body := [])
  }

  // What a request line and fields say together with the bytes behind them.
  ghost predicate Says(line: seq<byte>, fs: seq<Field>, after: seq<byte>, request: Request, rest: seq<byte>) {
    && LineSays(line, Unread(request))
    && Bodied(fs, Reading(map[], [], after), Reading(request.headers, request.body, rest))
  }

  lemma {:induction false} UnderstoodIs(head: seq<byte>, after: seq<byte>, lines: seq<seq<byte>>, request: Request, rest: seq<byte>)
    requires Split(head, CRLF) == lines
    ensures Understood(head, after) == Ok((request, rest))
       <==> && ParseRequestLine(lines[0]) == Ok(Unread(request))
            && ReadFields(lines[1..], Reading(map[], [], after)) == Ok(Reading(request.headers, request.body, rest))
  {
  }

  lemma {:induction false} DeserializeIs(buf: seq<byte>, head: seq<byte>, after: seq<byte>)
    requires Head(buf) == Ok((head, after))
    ensures Deserialize(buf) == Understood(head, after)
  {
  }

  lemma {:induction false} WrittenLines(line: seq<byte>, fs: seq<Field>, lines: seq<seq<byte>>)
    requires lines == [line] + PrintFields(fs)
    ensures lines != [] && lines[0] == line && lines[1..] == PrintFields(fs)
  {
  }

  lemma {:induction false} LineNotEmpty(line: seq<byte>, request: Request)
    requires LineSays(line, request)
    ensures line != []
  {
    var verb, target, version :| LineParts(line, verb, target, version, request);
    assert |Join([verb, target, version], [SP])| >= |verb|;
  }

  // The head of what is written, and its lines.
  lemma {:induction false} WrittenHead(buf: seq<byte>, led: bool, line: seq<byte>, fs: seq<Field>, after: seq<byte>)
    requires Written(buf, led, line, fs, after) && line != []
    ensures var lines := [line] + PrintFields(fs);
            Head(buf) == Ok((Join(lines, CRLF), after)) && Split(Join(lines, CRLF), CRLF) == lines
  {
    var lines := [line] + PrintFields(fs);
    forall i | 0 <= i < |lines| ensures Plain(lines[i]) && lines[i] != [] {
      if i > 0 { assert lines[i] == PrintField(fs[i - 1]); }
    }
    HeadReads(lines, led, after);
  }

  // What is written so is accepted, with what it says.
  lemma {:induction false} WrittenReads(
      buf: seq<byte>, led: bool, line: seq<byte>, fs: seq<Field>, after: seq<byte>, request: Request, rest: seq<byte>)
    requires Written(buf, led, line, fs, after) && Says(line, fs, after, request, rest)
    ensures Deserialize(buf) == Ok((request, rest))
  {
    var lines := [line] + PrintFields(fs);
    LineNotEmpty(line, Unread(request));
    WrittenHead(buf, led, line, fs, after);
    DeserializeIs(buf, Join(lines, CRLF), after);
    UnderstoodIs(Join(lines, CRLF), after, lines, request, rest);
    WrittenLines(line, fs, lines);
    RequestLineExact(line, Unread(request));
    FieldsParse(fs, Reading(map[], [], after), Reading(request.headers, request.body, rest));
  }

  lemma {:induction false} HeadCuts(buf: seq<byte>, head: seq<byte>, after: seq<byte>) returns (led: bool)
    requires Head(buf) == Ok((head, after))
    ensures buf == (if led then CRLF2 else []) + (Join(Split(head, CRLF), CRLF) + CRLF2 + after)
    ensures forall i | 0 <= i < |Split(head, CRLF)| :: Plain(Split(head, CRLF)[i])
  {
    led := At(buf, CRLF2, 0);
    HeadExact(buf, head, after);
    HeadIsCrlfOnly(buf);
    PiecesPlain(head);
    JoinSplit(head, CRLF);
    assert led ==> buf == CRLF2 + buf[4..];
  }

  // What is accepted is written so.
  lemma {:induction false} AcceptedIsWritten(buf: seq<byte>, request: Request, rest: seq<byte>)
    returns (led: bool, line: seq<byte>, fs: seq<Field>, after: seq<byte>)
    requires Deserialize(buf) == Ok((request, rest))
    ensures Written(buf, led, line, fs, after) && Says(line, fs, after, request, rest)
  {
    var head := Head(buf).value.0;
    after := Head(buf).value.1;
    var lines := Split(head, CRLF);
    DeserializeIs(buf, head, after);
    UnderstoodIs(head, after, lines, request, rest);
    led := HeadCuts(buf, head, after);
    line := lines[0];
    fs := LinesAreFields(lines[1..], Reading(map[], [], after));
    LinesWrite(buf, led, lines, fs, after);
    RequestLineExact(line, Unread(request));
    FieldsParse(fs, Reading(map[], [], after), Reading(request.headers, request.body, rest));
  }

  lemma {:induction false} LinesWrite(buf: seq<byte>, led: bool, lines: seq<seq<byte>>, fs: seq<Field>, after: seq<byte>)
    requires lines != [] && buf == (if led then CRLF2 else []) + (Join(lines, CRLF) + CRLF2 + after)
    requires (forall i | 0 <= i < |lines| :: Plain(lines[i])) && lines[1..] == PrintFields(fs) && FieldsOk(fs)
    ensures Written(buf, led, lines[0], fs, after)
  {
    assert lines == [lines[0]] + PrintFields(fs);
    forall i | 0 <= i < |fs| ensures Plain(PrintField(fs[i])) { assert PrintFields(fs)[i] == lines[i + 1]; }
  }

  // The accepted requests, exactly.
  lemma {:induction false} DeserializeExact(buf: seq<byte>, request: Request, rest: seq<byte>)
    ensures Deserialize(buf) == Ok((request, rest))
       <==> exists led, line, fs, after :: Written(buf, led, line, fs, after) && Says(line, fs, after, request, rest)
  {
    if Deserialize(buf) == Ok((request, rest)) {
      var led, line, fs, after := AcceptedIsWritten(buf, request, rest);
    }
    if led, line, fs, after :| Written(buf, led, line, fs, after) && Says(line, fs, after, request, rest) {
      WrittenReads(buf, led, line, fs, after, request, rest);
    }
  }

  // ---------------------------------------------------------------- waiting

  // The first of these lines are fields that announce more than has come.
  predicate Exceeds(lines: seq<seq<byte>>, fs: seq<Field>, n: nat) {
    PrintFields(fs) <= lines && FieldsOk(fs) && Numbered(fs) && Sum(Lengths(fs)) > n
  }

  lemma {:induction false} ExceedsStep(lines: seq<seq<byte>>, f: Field, fs: seq<Field>, p: Reading)
    requires lines != [] && FieldOk(f) && lines[0] == PrintField(f)
    ensures Exceeds(lines, [f] + fs, |p.rest|) <==>
              if SaysLength(f) && ParseUsize(f.value).Some? && ParseUsize(f.value).value > |p.rest|
              then PrintFields(fs) <= lines[1..] && FieldsOk(fs) && Numbered(fs)
              else ReadOn(f, p).Some? && Exceeds(lines[1..], fs, |ReadOn(f, p).value.rest|)
  {
    var all := [f] + fs;
    assert all[1..] == fs;
    NumberedStep(all);
    assert PrintFields(all) == [PrintField(f)] + PrintFields(fs);
    assert PrintFields(all) <= lines <==> PrintFields(fs) <= lines[1..] by {
      if PrintFields(fs) <= lines[1..] { assert lines == [lines[0]] + lines[1..]; }
    }
    assert FieldsOk(all) <==> FieldsOk(fs) by {
      if FieldsOk(all) { assert forall i | 0 <= i < |fs| :: fs[i] == all[i + 1]; }
    }
    if Numbered(all) {
      LengthsStep(all);
      if SaysLength(f) { assert ([ParseUsize(f.value).value] + Lengths(fs))[1..] == Lengths(fs); }
    }
  }

  lemma {:induction false} ExceedingWaits(lines: seq<seq<byte>>, fs: seq<Field>, p: Reading)
    requires Exceeds(lines, fs, |p.rest|)
    ensures ReadFields(lines, p) == Err(Incomplete)
    decreases |fs|
  {
    assert fs != [] && PrintFields(fs)[0] == PrintField(fs[0]) && lines[0] == PrintField(fs[0]) && FieldOk(fs[0]);
    assert fs == [fs[0]] + fs[1..];
    ExceedsStep(lines, fs[0], fs[1..], p);
    OneField(fs[0], p);
    if ReadOn(fs[0], p).Some? {
      FieldReads(fs[0], p);
      ExceedingWaits(lines[1..], fs[1..], ReadOn(fs[0], p).value);
    }
  }

  lemma {:induction false} WaitingExceeds(lines: seq<seq<byte>>, p: Reading) returns (fs: seq<Field>)
    requires ReadFields(lines, p) == Err(Incomplete)
    ensures Exceeds(lines, fs, |p.rest|)
    decreases |lines|
  {
    var f := LineIsField(lines[0]);
    OneField(f, p);
    FieldReads(f, p);
    if ReadOn(f, p).Some? {
      var more := WaitingExceeds(lines[1..], ReadOn(f, p).value);
      fs := [f] + more;
      ExceedsStep(lines, f, more, p);
    } else {
      fs := [f];
      ExceedsStep(lines, f, [], p);
      assert [f] + [] == [f];
    }
  }

  lemma {:induction false} LineNeverWaits(line: seq<byte>)
    ensures ParseRequestLine(line) != Err(Incomplete)
  {
    var parts := Split(line, [SP]);
    if |parts| == 3 { TargetNeverWaits(parts[1]); }
  }

  lemma {:induction false} TargetNeverWaits(target: seq<byte>)
    ensures ParseTarget(target) != Err(Incomplete)
  {
    if SplitOnce(target, 63).Some? {
      QueryNeverWaits(Split(SplitOnce(target, 63).value.1, [38]), map[]);
    }
  }

  lemma {:induction false} QueryNeverWaits(params: seq<seq<byte>>, m: Fields)
    ensures QueryFrom(params, m) != Err(Incomplete)
    decreases |params|
  {
    if params != [] && SplitOnce(params[0], 61).Some? {
      var (key, value) := SplitOnce(params[0], 61).value;
      QueryNeverWaits(params[1..], m[key := value]);
    }
  }

  // The head is there, its request line says something, and its first fields announce more
  // than has come behind it.
  ghost predicate BodyMissing(head: seq<byte>, after: seq<byte>) {
    var lines := Split(head, CRLF);
    && (exists request :: LineSays(lines[0], request))
    && exists fs :: Exceeds(lines[1..], fs, |after|)
  }

  lemma {:induction false} UnderstoodWaits(head: seq<byte>, after: seq<byte>, lines: seq<seq<byte>>)
    requires lines == Split(head, CRLF)
    ensures Understood(head, after) == Err(Incomplete)
       <==> ParseRequestLine(lines[0]).Ok? && ReadFields(lines[1..], Reading(map[], [], after)) == Err(Incomplete)
  {
    LineNeverWaits(lines[0]);
  }

  lemma {:induction false} BodyMissingExact(head: seq<byte>, after: seq<byte>)
    ensures Understood(head, after) == Err(Incomplete) <==> BodyMissing(head, after)
  {
    var lines := Split(head, CRLF);
    var p := Reading(map[], [], after);
    UnderstoodWaits(head, after, lines);
    if Understood(head, after) == Err(Incomplete) {
      RequestLineExact(lines[0], ParseRequestLine(lines[0]).value);
      var fs := WaitingExceeds(lines[1..], p);
    }
    if BodyMissing(head, after) {
      var request :| LineSays(lines[0], request);
      RequestLineExact(lines[0], request);
      var fs :| Exceeds(lines[1..], fs, |after|);
      ExceedingWaits(lines[1..], fs, p);
    }
  }

  // The parser waits exactly if the empty line has not come yet and nothing offends so far, or
  // the head is understood up to fields that announce more than has come behind it.
  lemma {:induction false} WaitsExact(buf: seq<byte>)
    ensures Deserialize(buf) == Err(Incomplete)
       <==> if Head(buf).Ok? then BodyMissing(Head(buf).value.0, Head(buf).value.1)
            else Clean(Unled(buf), 0, |Unled(buf)|) && forall j | 0 <= j :: !At(Unled(buf), CRLF2, j)
  {
    ScanFromWaits(Unled(buf), 0);
    if Head(buf).Ok? {
      var (head, after) := Head(buf).value;
      DeserializeIs(buf, head, after);
      BodyMissingExact(head, after);
    } else {
      HeadErrs(buf);
    }
  }

  lemma {:induction false} HeadErrs(buf: seq<byte>)
    requires Head(buf).Err?
    ensures ScanFrom(Unled(buf), 0) == Err(Head(buf).error) && Deserialize(buf) == Err(Head(buf).error)
  {
  }

  // The first offence: a byte that is not ASCII, or a CR without LF behind it.
  predicate OffendsAt(s: seq<byte>, i: nat, k: nat) {
    i <= k < |s| && Clean(s, i, k) && !Clean(s, k, k + 1) && forall j | i <= j < k :: !At(s, CRLF2, j)
  }

  // The scan refuses exactly at a first offence, and says which.
  lemma {:induction false} ScanErrors(s: seq<byte>, i: nat)
    requires i <= |s|
    ensures ScanFrom(s, i) == Err(InvalidCharacter) <==> exists k: nat :: OffendsAt(s, i, k) && s[k] >= 128
    ensures ScanFrom(s, i) == Err(BareCarriageReturn) <==> exists k: nat :: OffendsAt(s, i, k) && s[k] == CR
    decreases |s| - i
  {
    if i < |s| {
      if OffendsAt(s, i, i) {
        OneOffence(s, i);
      } else if !At(s, CRLF2, i) {
        ScanErrors(s, i + 1);
        OffendsLater(s, i);
      } else {
        AtStart(s, i);
      }
    }
  }

  lemma {:induction false} OneOffence(s: seq<byte>, i: nat)
    requires OffendsAt(s, i, i)
    ensures forall k | OffendsAt(s, i, k) :: k == i
    ensures ScanFrom(s, i) == Err(if s[i] == CR then BareCarriageReturn else InvalidCharacter)
  {
  }

  lemma {:induction false} OffendsLater(s: seq<byte>, i: nat)
    requires i < |s| && !OffendsAt(s, i, i) && !At(s, CRLF2, i)
    ensures forall k: nat :: OffendsAt(s, i, k) <==> OffendsAt(s, i + 1, k)
  {
    assert Clean(s, i, i + 1);
  }
}
