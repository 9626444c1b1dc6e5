// The text form of HTTP/1.1 requests (sections 2.2, 3, 5 and 6 of RFC 9112): the head
// scanner and the request parser of src/smithy.rs.
module HttpRequests {
  import opened Bytes
  import opened Text

  datatype Method = GET | POST | OTHER

  function ParseMethod(s: seq<byte>): Option<Method> {
    if s == Lit("GET") then Some(GET) else if s == Lit("POST") then Some(POST) else None
  }

  datatype Version = V_1_0 | V_1_1 | V_2_0 | V_3_0

  function VersionText(v: Version): seq<byte> {
    match v
    case V_1_0 => Lit("HTTP/1")
    case V_1_1 => Lit("HTTP/1.1")
    case V_2_0 => Lit("HTTP/2")
    case V_3_0 => Lit("HTTP/3")
  }

  function ParseVersion(s: seq<byte>): Option<Version> {
    var u := ToUpper(s);
    if u == Lit("HTTP/1") then Some(V_1_0)
    else if u == Lit("HTTP/1.1") then Some(V_1_1)
    else if u == Lit("HTTP/2") then Some(V_2_0)
    else if u == Lit("HTTP/3") then Some(V_3_0)
    else None
  }

  type Fields = map<seq<byte>, seq<byte>>

  datatype Request = Request(
    verb: Method, path: seq<byte>, version: Version,
    headers: Fields, queryParams: Fields, body: seq<byte>)

  datatype ParseError =
    | Incomplete | InvalidCharacter | TerminatorNotFound | BareCarriageReturn | BadStatusLine
    | BadMethod | UnknownVersion | BadQuery | MissingValueInField | WhitespaceBeforeColon
    | DeprecatedHeaderFolding | InvalidContentLength | WhiteSpaceAfterStartLine

  // ---------------------------------------------------------------- the head scanner

  // One pass over the bytes: the index of the first CRLFCRLF, or the first offence.
  function ScanFrom(s: seq<byte>, i: nat): (r: Result<nat, ParseError>)
    requires i <= |s|
    ensures r.Ok? ==> i <= r.value && At(s, CRLF2, r.value)
    decreases |s| - i
  {
    if i == |s| then Err(Incomplete)
    else if s[i] == CR then
      if !(i + 1 < |s| && s[i + 1] == LF) then Err(BareCarriageReturn)
      else if At(s, CRLF2, i) then Ok(i)
      else ScanFrom(s, i + 1)
    else if s[i] >= 128 then Err(InvalidCharacter)
    else ScanFrom(s, i + 1)
  }

  // One empty head before the request is ignored.
  function Unled(bytes: seq<byte>): seq<byte> {
    if At(bytes, CRLF2, 0) then bytes[4..] else bytes
  }

  function Head(bytes: seq<byte>): Result<(seq<byte>, seq<byte>), ParseError> {
    var s := Unled(bytes);
    var i :- ScanFrom(s, 0);
    Ok((s[..i], s[i + 4..]))
  }

  method HeaderFromBytes(bytes0: seq<byte>) returns (r: Result<(seq<byte>, seq<byte>), ParseError>)
    ensures r == Head(bytes0)
  {
    var bytes := bytes0;
    if |bytes| >= 4 && bytes[..4] == CRLF2 {
      bytes := bytes[4..];
    }
    var length := |bytes|;
    for index := 0 to length
      invariant bytes == Unled(bytes0)
      invariant ScanFrom(bytes, 0) == ScanFrom(bytes, index)
    {
      if bytes[index] == CR {
        if index + 1 < length && bytes[index + 1] == LF {
          if index + 4 <= length && bytes[index..index + 4] == CRLF2 {
            return Ok((bytes[..index], bytes[index + 4..]));
          }
        } else {
          return Err(BareCarriageReturn);
        }
      } else if bytes[index] >= 128 {
        return Err(InvalidCharacter);
      }
    }
    return Err(Incomplete);
  }

  // Bytes i to n are ASCII and every CR among them is followed by LF.
  predicate Clean(s: seq<byte>, i: nat, n: nat) {
    forall j | i <= j < n && j < |s| :: s[j] < 128 && (s[j] == CR ==> j + 1 < |s| && s[j + 1] == LF)
  }

  lemma {:induction false} ScanFromExact(s: seq<byte>, i: nat, k: nat)
    requires i <= |s|
    ensures ScanFrom(s, i) == Ok(k)
       <==> i <= k && At(s, CRLF2, k) && Clean(s, i, k) && (forall j | i <= j < k :: !At(s, CRLF2, j))
    decreases |s| - i
  {
    if i < |s| {
      ScanFromExact(s, i + 1, k);
      if At(s, CRLF2, i) {
        AtStart(s, i);
      }
    }
  }

  lemma {:induction false} AtStart(s: seq<byte>, i: nat)
    requires At(s, CRLF2, i)
    ensures s[i] == CR && s[i + 1] == LF && s[i + 2] == CR && s[i + 3] == LF
  {
    assert s[i..i + 4][0] == s[i] && s[i..i + 4][1] == s[i + 1];
    assert s[i..i + 4][2] == s[i + 2] && s[i..i + 4][3] == s[i + 3];
  }

  // Success is exactly: a first CRLFCRLF exists and everything before it is clean. Head,
  // terminator and rest then restore the scanned input.
  lemma {:induction false} HeadExact(bytes: seq<byte>, head: seq<byte>, rest: seq<byte>)
    ensures Head(bytes) == Ok((head, rest))
       <==> && Find(Unled(bytes), CRLF2) == Some(|head|)
            && Clean(Unled(bytes), 0, |head|)
            && Unled(bytes) == head + CRLF2 + rest
  {
    var s := Unled(bytes);
    ScanFromExact(s, 0, |head|);
    FindExact(s, CRLF2, |head|);
    CutAt(s, head, rest);
  }

  lemma {:induction false} CutAt(s: seq<byte>, head: seq<byte>, rest: seq<byte>)
    ensures s == head + CRLF2 + rest
       <==> At(s, CRLF2, |head|) && |head| + 4 <= |s| && s[..|head|] == head && s[|head| + 4..] == rest
  {
    var k := |head|;
    if At(s, CRLF2, k) && k + 4 <= |s| {
      assert s == s[..k] + s[k..k + 4] + s[k + 4..];
    }
  }

  // The head is ASCII and holds no CRLFCRLF.
  lemma {:induction false} HeadIsPlain(bytes: seq<byte>)
    requires Head(bytes).Ok?
    ensures Find(Head(bytes).value.0, CRLF2) == None && Ascii(Head(bytes).value.0)
  {
    var (head, rest) := Head(bytes).value;
    var s := Unled(bytes);
    ScanFromExact(s, 0, |head|);
    if Find(head, CRLF2).Some? {
      var j := Find(head, CRLF2).value;
      assert s[j..j + 4] == head[j..j + 4];
      assert At(s, CRLF2, j);
    }
  }

  // Waiting is exactly: no CRLFCRLF yet, and nothing offends so far.
  lemma {:induction false} ScanFromWaits(s: seq<byte>, i: nat)
    requires i <= |s|
    ensures ScanFrom(s, i) == Err(Incomplete)
       <==> Clean(s, i, |s|) && forall j | i <= j :: !At(s, CRLF2, j)
    decreases |s| - i
  {
    if i < |s| {
      ScanFromWaits(s, i + 1);
      if At(s, CRLF2, i) {
        AtStart(s, i);
      }
    }
  }

  // ---------------------------------------------------------------- the request line

  // request_line[1].split_once('?'), and the parameters when there is a query.
  function ParseTarget(target: seq<byte>): Result<(seq<byte>, Fields), ParseError> {
    match SplitOnce(target, 63)
    case None => Ok((target, map[]))
    case Some((path, query)) =>
      var params :- QueryFrom(Split(query, [38]), map[]);
      Ok((path, params))
  }

  function QueryFrom(params: seq<seq<byte>>, m: Fields): Result<Fields, ParseError> {
    if params == [] then Ok(m)
    else
      match SplitOnce(params[0], 61)
      case None => Err(BadQuery)
      case Some((key, value)) => QueryFrom(params[1..], m[key := value])
  }

  method ParseQueryParameters(query: seq<byte>) returns (r: Result<Fields, ParseError>)
    ensures r == QueryFrom(Split(query, [38]), map[])
  {
    var params := Split(query, [38]);
    var m: Fields := map[];
    for i := 0 to |params|
      invariant QueryFrom(params, map[]) == QueryFrom(params[i..], m)
    {
      match SplitOnce(params[i], 61) {
        case None => return Err(BadQuery);
        case Some((key, value)) => m := m[key := value];
      }
    }
    return Ok(m);
  }

  function ParseRequestLine(line: seq<byte>): Result<Request, ParseError> {
    var parts := Split(line, [SP]);
    if |parts| != 3 then Err(BadStatusLine)
    else if ParseMethod(parts[0]).None? then Err(BadMethod)
    else
      var (path, params) :- ParseTarget(parts[1]);
      if EndsWithSpace(parts[2]) then Err(WhiteSpaceAfterStartLine)
      else if ParseVersion(parts[2]).None? then Err(UnknownVersion)
      else Ok(Request(ParseMethod(parts[0]).value, path, ParseVersion(parts[2]).value, map[], params, []))
  }

  // ---------------------------------------------------------------- the field lines

  // What the loop over the field lines carries.
  datatype Reading = Reading(headers: Fields, body: seq<byte>, rest: seq<byte>)

  // key and value of one line.
  function ParseField(line: seq<byte>): Result<(seq<byte>, seq<byte>), ParseError> {
    match SplitOnce(line, 58)
    case None => Err(MissingValueInField)
    case Some((k, v)) =>
      var key := ToLower(k);
      if EndsWithSpace(key) then Err(WhitespaceBeforeColon)
      else if StartsWithSpace(key) then Err(DeprecatedHeaderFolding)
      else Ok((key, Trim(v)))
  }

  const CONTENT_LENGTH: seq<byte> := Lit("content-length")

  function ReadField(line: seq<byte>, p: Reading): Result<Reading, ParseError> {
    var (key, value) :- ParseField(line);
    if key == CONTENT_LENGTH then
      match ParseUsize(value)
      case None => Err(InvalidContentLength)
      case Some(n) =>
        if n > |p.rest| then Err(Incomplete)
        else Ok(Reading(p.headers[key := value], p.rest[..n], p.rest[n..]))
    else Ok(p.(headers := p.headers[key := value]))
  }

  function ReadFields(lines: seq<seq<byte>>, p: Reading): Result<Reading, ParseError> {
    if lines == [] then Ok(p)
    else
      var q :- ReadField(lines[0], p);
      ReadFields(lines[1..], q)
  }

  function Finish(request: Request, p: Reading): (Request, seq<byte>) {
    (request.(headers := p.headers, body := p.body), p.rest)
  }

  // A request from its head and what follows it.
  function Understood(head: seq<byte>, after: seq<byte>): Result<(Request, seq<byte>), ParseError> {
    var lines := Split(head, CRLF);
    var request :- ParseRequestLine(lines[0]);
    var p :- ReadFields(lines[1..], Reading(map[], [], after));
    Ok(Finish(request, p))
  }

  function Deserialize(buf: seq<byte>): Result<(Request, seq<byte>), ParseError> {
    var (head, rest) :- Head(buf);
    Understood(head, rest)
  }

  method DeserializeText(buf: seq<byte>) returns (r: Result<(Request, seq<byte>), ParseError>)
    ensures r == Deserialize(buf)
  {
    var scanned := HeaderFromBytes(buf);
    if scanned.Err? { return Err(scanned.error); }
    var (header, rest) := scanned.value;
    var lines := Split(header, CRLF);
    var requestLine := Split(lines[0], [SP]);
    if |requestLine| != 3 { return Err(BadStatusLine); }
    var verb := ParseMethod(requestLine[0]);
    if verb.None? { return Err(BadMethod); }
    var path, queryParams: Fields := requestLine[1], map[];
    match SplitOnce(requestLine[1], 63) {
      case Some((p, query)) =>
        path := p;
        var parsed := ParseQueryParameters(query);
        if parsed.Err? { return Err(parsed.error); }
        queryParams := parsed.value;
      case None =>
    }
    if EndsWithSpace(requestLine[2]) { return Err(WhiteSpaceAfterStartLine); }
    var version := ParseVersion(requestLine[2]);
    if version.None? { return Err(UnknownVersion); }
    var request := Request(verb.value, path, version.value, map[], queryParams, []);
    assert ParseRequestLine(lines[0]) == Ok(request);
    var fields := ReadFieldLines(lines, rest);
    if fields.Err? { return Err(fields.error); }
    return Ok(Finish(request, fields.value));
  }

  // The loop over the field lines behind the request line.
  method ReadFieldLines(lines: seq<seq<byte>>, rest0: seq<byte>) returns (r: Result<Reading, ParseError>)
    requires lines != []
    ensures r == ReadFields(lines[1..], Reading(map[], [], rest0))
  {
    var headers: Fields, body, rest := map[], [], rest0;
    for i := 1 to |lines|
      invariant ReadFields(lines[1..], Reading(map[], [], rest0)) == ReadFields(lines[i..], Reading(headers, body, rest))
    {
      var split := SplitOnce(lines[i], 58);
      if split.None? { return Err(MissingValueInField); }
      var key, value := ToLower(split.value.0), Trim(split.value.1);
      if EndsWithSpace(key) { return Err(WhitespaceBeforeColon); }
      if StartsWithSpace(key) { return Err(DeprecatedHeaderFolding); }
      if key == CONTENT_LENGTH {
        var contentLength := ParseUsize(value);
        if contentLength.None? { return Err(InvalidContentLength); }
        if contentLength.value > |rest| { return Err(Incomplete); }
        body := rest[..contentLength.value];
        rest := rest[contentLength.value..];
      }
      headers := headers[key := value];
    }
    return Ok(Reading(headers, body, rest));
  }

  // The Parser wrapper: an incomplete request is not an error.
  function ParseHttp(buf: seq<byte>): Result<(Option<Request>, seq<byte>), ParseError> {
    match Deserialize(buf)
    case Ok((request, rest)) => Ok((Some(request), rest))
    case Err(e) => if e.Incomplete? then Ok((None, buf)) else Err(e)
  }
}
