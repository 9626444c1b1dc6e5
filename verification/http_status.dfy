// The status line, read back: which version and which code the bytes of a response carry.
module HttpStatus {
  import opened Bytes
  import opened Text
  import opened Paths
  import opened FileCache
  import opened HttpRequests
  import opened HttpRoundTrip
  import opened HttpResponses
  import opened Handshaking

  // The codes of section 15 of RFC 9110 for the five statuses that have a line of their own.
  function Code(s: Status): Option<nat> {
    match s
    case Ok200 => Some(200)
    case Created => Some(201)
    case NotModified => Some(304)
    case NotFound => Some(404)
    case SwitchingProtocols => Some(101)
    case OtherStatus => None
  }

  // A version, a space, and a code of three digits in front of another space (section 4 of
  // RFC 9112).
  function ReadStatusLine(line: seq<byte>): Option<(Version, nat)> {
    match SplitOnce(line, SP)
    case None => None
    case Some((version, rest)) =>
      match SplitOnce(rest, SP)
      case None => None
      case Some((code, reason)) =>
        if ParseVersion(version).Some? && |code| == 3 && AllDigits(code)
        then Some((ParseVersion(version).value, DigitsValue(code))) else None
  }

  // The status in the bytes of a response, as a client finds it.
  function ReadStatus(bytes: seq<byte>): Option<(Version, nat)> {
    match Head(bytes)
    case Err(_) => None
    case Ok((head, _)) => ReadStatusLine(Split(head, CRLF)[0])
  }

  lemma {:induction false} ThreeDigits(code: seq<byte>)
    requires |code| == 3 && AllDigits(code)
    ensures DigitsValue(code) == 100 * (code[0] as nat - 48) + 10 * (code[1] as nat - 48) + (code[2] as nat - 48)
    ensures Lacks(code, SP)
  {
    var two := code[..2];
    assert two[..1] == [code[0]];
    DigitValue(code[0]);
    assert DigitsValue(two) == 10 * DigitsValue(two[..1]) + (code[1] - 48) as nat;
  }

  // A text of a code of three digits, a space and a reason.
  predicate Coded(text: seq<byte>, n: nat) {
    match SplitOnce(text, SP)
    case None => false
    case Some((code, _)) => |code| == 3 && AllDigits(code) && DigitsValue(code) == n
  }

  lemma {:induction false} CodeCuts(text: string, code: seq<byte>, n: nat)
    requires |text| > 3 && text[3] == ' ' && code == Lit(text)[..3] && AllDigits(code)
    requires n == 100 * (code[0] as nat - 48) + 10 * (code[1] as nat - 48) + (code[2] as nat - 48)
    ensures Coded(Lit(text), n)
  {
    ThreeDigits(code);
    assert Lit(text) == code + [SP] + Lit(text)[4..];
    SplitOnceAt(code, SP, Lit(text)[4..]);
  }

  // The text of a status starts with its code.
  lemma {:induction false} FoundReads()
    ensures Coded(StatusLine(Ok200), 200) && Coded(StatusLine(Created), 201)
  {
    CodeCuts("200 OK", [50, 48, 48], 200);
    CodeCuts("201 Created", [50, 48, 49], 201);
  }

  lemma {:induction false} OthersRead()
    ensures Coded(StatusLine(NotModified), 304) && Coded(StatusLine(NotFound), 404) && Coded(StatusLine(SwitchingProtocols), 101)
  {
    CodeCuts("304 Not Modified", [51, 48, 52], 304);
    CodeCuts("404 Not Found", [52, 48, 52], 404);
    CodeCuts("101 Switching Protocols", [49, 48, 49], 101);
  }

  // Any other text starts with a word.
  lemma {:induction false} OtherReads(text: seq<byte>)
    requires text == StatusLine(OtherStatus)
    ensures SplitOnce(text, SP).Some? && |SplitOnce(text, SP).value.0| == 6
  {
    assert text[..6] == Lit("STATUS") && text[6] == SP;
    assert Lacks(text[..6], SP);
    assert text == text[..6] + [SP] + text[7..];
    SplitOnceAt(text[..6], SP, text[7..]);
  }

  lemma {:induction false} StatusReads(s: Status)
    ensures if Code(s).Some? then Coded(StatusLine(s), Code(s).value) else !exists n :: Coded(StatusLine(s), n)
  {
    FoundReads();
    OthersRead();
    OtherReads(StatusLine(OtherStatus));
  }

  lemma {:induction false} FirstLineReads(r: Response)
    ensures ReadStatusLine(FirstLine(r)) == if Code(r.status).Some? then Some((r.version, Code(r.status).value)) else None
  {
    VersionsRead(r.version);
    SplitOnceAt(VersionText(r.version), SP, StatusLine(r.status));
    StatusReads(r.status);
  }

  // The bytes of a serialized response carry its own version and the code of its status,
  // whatever data follows them.
  lemma {:induction false} SerializedStatus(r: Response, data: seq<byte>)
    requires PlainHeaders(r.headers)
    ensures ReadStatus(Serialized(r) + data) == if Code(r.status).Some? then Some((r.version, Code(r.status).value)) else None
  {
    ResponseScans(r, data);
    FirstLineReads(r);
  }

  // What is delivered says 404 exactly if the page wanted may not be had or is not cached, or
  // the service said so; otherwise it says what the service said.
  lemma {:induction false} DeliveredStatus(
      homepage: Path, notFound: Path, files: Cache, answer: Response, timestamp: seq<byte>,
      response: Response, head: seq<byte>, body: seq<byte>)
    requires Delivered(homepage, notFound, files, answer, timestamp, response, head, body)
    requires PlainHeaders(answer.headers) && Plain(timestamp) && |body| < USIZE_LIMIT
    ensures var wanted := if answer.body == [] then homepage else answer.body;
            var code := if Sane(wanted) && wanted in files then Code(answer.status) else Some(404);
            ReadStatus(head + body) == if code.Some? then Some((answer.version, code.value)) else None
  {
    AnnouncedPlain(answer, timestamp, body, response);
    SerializedStatus(response, body);
  }

  // A service answers what lies below its path, with its method or any, and its handler gets
  // what is left of the path.
  lemma {:induction false} ServesExact(s: Service, request: Request, rest: Path)
    ensures Components(request.path) == s.path + rest ==>
              && (Serves(s, request) <==> s.verb.None? || s.verb.value == request.verb)
              && (Serves(s, request) ==> HandledBy(s, request) == s.handler(request, rest))
    ensures !(s.path <= Components(request.path)) ==> !Serves(s, request)
  {
    if Components(request.path) == s.path + rest {
      assert Components(request.path)[|s.path|..] == rest;
    }
  }

  // A request that no service answers is answered with the home page, if that may be had, and
  // says 404 all the same.
  lemma {:induction false} UnservedStatus(
      homepage: Path, notFound: Path, files: Cache, timestamp: seq<byte>, response: Response, head: seq<byte>, body: seq<byte>)
    requires Delivered(homepage, notFound, files, NO_ANSWER, timestamp, response, head, body)
    requires Plain(timestamp) && |body| < USIZE_LIMIT
    ensures ReadStatus(head + body) == Some((V_1_1, 404))
    ensures response.body == if Sane(homepage) && homepage in files then homepage else notFound
  {
    DeliveredStatus(homepage, notFound, files, NO_ANSWER, timestamp, response, head, body);
  }

  // The answer to an upgrade says 101.
  lemma {:induction false} UpgradeStatus(key: seq<byte>, accept: AcceptFn, frames: seq<byte>)
    requires Plain(accept(key))
    ensures ReadStatus(Upgrade(key, accept) + frames) == Some((V_1_1, 101))
  {
    LitPlain("Upgrade");
    LitPlain("websocket");
    LitPlain("Connection");
    LitPlain("Sec-WebSocket-Accept");
    SerializedStatus(UpgradeResponse(accept(key)), frames);
  }

  // ---------------------------------------------------------------- whole answers, as bytes

  lemma {:induction false} JoinFour(a: seq<byte>, b: seq<byte>, c: seq<byte>, d: seq<byte>)
    ensures Join([a, b, c, d], CRLF) + CRLF2 == (a + CRLF) + (b + CRLF) + (c + CRLF) + (d + CRLF2)
  {
    assert [a, b, c, d][1..] == [b, c, d] && [b, c, d][1..] == [c, d] && [c, d][1..] == [d];
    assert Join([c, d], CRLF) == c + CRLF + d;
    assert Join([b, c, d], CRLF) == b + CRLF + Join([c, d], CRLF);
    assert Join([a, b, c, d], CRLF) == a + CRLF + Join([b, c, d], CRLF);
  }

  lemma {:induction false} FirstLineBytes(s: Status, text: string)
    requires StatusLine(s) == Lit(text)
    ensures FirstLine(Response(V_1_1, s, [], [])) == Lit("HTTP/1.1 ") + Lit(text)
  {
    assert Lit("HTTP/1.1") + [SP] == Lit("HTTP/1.1 ");
  }

  // The response of section 4.2.2 of RFC 6455, line by line.
  lemma {:induction false} UpgradeBytes(key: seq<byte>, accept: AcceptFn)
    ensures Upgrade(key, accept)
         == (Lit("HTTP/1.1 ") + Lit("101 Switching Protocols") + CRLF) + (Lit("Upgrade: ") + Lit("websocket") + CRLF)
            + (Lit("Connection: ") + Lit("Upgrade") + CRLF) + (Lit("Sec-WebSocket-Accept: ") + accept(key) + CRLF2)
  {
    var r := UpgradeResponse(accept(key));
    FirstLineBytes(SwitchingProtocols, "101 Switching Protocols");
    assert Lit("Upgrade") + [58, SP] == Lit("Upgrade: ");
    assert Lit("Connection") + [58, SP] == Lit("Connection: ");
    assert Lit("Sec-WebSocket-Accept") + [58, SP] == Lit("Sec-WebSocket-Accept: ");
    assert Lines(r) == [FirstLine(r), Lit("Upgrade: ") + Lit("websocket"), Lit("Connection: ") + Lit("Upgrade"),
                        Lit("Sec-WebSocket-Accept: ") + accept(key)];
    JoinFour(FirstLine(r), Lit("Upgrade: ") + Lit("websocket"), Lit("Connection: ") + Lit("Upgrade"),
             Lit("Sec-WebSocket-Accept: ") + accept(key));
  }

  // The head of the 404 page, line by line, when the service has set no fields.
  lemma {:induction false} MissingPageBytes(timestamp: seq<byte>, n: nat, body: Path)
    ensures Serialized(Response(V_1_1, NotFound, [SERVER_FIELD, Header(Lit("date"), timestamp), ContentLength(n)], body))
         == (Lit("HTTP/1.1 ") + Lit("404 Not Found") + CRLF) + (Lit("server: ") + Lit("simple-server") + CRLF)
            + (Lit("date: ") + timestamp + CRLF) + (Lit("content-length: ") + Decimal(n) + CRLF2)
  {
    var r := Response(V_1_1, NotFound, [SERVER_FIELD, Header(Lit("date"), timestamp), ContentLength(n)], body);
    FirstLineBytes(NotFound, "404 Not Found");
    assert Lit("server") + [58, SP] == Lit("server: ");
    assert Lit("date") + [58, SP] == Lit("date: ");
    assert CONTENT_LENGTH + [58, SP] == Lit("content-length: ");
    assert Lines(r) == [FirstLine(r), Lit("server: ") + Lit("simple-server"), Lit("date: ") + timestamp,
                        Lit("content-length: ") + Decimal(n)];
    JoinFour(FirstLine(r), Lit("server: ") + Lit("simple-server"), Lit("date: ") + timestamp, Lit("content-length: ") + Decimal(n));
  }
}
