// Responses: what handle_request announces, how it is serialized and delivered, and that a
// reader following the parser's own rules recovers exactly the file.
module HttpResponses {
  import opened Bytes
  import opened Text
  import opened Paths
  import opened FileCache
  import opened HttpRequests
  import opened HttpRoundTrip
  import opened Packaging

  datatype Status = Ok200 | Created | NotModified | NotFound | SwitchingProtocols | OtherStatus

  function StatusLine(s: Status): seq<byte> {
    match s
    case Ok200 => Lit("200 OK")
    case Created => Lit("201 Created")
    case NotModified => Lit("304 Not Modified")
    case NotFound => Lit("404 Not Found")
    case SwitchingProtocols => Lit("101 Switching Protocols")
    case OtherStatus => Lit("STATUS CODE NOT IMPLEMENTED")
  }

  datatype Header = Header(name: seq<byte>, value: seq<byte>)

  datatype Response = Response(version: Version, status: Status, headers: seq<Header>, body: Path)

  function AddHeader(r: Response, name: seq<byte>, value: seq<byte>): Response {
    r.(headers := r.headers + [Header(name, value)])
  }

  // ---------------------------------------------------------------- serializing

  function HeaderLine(h: Header): seq<byte> {
    h.name + [58, SP] + h.value
  }

  function HeaderLines(hs: seq<Header>): (r: seq<seq<byte>>)
    ensures |r| == |hs|
  {
    seq(|hs|, i requires 0 <= i < |hs| => HeaderLine(hs[i]))
  }

  function FirstLine(r: Response): seq<byte> {
    VersionText(r.version) + [SP] + StatusLine(r.status)
  }

  function Lines(r: Response): seq<seq<byte>> {
    [FirstLine(r)] + HeaderLines(r.headers)
  }

  // The lines of the head, each ended by CRLF, and an empty one.
  function Terminated(lines: seq<seq<byte>>): seq<byte> {
    if lines == [] then [] else lines[0] + CRLF + Terminated(lines[1..])
  }

  lemma {:induction false} TerminatedSnoc(lines: seq<seq<byte>>, line: seq<byte>)
    ensures Terminated(lines + [line]) == Terminated(lines) + (line + CRLF)
    decreases |lines|
  {
    if lines == [] {
      assert ([] + [line])[1..] == [];
    } else {
      TerminatedSnoc(lines[1..], line);
      assert (lines + [line])[1..] == lines[1..] + [line];
    }
  }

  lemma {:induction false} TerminatedIsJoin(lines: seq<seq<byte>>)
    requires lines != []
    ensures Terminated(lines) + CRLF == Join(lines, CRLF) + CRLF2
    decreases |lines|
  {
    if |lines| == 1 {
      assert Terminated(lines[1..]) == [];
      assert lines[0] + CRLF + CRLF == lines[0] + CRLF2;
    } else {
      TerminatedIsJoin(lines[1..]);
      assert lines[0] + CRLF + Terminated(lines[1..]) + CRLF == lines[0] + CRLF + (Terminated(lines[1..]) + CRLF);
      assert lines[0] + CRLF + Join(lines[1..], CRLF) + CRLF2 == lines[0] + CRLF + (Join(lines[1..], CRLF) + CRLF2);
    }
  }

  function Serialized(r: Response): seq<byte> {
    Join(Lines(r), CRLF) + CRLF2
  }

  method Serialize(response: Response) returns (data: seq<byte>, body: Path)
    ensures data == Serialized(response) && body == response.body
  {
    data := [];
    data := data + VersionText(response.version);
    data := data + [SP];
    data := data + StatusLine(response.status);
    data := data + CRLF;
    ghost var done := [FirstLine(response)];
    assert data == Terminated(done) by {
      assert done[1..] == [];
      assert data == FirstLine(response) + CRLF + [];
    }
    for i := 0 to |response.headers|
      invariant data == Terminated(done)
      invariant done == Lines(response)[..i + 1]
    {
      var header := response.headers[i];
      TerminatedSnoc(done, HeaderLine(header));
      ghost var before := data;
      data := data + header.name;
      data := data + [58];
      data := data + [SP];
      data := data + header.value;
      data := data + CRLF;
      assert data == before + (HeaderLine(header) + CRLF);
      done := done + [HeaderLine(header)];
    }
    assert done == Lines(response);
    TerminatedIsJoin(done);
    data := data + CRLF;
    body := response.body;
  }

  // ---------------------------------------------------------------- reading a head back

  predicate PlainHeaders(hs: seq<Header>) {
    forall i | 0 <= i < |hs| :: Plain(hs[i].name) && Plain(hs[i].value)
  }

  lemma {:induction false} LinesPlain(r: Response)
    requires PlainHeaders(r.headers)
    ensures PlainLines(Lines(r))
  {
    VersionsRead(r.version);
    StatusLinePlain(r.status);
    forall i | 0 <= i < |r.headers|
      ensures Plain(HeaderLine(r.headers[i])) && HeaderLine(r.headers[i]) != []
    {
    }
  }

  predicate Printing(s: string) {
    forall i | 0 <= i < |s| :: ' ' <= s[i] <= '~'
  }

  lemma {:induction false} LitPlain(s: string)
    requires Printing(s)
    ensures Plain(Lit(s))
  {
  }

  lemma {:induction false} StatusLinePlain(s: Status)
    ensures Plain(StatusLine(s))
  {
    match s
    case Ok200 => LitPlain("200 OK");
    case Created => LitPlain("201 Created");
    case NotModified => LitPlain("304 Not Modified");
    case NotFound => LitPlain("404 Not Found");
    case SwitchingProtocols => LitPlain("101 Switching Protocols");
    case OtherStatus => LitPlain("STATUS CODE NOT IMPLEMENTED");
  }

  // Scanning head and data finds the head without its terminator and exactly the data.
  lemma {:induction false} ResponseScans(r: Response, data: seq<byte>)
    requires PlainHeaders(r.headers)
    ensures Head(Serialized(r) + data) == Ok((Join(Lines(r), CRLF), data))
    ensures Split(Join(Lines(r), CRLF), CRLF) == Lines(r)
  {
    LinesPlain(r);
    HeadReads(Lines(r), false, data);
    assert [] + (Join(Lines(r), CRLF) + CRLF2 + data) == Serialized(r) + data;
  }

  function ContentLength(n: nat): Header {
    Header(CONTENT_LENGTH, Decimal(n))
  }

  lemma {:induction false} ContentLengthReads(n: nat)
    requires n < USIZE_LIMIT
    ensures ParseField(HeaderLine(ContentLength(n))) == Ok((CONTENT_LENGTH, Decimal(n)))
    ensures ParseUsize(Decimal(n)) == Some(n)
    ensures Plain(CONTENT_LENGTH) && Plain(Decimal(n))
  {
    DecimalParses(n);
    ContentLengthName();
    var line := HeaderLine(ContentLength(n));
    assert line == CONTENT_LENGTH + [58] + ([SP] + Decimal(n));
    SplitOnceAt(CONTENT_LENGTH, 58, [SP] + Decimal(n));
    TrimPadded([SP], Decimal(n), []);
    assert [SP] + Decimal(n) + [] == [SP] + Decimal(n);
  }

  lemma {:induction false} ContentLengthName()
    ensures Plain(CONTENT_LENGTH) && Lacks(CONTENT_LENGTH, 58) && Trimmed(CONTENT_LENGTH)
    ensures ToLower(CONTENT_LENGTH) == CONTENT_LENGTH
  {
    assert forall i | 0 <= i < |CONTENT_LENGTH| :: CONTENT_LENGTH[i] == 45 || 97 <= CONTENT_LENGTH[i] <= 122;
  }

  // A field the parser accepts that does not say how long the body is.
  predicate Neutral(h: Header) {
    ParseField(HeaderLine(h)).Ok? && ParseField(HeaderLine(h)).value.0 != CONTENT_LENGTH
  }

  lemma {:induction false} NeutralFieldsRead(hs: seq<Header>, m: Fields, data: seq<byte>)
    requires forall i | 0 <= i < |hs| :: Neutral(hs[i])
    requires |data| < USIZE_LIMIT
    ensures var r := ReadFields(HeaderLines(hs) + [HeaderLine(ContentLength(|data|))], Reading(m, [], data));
            r.Ok? && r.value.body == data && r.value.rest == []
    decreases |hs|
  {
    var last := [HeaderLine(ContentLength(|data|))];
    if hs == [] {
      LastFieldReads(m, data);
      assert HeaderLines(hs) + last == last;
    } else {
      var (key, value) := ParseField(HeaderLine(hs[0])).value;
      NeutralFieldsRead(hs[1..], m[key := value], data);
      HeaderLinesFirst(hs, last);
      NeutralStep(hs[0], m, data, HeaderLines(hs[1..]) + last, key, value);
    }
  }

  lemma {:induction false} HeaderLinesFirst(hs: seq<Header>, last: seq<seq<byte>>)
    requires hs != []
    ensures HeaderLines(hs) + last == [HeaderLine(hs[0])] + (HeaderLines(hs[1..]) + last)
  {
  }

  lemma {:induction false} ReadOne(line: seq<byte>, p: Reading)
    ensures ReadFields([line], p) == ReadField(line, p)
  {
    assert [line][1..] == [];
  }

  lemma {:induction false} LastFieldReads(m: Fields, data: seq<byte>)
    requires |data| < USIZE_LIMIT
    ensures ReadFields([HeaderLine(ContentLength(|data|))], Reading(m, [], data))
         == Ok(Reading(m[CONTENT_LENGTH := Decimal(|data|)], data, []))
  {
    ReadOne(HeaderLine(ContentLength(|data|)), Reading(m, [], data));
    ContentLengthReads(|data|);
    assert data[..|data|] == data && data[|data|..] == [];
  }

  lemma {:induction false} NeutralStep(h: Header, m: Fields, data: seq<byte>, lines: seq<seq<byte>>, key: seq<byte>, value: seq<byte>)
    requires Neutral(h) && ParseField(HeaderLine(h)).value == (key, value)
    ensures ReadFields([HeaderLine(h)] + lines, Reading(m, [], data))
         == ReadFields(lines, Reading(m[key := value], [], data))
  {
    assert ([HeaderLine(h)] + lines)[1..] == lines;
  }

  // ---------------------------------------------------------------- routing

  // A service answers requests below its path; verb None is any method. Its handler gets the
  // request and what is left of the path.
  datatype Service = Service(path: Path, verb: Option<Method>, handler: (Request, Path) -> Response)

  const NO_ANSWER := Response(V_1_1, NotFound, [], [])

  predicate Serves(s: Service, request: Request) {
    s.path <= Components(request.path) && (s.verb.None? || s.verb == Some(request.verb))
  }

  function HandledBy(s: Service, request: Request): Response
    requires Serves(s, request)
  {
    s.handler(request, Components(request.path)[|s.path|..])
  }

  // The first service that serves the request answers it, and only without one is there no
  // answer.
  method Route(services: seq<Service>, request: Request) returns (answer: Response)
    ensures (forall i | 0 <= i < |services| :: !Serves(services[i], request)) ==> answer == NO_ANSWER
    ensures forall i | 0 <= i < |services| && Serves(services[i], request) ::
              (forall j | 0 <= j < i :: !Serves(services[j], request)) ==> answer == HandledBy(services[i], request)
  {
    for i := 0 to |services|
      invariant forall j | 0 <= j < i :: !Serves(services[j], request)
    {
      if Serves(services[i], request) { return HandledBy(services[i], request); }
    }
    return NO_ANSWER;
  }

  // ---------------------------------------------------------------- answering requests

  const SERVER_FIELD := Header(Lit("server"), Lit("simple-server"))

  class HttpServer {
    const homepage: Path
    const notFound: Path
    const fileSystem: Vfs

    constructor (homepage: Path, notFound: Path, fileSystem: Vfs)
      ensures this.homepage == homepage && this.notFound == notFound && this.fileSystem == fileSystem
    {
      this.homepage, this.notFound, this.fileSystem := homepage, notFound, fileSystem;
    }

    // false where the source exits the process.
    method Init(disk: Tree) returns (ok: bool)
      requires WellFormedTree(disk)
      modifies fileSystem
      ensures var rebuilt := old(fileSystem.files) + Rebuilt(disk);
              && (ok <==> homepage != [] && notFound != [] && homepage in rebuilt && notFound in rebuilt)
              && fileSystem.files == if homepage == [] || notFound == [] then old(fileSystem.files) else rebuilt
    {
      if homepage == [] || notFound == [] { return false; }
      fileSystem.BuildCache(disk);
      var home := fileSystem.Get(homepage);
      if home.None? { return false; }
      var missing := fileSystem.Get(notFound);
      return missing.Some?;
    }

    function Wanted(answer: Response): Path {
      if answer.body == [] then homepage else answer.body
    }

    // answer is what the first matching service returned, or the default 404 response.
    method HandleRequest(answer: Response, timestamp: seq<byte>) returns (response: Response)
      ensures response.version == answer.version
      ensures var w := Wanted(answer);
              if Sane(w) && w in fileSystem.files
              then response.body == w && response.status == answer.status
              else response.body == notFound && response.status == NotFound
      ensures notFound in fileSystem.files ==> response.body in fileSystem.files
      ensures response.body in fileSystem.files ==>
                response.headers == answer.headers
                  + [SERVER_FIELD, Header(Lit("date"), timestamp), ContentLength(|fileSystem.files[response.body]|)]
    {
      response := answer;
      var dropped := false;
      if response.body == [] {
        response := response.(body := homepage);
      }
      var sane := PathIsSane(response.body);
      if !sane { dropped := true; }
      var bodySize: nat := 0;
      var file := fileSystem.Get(response.body);
      match file {
        case Some(data) => bodySize := |data|;
        case None => dropped := true;
      }
      if dropped {
        response := response.(status := NotFound, body := notFound);
        var page := fileSystem.Get(notFound);
        bodySize := if page.Some? then |page.value| else 0;
      }
      response := AddHeader(response, Lit("server"), Lit("simple-server"));
      response := AddHeader(response, Lit("date"), timestamp);
      response := AddHeader(response, CONTENT_LENGTH, Decimal(bodySize));
      assert response.headers == answer.headers + [SERVER_FIELD, Header(Lit("date"), timestamp), ContentLength(bodySize)];
    }

    // From answer to package. Looking up the body cannot fail while the 404 page is cached.
    method Deliver(answer: Response, timestamp: seq<byte>) returns (response: Response, delivery: Package)
      requires notFound in fileSystem.files
      ensures fresh(delivery) && delivery.Valid() && delivery.writ == 0
      ensures Delivered(homepage, notFound, fileSystem.files, answer, timestamp, response, delivery.head, delivery.body)
    {
      response := HandleRequest(answer, timestamp);
      var head, path := Serialize(response);
      var file := fileSystem.Get(path);
      delivery := new Package(head, file.value);
    }
  }

  // What HandleRequest says of a response to be delivered with data.
  predicate Announces(answer: Response, timestamp: seq<byte>, data: seq<byte>, response: Response) {
    response.headers == answer.headers + [SERVER_FIELD, Header(Lit("date"), timestamp), ContentLength(|data|)]
  }

  // The page wanted if it may be had, the 404 page otherwise; the head of the response and
  // the very file that the cache holds for it.
  predicate Delivered(
      homepage: Path, notFound: Path, files: Cache, answer: Response, timestamp: seq<byte>,
      response: Response, head: seq<byte>, body: seq<byte>)
  {
    var wanted := if answer.body == [] then homepage else answer.body;
    && response.version == answer.version
    && (if Sane(wanted) && wanted in files
        then response.body == wanted && response.status == answer.status
        else response.body == notFound && response.status == NotFound)
    && response.body in files && body == files[response.body]
    && head == Serialized(response)
    && Announces(answer, timestamp, body, response)
  }

  lemma {:induction false} PlainConcat(a: seq<Header>, b: seq<Header>)
    requires PlainHeaders(a) && PlainHeaders(b)
    ensures PlainHeaders(a + b)
  {
  }

  lemma {:induction false} AnnouncedPlain(answer: Response, timestamp: seq<byte>, data: seq<byte>, response: Response)
    requires Announces(answer, timestamp, data, response)
    requires PlainHeaders(answer.headers) && Plain(timestamp) && |data| < USIZE_LIMIT
    ensures PlainHeaders(response.headers)
  {
    AddedPlain(timestamp, |data|);
    PlainConcat(answer.headers, [SERVER_FIELD, Header(Lit("date"), timestamp), ContentLength(|data|)]);
  }

  lemma {:induction false} AddedPlain(timestamp: seq<byte>, n: nat)
    requires Plain(timestamp) && n < USIZE_LIMIT
    ensures PlainHeaders([SERVER_FIELD, Header(Lit("date"), timestamp), ContentLength(n)])
  {
    ContentLengthReads(n);
    ServerFieldPlain();
    LitPlain("date");
  }

  lemma {:induction false} ServerFieldPlain()
    ensures PlainHeaders([SERVER_FIELD])
  {
    LitPlain("server");
    LitPlain("simple-server");
  }

  // Delivered head and data: the scanner separates them exactly, and the last field is a
  // content-length that the parser reads as the size of the data.
  lemma {:induction false} DeliveryFraming(answer: Response, timestamp: seq<byte>, data: seq<byte>, response: Response)
    requires Announces(answer, timestamp, data, response)
    requires PlainHeaders(answer.headers) && Plain(timestamp) && |data| < USIZE_LIMIT
    ensures Head(Serialized(response) + data) == Ok((Join(Lines(response), CRLF), data))
    ensures var lines := Split(Join(Lines(response), CRLF), CRLF);
            && ParseField(lines[|lines| - 1]) == Ok((CONTENT_LENGTH, Decimal(|data|)))
            && ParseUsize(Decimal(|data|)) == Some(|data|)
  {
    AnnouncedPlain(answer, timestamp, data, response);
    ResponseScans(response, data);
    ContentLengthReads(|data|);
    var n := |response.headers|;
    assert Lines(response)[n] == HeaderLine(response.headers[n - 1]);
  }

  // If the service set no content-length and only fields the parser accepts, reading the
  // delivered fields takes exactly the data as body and leaves nothing.
  lemma {:induction false} DeliveredBody(answer: Response, timestamp: seq<byte>, data: seq<byte>, response: Response)
    requires Announces(answer, timestamp, data, response)
    requires PlainHeaders(answer.headers) && Plain(timestamp) && |data| < USIZE_LIMIT
    requires forall i | 0 <= i < |answer.headers| :: Neutral(answer.headers[i])
    ensures var lines := Split(Join(Lines(response), CRLF), CRLF);
            var r := ReadFields(lines[1..], Reading(map[], [], data));
            r.Ok? && r.value.body == data && r.value.rest == []
  {
    AnnouncedPlain(answer, timestamp, data, response);
    ResponseScans(response, data);
    AnnouncedReads(answer, timestamp, data, response);
  }

  lemma {:induction false} AnnouncedReads(answer: Response, timestamp: seq<byte>, data: seq<byte>, response: Response)
    requires Announces(answer, timestamp, data, response) && |data| < USIZE_LIMIT
    requires forall i | 0 <= i < |answer.headers| :: Neutral(answer.headers[i])
    ensures var r := ReadFields(Lines(response)[1..], Reading(map[], [], data));
            r.Ok? && r.value.body == data && r.value.rest == []
  {
    var date := Header(Lit("date"), timestamp);
    var hs := answer.headers + [SERVER_FIELD, date];
    AllNeutral(answer.headers, timestamp, date);
    NeutralFieldsRead(hs, map[], data);
    assert response.headers == hs + [ContentLength(|data|)];
    FieldLines(response, hs, ContentLength(|data|));
  }

  lemma {:induction false} FieldLines(response: Response, hs: seq<Header>, last: Header)
    requires response.headers == hs + [last]
    ensures Lines(response)[1..] == HeaderLines(hs) + [HeaderLine(last)]
  {
  }

  lemma {:induction false} NeutralPair(hs: seq<Header>, a: Header, b: Header)
    requires (forall i | 0 <= i < |hs| :: Neutral(hs[i])) && Neutral(a) && Neutral(b)
    ensures forall i | 0 <= i < |hs + [a, b]| :: Neutral((hs + [a, b])[i])
  {
  }

  lemma {:induction false} AllNeutral(hs: seq<Header>, timestamp: seq<byte>, date: Header)
    requires forall i | 0 <= i < |hs| :: Neutral(hs[i])
    requires date == Header(Lit("date"), timestamp)
    ensures forall i | 0 <= i < |hs + [SERVER_FIELD, date]| :: Neutral((hs + [SERVER_FIELD, date])[i])
  {
    ServerFieldNeutral();
    DateNeutral(timestamp, date);
    NeutralPair(hs, SERVER_FIELD, date);
  }

  lemma {:induction false} DateNeutral(timestamp: seq<byte>, date: Header)
    requires date == Header(Lit("date"), timestamp)
    ensures Neutral(date)
  {
    NamedNeutral("date", timestamp, date);
  }

  lemma {:induction false} ServerFieldNeutral()
    ensures Neutral(SERVER_FIELD)
  {
    NamedNeutral("server", Lit("simple-server"), SERVER_FIELD);
  }

  predicate Letters(name: string) {
    forall i | 0 <= i < |name| :: 'a' <= name[i] <= 'z'
  }

  lemma {:induction false} NamedNeutral(name: string, value: seq<byte>, h: Header)
    requires 0 < |name| < 14 && Letters(name) && h == Header(Lit(name), value)
    ensures Neutral(h)
  {
    assert |CONTENT_LENGTH| == 14;
    assert HeaderLine(Header(Lit(name), value)) == Lit(name) + [58] + ([SP] + value);
    SplitOnceAt(Lit(name), 58, [SP] + value);
    assert |ToLower(Lit(name))| < 14;
  }

  // ---------------------------------------------------------------- the 404 page survives

  // A changelog line that does not delete path.
  predicate Spares(line: seq<byte>, path: Path) {
    !(DELETE_TAB <= line && Components(line[|DELETE_TAB|..]) == path)
  }

  // One changelog entry, and the disk it is applied to.
  datatype Change = Change(line: seq<byte>, disk: Tree)

  function Changed(files: Cache, changes: seq<Change>): Cache
    decreases |changes|
  {
    if changes == [] then files
    else Changed(Applied(files, changes[0].line, changes[0].disk), changes[1..])
  }

  // An entry removes a cached page exactly if it is the deletion of that very path.
  lemma {:induction false} ChangeSpares(files: Cache, c: Change, path: Path)
    requires path in files
    ensures path in Applied(files, c.line, c.disk) <==> Spares(c.line, path)
  {
  }

  // A server taking changelog entries and requests in any order.
  datatype Job = Refresh(change: Change) | Answer(answer: Response, timestamp: seq<byte>)

  // Which of the first n jobs are requests.
  function Answers(jobs: seq<Job>, n: nat): (r: seq<nat>)
    requires n <= |jobs|
    ensures forall k | 0 <= k < |r| :: r[k] < n && jobs[r[k]].Answer?
  {
    if n == 0 then [] else Answers(jobs, n - 1) + if jobs[n - 1].Answer? then [n - 1] else []
  }

  // The answers are the requests among the first n jobs, all of them, in order.
  predicate Listed(jobs: seq<Job>, n: nat)
    requires n <= |jobs|
  {
    && (forall i | 0 <= i < n && jobs[i].Answer? :: i in Answers(jobs, n))
    && (forall j, k | 0 <= j < k < |Answers(jobs, n)| :: Answers(jobs, n)[j] < Answers(jobs, n)[k])
  }

  lemma {:induction false} AnswersInOrder(jobs: seq<Job>, n: nat)
    requires n <= |jobs|
    ensures Listed(jobs, n)
  {
    if n > 0 {
      AnswersInOrder(jobs, n - 1);
    }
  }

  // The changelog entries among the first n jobs.
  function Refreshes(jobs: seq<Job>, n: nat): seq<Change>
    requires n <= |jobs|
  {
    if n == 0 then [] else Refreshes(jobs, n - 1) + if jobs[n - 1].Refresh? then [jobs[n - 1].change] else []
  }

  lemma {:induction false} ChangedSnoc(files: Cache, changes: seq<Change>, c: Change)
    ensures Changed(files, changes + [c]) == Applied(Changed(files, changes), c.line, c.disk)
    decreases |changes|
  {
    if changes == [] {
      assert [] + [c] == [c] && [c][1..] == [];
    } else {
      ChangedSnoc(Applied(files, changes[0].line, changes[0].disk), changes[1..], c);
      assert (changes + [c])[1..] == changes[1..] + [c];
    }
  }

  // The job is answered out of the cache as the entries before it have left it.
  predicate Resolves(
      homepage: Path, notFound: Path, files: Cache, jobs: seq<Job>, i: nat, response: Response, head: seq<byte>, body: seq<byte>)
    requires i < |jobs| && jobs[i].Answer?
  {
    Delivered(homepage, notFound, Changed(files, Refreshes(jobs, i)), jobs[i].answer, jobs[i].timestamp, response, head, body)
  }

  // No entry deletes the 404 page.
  predicate AllSpare(jobs: seq<Job>, notFound: Path) {
    forall i | 0 <= i < |jobs| && jobs[i].Refresh? :: Spares(jobs[i].change.line, notFound)
  }

  // Every request among the first n jobs, in order, by its own response and package.
  predicate AllResolve(
      homepage: Path, notFound: Path, files: Cache, jobs: seq<Job>, n: nat, responses: seq<Response>, deliveries: seq<Package>)
    requires n <= |jobs|
  {
    var answers := Answers(jobs, n);
    && |responses| == |deliveries| == |answers|
    && forall k | 0 <= k < |answers| ::
         Resolves(homepage, notFound, files, jobs, answers[k], responses[k], deliveries[k].head, deliveries[k].body)
  }

  lemma {:induction false} RefreshResolves(
      homepage: Path, notFound: Path, files: Cache, jobs: seq<Job>, n: nat, responses: seq<Response>, deliveries: seq<Package>)
    requires n < |jobs| && jobs[n].Refresh?
    requires AllResolve(homepage, notFound, files, jobs, n, responses, deliveries)
    ensures AllResolve(homepage, notFound, files, jobs, n + 1, responses, deliveries)
  {
    assert Answers(jobs, n + 1) == Answers(jobs, n);
  }

  lemma {:induction false} AnswerResolves(
      homepage: Path, notFound: Path, files: Cache, jobs: seq<Job>, n: nat, responses: seq<Response>, deliveries: seq<Package>,
      response: Response, d: Package)
    requires n < |jobs| && jobs[n].Answer?
    requires AllResolve(homepage, notFound, files, jobs, n, responses, deliveries)
    requires Resolves(homepage, notFound, files, jobs, n, response, d.head, d.body)
    ensures AllResolve(homepage, notFound, files, jobs, n + 1, responses + [response], deliveries + [d])
  {
    assert Answers(jobs, n + 1) == Answers(jobs, n) + [n];
  }

  method ServeJobs(server: HttpServer, jobs: seq<Job>) returns (responses: seq<Response>, deliveries: seq<Package>)
    requires server.notFound in server.fileSystem.files && AllSpare(jobs, server.notFound)
    modifies server.fileSystem
    ensures server.fileSystem.files == Changed(old(server.fileSystem.files), Refreshes(jobs, |jobs|))
    ensures Listed(jobs, |jobs|)
    ensures AllResolve(server.homepage, server.notFound, old(server.fileSystem.files), jobs, |jobs|, responses, deliveries)
    ensures forall k | 0 <= k < |deliveries| :: deliveries[k].writ == 0
  {
    responses, deliveries := [], [];
    ghost var files := server.fileSystem.files;
    for i := 0 to |jobs|
      invariant server.notFound in server.fileSystem.files
      invariant server.fileSystem.files == Changed(files, Refreshes(jobs, i))
      invariant AllResolve(server.homepage, server.notFound, files, jobs, i, responses, deliveries)
      invariant forall k | 0 <= k < |deliveries| :: fresh(deliveries[k]) && deliveries[k].writ == 0
    {
      responses, deliveries := TakeJob(server, files, jobs, i, responses, deliveries);
    }
    AnswersInOrder(jobs, |jobs|);
  }

  method TakeJob(
      server: HttpServer, ghost files: Cache, jobs: seq<Job>, i: nat, responses0: seq<Response>, deliveries0: seq<Package>)
    returns (responses: seq<Response>, deliveries: seq<Package>)
    requires i < |jobs| && AllSpare(jobs, server.notFound) && server.notFound in server.fileSystem.files
    requires server.fileSystem.files == Changed(files, Refreshes(jobs, i))
    requires AllResolve(server.homepage, server.notFound, files, jobs, i, responses0, deliveries0)
    modifies server.fileSystem
    ensures server.notFound in server.fileSystem.files
    ensures server.fileSystem.files == Changed(files, Refreshes(jobs, i + 1))
    ensures AllResolve(server.homepage, server.notFound, files, jobs, i + 1, responses, deliveries)
    ensures deliveries0 <= deliveries
    ensures forall k | |deliveries0| <= k < |deliveries| :: fresh(deliveries[k]) && deliveries[k].writ == 0
  {
    responses, deliveries := responses0, deliveries0;
    match jobs[i] {
      case Refresh(_) =>
        ApplyChange(server, files, jobs, i);
        RefreshResolves(server.homepage, server.notFound, files, jobs, i, responses, deliveries);
      case Answer(_, _) =>
        var response, d := AnswerJob(server, files, jobs, i, responses, deliveries);
        responses := responses + [response];
        deliveries := deliveries + [d];
    }
  }

  method AnswerJob(
      server: HttpServer, ghost files: Cache, jobs: seq<Job>, i: nat, ghost responses: seq<Response>, ghost deliveries: seq<Package>)
    returns (response: Response, d: Package)
    requires i < |jobs| && jobs[i].Answer? && server.notFound in server.fileSystem.files
    requires server.fileSystem.files == Changed(files, Refreshes(jobs, i))
    requires AllResolve(server.homepage, server.notFound, files, jobs, i, responses, deliveries)
    ensures fresh(d) && d.Valid() && d.writ == 0
    ensures server.fileSystem.files == Changed(files, Refreshes(jobs, i + 1))
    ensures AllResolve(server.homepage, server.notFound, files, jobs, i + 1, responses + [response], deliveries + [d])
  {
    assert Refreshes(jobs, i + 1) == Refreshes(jobs, i);
    response, d := server.Deliver(jobs[i].answer, jobs[i].timestamp);
    AnswerResolves(server.homepage, server.notFound, files, jobs, i, responses, deliveries, response, d);
  }

  method ApplyChange(server: HttpServer, ghost files: Cache, jobs: seq<Job>, i: nat)
    requires i < |jobs| && jobs[i].Refresh? && AllSpare(jobs, server.notFound)
    requires server.notFound in server.fileSystem.files
    requires server.fileSystem.files == Changed(files, Refreshes(jobs, i))
    modifies server.fileSystem
    ensures server.notFound in server.fileSystem.files
    ensures server.fileSystem.files == Changed(files, Refreshes(jobs, i + 1))
  {
    var c := jobs[i].change;
    ChangeSpares(server.fileSystem.files, c, server.notFound);
    ChangedSnoc(files, Refreshes(jobs, i), c);
    server.fileSystem.ApplyDiff(c.line, c.disk);
  }

  // From the start: every request resolves, whatever the disk and the run.
  method StartAndServe(server: HttpServer, disk: Tree, jobs: seq<Job>)
    returns (ok: bool, responses: seq<Response>, deliveries: seq<Package>)
    requires WellFormedTree(disk) && AllSpare(jobs, server.notFound)
    modifies server.fileSystem
    ensures var cache := old(server.fileSystem.files) + Rebuilt(disk);
            && (ok <==> server.homepage != [] && server.notFound != [] && server.homepage in cache && server.notFound in cache)
            && (ok ==> Listed(jobs, |jobs|) && AllResolve(server.homepage, server.notFound, cache, jobs, |jobs|, responses, deliveries))
  {
    responses, deliveries := [], [];
    ok := server.Init(disk);
    if ok {
      responses, deliveries := ServeJobs(server, jobs);
    }
  }
}
