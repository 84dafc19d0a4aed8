/**
  The requests that the gateway sends to the backend and the responses that
  come back: printed on one side, read in arbitrary pieces and parsed on the
  other (section 6.2 of RFC 9112).
 */
module HttpWire {
  import opened Chunks
  import opened Decimal
  import opened HttpText

  // ---- sockets ----

  /** The reading end of a connection: what each read will give, then the end. */
  class Socket {
    var chunks: seq<string>

    ghost predicate Valid()
      reads this
    {
      Pieces(chunks)
    }

    ghost function Stream(): string
      reads this
    {
      Joined(chunks)
    }

    /** The next piece, or nothing at the end. */
    method Read() returns (piece: string)
      requires Valid()
      modifies this
      ensures Valid() && old(Stream()) == piece + Stream()
      ensures piece == "" <==> old(Stream()) == ""
      ensures old(chunks) == (if piece == "" then [] else [piece]) + chunks
    {
      if chunks == [] {
        return "";
      }
      piece := chunks[0];
      chunks := chunks[1..];
    }
  }

  /** The writing end: how much each write will take before the connection fails. */
  class Sink {
    var accepts: seq<nat>
    var received: string

    /** Takes what it accepts of the data, or fails. */
    method Write(data: string) returns (n: int)
      modifies this
      ensures old(accepts) == [] ==> n == -1 && received == old(received) && accepts == []
      ensures old(accepts) != [] ==>
                && n == (if old(accepts)[0] < |data| then old(accepts)[0] else |data|)
                && received == old(received) + data[..n] && accepts == old(accepts)[1..]
    {
      if accepts == [] {
        return -1;
      }
      n := if accepts[0] < |data| then accepts[0] else |data|;
      received := received + data[..n];
      accepts := accepts[1..];
    }
  }

  /** The bytes a connection will take before a write fails or takes nothing. */
  function Room(accepts: seq<nat>): nat {
    if accepts == [] || accepts[0] == 0 then 0 else accepts[0] + Room(accepts[1..])
  }

  /** Everything is sent exactly if the connection has room for it; otherwise what there is room for. */
  method SendAll(sink: Sink, data: string) returns (ok: bool)
    modifies sink
    ensures ok <==> |data| <= Room(old(sink.accepts))
    ensures sink.received == old(sink.received) + if ok then data else data[..Room(old(sink.accepts))]
  {
    var sent := 0;
    while sent < |data|
      invariant sent <= |data| && sink.received == old(sink.received) + data[..sent]
      invariant if sent < |data| then Room(old(sink.accepts)) == sent + Room(sink.accepts) else |data| <= Room(old(sink.accepts))
      decreases |sink.accepts|
    {
      var n := sink.Write(data[sent..]);
      if n <= 0 {
        assert n == 0 ==> data[sent..][..n] == "";
        return false;
      }
      assert data[..sent + n] == data[..sent] + data[sent..][..n];
      sent := sent + n;
    }
    assert data[..|data|] == data;
    return true;
  }

  lemma StartOfStream(all: string, raw: string, rest: string)
    requires all == raw + rest
    ensures Find(raw) == if 0 <= Find(all) <= |raw| - 4 then Find(all) else -1
  {
    FindPrefix(all, |raw|);
    assert all[..|raw|] == raw;
  }

  /** One more piece has come, and the header is not complete yet. */
  lemma NextCut(chunks: seq<string>, k: nat)
    requires Pieces(chunks) && chunks != [] && 0 < k <= |Joined(chunks)|
    ensures k <= |chunks[0]| ==> FirstCut(chunks, k) == |chunks[0]|
    ensures k > |chunks[0]| ==> FirstCut(chunks, k) == |chunks[0]| + FirstCut(chunks[1..], k - |chunks[0]|)
    ensures FirstCut(chunks, k) >= |chunks[0]|
  {}

  /** Reads until the header is complete, or gives up at the end of the stream or beyond the cap. */
  method ReadHeader(socket: Socket, cap: nat) returns (ok: bool, raw: string)
    requires socket.Valid()
    modifies socket
    ensures socket.Valid()
    ensures ok <==> HeaderTaken(old(socket.chunks), cap)
    ensures ok ==> raw + socket.Stream() == old(socket.Stream()) && Find(raw) >= 0 && Find(raw) == Find(old(socket.Stream()))
  {
    hide Find, Joined, FirstCut;
    raw := "";
    ghost var all := socket.Stream();
    ghost var cut := if Find(all) < 0 then 0 else FirstCut(socket.chunks, Find(all) + 4);
    StartOfStream(all, raw, socket.Stream());
    while Find(raw) < 0
      invariant socket.Valid() && raw + socket.Stream() == all
      invariant Find(raw) == if 0 <= Find(all) <= |raw| - 4 then Find(all) else -1
      invariant Find(all) >= 0 ==> cut == |raw| + if Find(raw) < 0 then FirstCut(socket.chunks, Find(all) + 4 - |raw|) else 0
      invariant Find(raw) >= 0 ==> cut <= cap
      decreases |socket.chunks|
    {
      if Find(all) >= 0 && socket.chunks != [] {
        NextCut(socket.chunks, Find(all) + 4 - |raw|);
      }
      var n := socket.Read();
      if n == "" {
        assert raw + "" == raw;
        return false, raw;
      }
      StartOfStream(all, raw + n, socket.Stream());
      raw := raw + n;
      if |raw| > cap {
        return false, raw;
      }
    }
    return true, raw;
  }

  /** Reads on until the body is complete. */
  method ReadBody(socket: Socket, prefix: string, length: nat) returns (ok: bool, body: string)
    requires socket.Valid()
    modifies socket
    ensures ok <==> length <= |prefix + old(socket.Stream())|
    ensures ok ==> body == (prefix + old(socket.Stream()))[..length]
  {
    body := prefix;
    ghost var all := prefix + socket.Stream();
    while |body| < length
      invariant socket.Valid() && body + socket.Stream() == all
      decreases |socket.chunks|
    {
      var n := socket.Read();
      if n == "" {
        return false, body;
      }
      assert body + (n + socket.Stream()) == (body + n) + socket.Stream();
      body := body + n;
    }
    assert body[..length] == all[..length];
    body := body[..length];
    return true, body;
  }

  // ---- requests ----

  datatype Request = Request(verb: string, path: string, query: string, headers: map<string, string>, body: string)

  /** A parsed message, a message turned away, or an exception from a malformed number. */
  datatype Outcome<T> = Parsed(value: T) | Refused | Thrown

  datatype Fields = Fields(headers: map<string, string>, length: nat)

  function QueryPos(s: string): (i: int)
    ensures -1 <= i < |s|
  {
    if s == [] then -1
    else if s[0] == '?' then 0
    else
      var i := QueryPos(s[1..]);
      if i < 0 then -1 else i + 1
  }

  function Target(target: string): (string, string) {
    var i := QueryPos(target);
    if i < 0 then (target, "") else (target[..i], target[i + 1..])
  }

  /** The header fields up to an empty line; a later field of the same name wins. */
  function ParseFields(lines: seq<string>, headers: map<string, string>, length: nat): Outcome<Fields> {
    if lines == [] || lines[0] == "" then Parsed(Fields(headers, length))
    else if Colon(lines[0]) < 0 then ParseFields(lines[1..], headers, length)
    else
      var key := Trim(lines[0][..Colon(lines[0])]);
      var value := Trim(lines[0][Colon(lines[0]) + 1..]);
      if key != "Content-Length" then ParseFields(lines[1..], headers[key := value], length)
      else if Stoul(value).Number? then ParseFields(lines[1..], headers[key := value], Stoul(value).value)
      else Thrown
  }

  function WithBody(verb: string, target: string, fields: Outcome<Fields>, rest: string): Outcome<Request> {
    match fields
    case Refused => Refused
    case Thrown => Thrown
    case Parsed(f) =>
      if |rest| < f.length then Refused
      else Parsed(Request(verb, Target(target).0, Target(target).1, f.headers, rest[..f.length]))
  }

  /** What the bytes of a request mean, however they arrive. */
  function ParseRequest(stream: string): Outcome<Request> {
    var end := Find(stream);
    if end <= 0 then Refused
    else
      var lines := LinesOf(stream[..end]);
      var verb := Token(lines[0]).0;
      var target := Token(Token(lines[0]).1).0;
      if verb == "" || target == "" then Refused
      else WithBody(verb, target, ParseFields(lines[1..], map[], 0), stream[end + 4..])
  }

  /** Splits off the next line of a non-empty text. */
  method GetLine(text: string) returns (line: string, rest: string)
    requires text != ""
    ensures LinesOf(text) == [line] + LinesOf(rest) && |rest| < |text|
  {
    line := Chomp(text[..LineFeed(text)]);
    rest := AfterLine(text);
  }

  method ReadFields(text: string) returns (r: Outcome<Fields>)
    ensures r == ParseFields(LinesOf(text), map[], 0)
  {
    var headers: map<string, string> := map[];
    var length := 0;
    var rest := text;
    while rest != ""
      invariant ParseFields(LinesOf(text), map[], 0) == ParseFields(LinesOf(rest), headers, length)
      decreases |rest|
    {
      var headerLine, later := GetLine(rest);
      assert LinesOf(rest)[0] == headerLine && LinesOf(rest)[1..] == LinesOf(later);
      rest := later;
      hide LinesOf, Trim, Stoul;
      if headerLine == "" {
        return Parsed(Fields(headers, length));
      }
      var colon := Colon(headerLine);
      if colon < 0 {
        continue;
      }
      var key, value := Trim(headerLine[..colon]), Trim(headerLine[colon + 1..]);
      headers := headers[key := value];
      if key == "Content-Length" {
        var number := Stoul(value);
        if !number.Number? {
          return Thrown;
        }
        length := number.value;
      }
    }
    assert LinesOf("") == [];
    return Parsed(Fields(headers, length));
  }

  const REQUEST_CAP: nat := 1024 * 1024

  /** What a stream cut into these pieces means. */
  function RequestOf(chunks: seq<string>): Outcome<Request> {
    if HeaderTaken(chunks, REQUEST_CAP) then ParseRequest(Joined(chunks)) else Refused
  }

  lemma NoHeaderNoRequest(all: string)
    requires Find(all) < 0
    ensures ParseRequest(all) == Refused
  {}

  /**
    Requests are read the same way however they are cut into pieces, exactly
    if they are malformed anyway or no piece can reach from inside the header
    beyond the cap; then the bytes alone decide.
   */
  lemma RequestIndependent(all: string)
    ensures (forall a, b | Cutting(a, all) && Cutting(b, all) :: RequestOf(a) == RequestOf(b))
            <==> ParseRequest(all) == Refused || !Undecided(all, REQUEST_CAP)
    ensures Find(all) < 0 || LatestCut(all) <= REQUEST_CAP ==>
              forall chunks | Cutting(chunks, all) :: RequestOf(chunks) == ParseRequest(all)
    ensures Find(all) + 4 > REQUEST_CAP ==> forall chunks | Cutting(chunks, all) :: RequestOf(chunks) == Refused
  {
    if Find(all) < 0 {
      NoHeaderNoRequest(all);
    }
    hide ParseRequest, HeaderTaken, Find, LatestCut;
    AlwaysTaken(all, REQUEST_CAP);
    NeverTaken(all, REQUEST_CAP);
    if Undecided(all, REQUEST_CAP) {
      var early, late := TakenOrNot(all, REQUEST_CAP);
      assert RequestOf(early) == ParseRequest(all) && RequestOf(late) == Refused;
    }
  }

  /** Reads and parses a request. */
  method ReadHttpRequest(socket: Socket) returns (r: Outcome<Request>)
    requires socket.Valid()
    modifies socket
    ensures r == RequestOf(old(socket.chunks))
  {
    hide Find, LinesOf, ParseFields, Token, Target, HeaderTaken;
    ghost var all := socket.Stream();
    var ok, raw := ReadHeader(socket, REQUEST_CAP);
    if !ok {
      return Refused;
    }
    var headerEnd := Find(raw);
    var header := raw[..headerEnd];
    assert header == all[..headerEnd];
    if header == "" {
      return Refused;
    }
    var requestLine, rest := GetLine(header);
    assert LinesOf(header)[0] == requestLine && LinesOf(header)[1..] == LinesOf(rest);
    var (verb, afterVerb) := Token(requestLine);
    var (target, _) := Token(afterVerb);
    if verb == "" || target == "" {
      return Refused;
    }
    var (path, query) := Target(target);
    var fields := ReadFields(rest);
    match fields
    case Refused => return Refused;
    case Thrown => return Thrown;
    case Parsed(f) =>
      ghost var later := socket.Stream();
      var prefix := raw[headerEnd + 4..];
      assert prefix + later == all[headerEnd + 4..];
      if |prefix| >= f.length {
        assert prefix[..f.length] == (prefix + later)[..f.length];
        return Parsed(Request(verb, path, query, f.headers, prefix[..f.length]));
      }
      var complete, body := ReadBody(socket, prefix, f.length);
      if !complete {
        return Refused;
      }
      return Parsed(Request(verb, path, query, f.headers, body));
  }

  // ---- printing requests ----

  type Field = (string, string)

  function FieldLine(f: Field): string {
    f.0 + ": " + f.1
  }

  function FieldLines(fields: seq<Field>): (lines: seq<string>)
    ensures |lines| == |fields| && forall i | 0 <= i < |fields| :: lines[i] == FieldLine(fields[i])
  {
    if fields == [] then [] else [FieldLine(fields[0])] + FieldLines(fields[1..])
  }

  /** A header that is passed on under some condition. */
  datatype Candidate = Candidate(wanted: bool, name: string, value: string)

  function Given(request: Request, name: string): string {
    if name in request.headers then request.headers[name] else ""
  }

  function ContentType(request: Request): string {
    if "Content-Type" in request.headers then request.headers["Content-Type"] else "application/json"
  }

  /** The fields that the gateway may pass on, in order. */
  function Candidates(request: Request, userId: string, host: string): (c: seq<Candidate>)
    ensures |c| == 8
  {
    [Candidate(true, "Host", host),
     Candidate(true, "Connection", "close"),
     Candidate(userId != "", "X-User-Id", userId),
     Candidate("Content-Type" in request.headers || request.body != "", "Content-Type", ContentType(request)),
     Candidate(Given(request, "Cookie") != "", "Cookie", Given(request, "Cookie")),
     Candidate(Given(request, "X-Forwarded-For") != "", "X-Forwarded-For", Given(request, "X-Forwarded-For")),
     Candidate(Given(request, "User-Agent") != "", "User-Agent", Given(request, "User-Agent")),
     Candidate(request.body != "", "Content-Length", Digits(|request.body|))]
  }

  function Wanted(c: seq<Candidate>): seq<Field> {
    if c == [] then []
    else
      var last := c[|c| - 1];
      Wanted(c[..|c| - 1]) + if last.wanted then [(last.name, last.value)] else []
  }

  function RequestFields(request: Request, userId: string, host: string): seq<Field> {
    Wanted(Candidates(request, userId, host))
  }

  function BuildTarget(request: Request): string {
    if request.query == "" then request.path else request.path + "?" + request.query
  }

  function RequestLine(request: Request): string {
    request.verb + " " + BuildTarget(request) + " HTTP/1.1"
  }

  function RequestText(request: Request, userId: string, host: string): string {
    Lines([RequestLine(request)] + FieldLines(RequestFields(request, userId, host))) + CRLF + request.body
  }

  lemma {:induction false} LinesJoin(a: seq<string>, b: seq<string>)
    ensures Lines(a + b) == Lines(a) + Lines(b)
  {
    if a == [] {
      assert a + b == b;
    } else {
      LinesJoin(a[1..], b);
      assert (a + b)[1..] == a[1..] + b;
      assert a[0] + CRLF + (Lines(a[1..]) + Lines(b)) == a[0] + CRLF + Lines(a[1..]) + Lines(b);
    }
  }

  lemma {:induction false} FieldLinesJoin(a: seq<Field>, b: seq<Field>)
    ensures FieldLines(a + b) == FieldLines(a) + FieldLines(b)
  {}

  /** A printed field is one more line. */
  lemma PrintField(before: string, lines: seq<string>, fields: seq<Field>, f: Field)
    requires before == Lines(lines + FieldLines(fields))
    ensures before + FieldLine(f) + CRLF == Lines(lines + FieldLines(fields + [f]))
  {
    LinesJoin(lines + FieldLines(fields), [FieldLine(f)]);
    FieldLinesJoin(fields, [f]);
    assert FieldLines([f]) == [FieldLine(f)];
    assert Lines([FieldLine(f)]) == FieldLine(f) + CRLF by {
      assert [FieldLine(f)][1..] == [];
    }
    assert lines + FieldLines(fields + [f]) == lines + FieldLines(fields) + [FieldLine(f)];
  }

  /** Prints one field if it is wanted. */
  method Print(oss: string, wanted: bool, name: string, value: string, ghost line: string, ghost done: seq<Candidate>)
    returns (oss': string, ghost done': seq<Candidate>)
    requires oss == Lines([line] + FieldLines(Wanted(done)))
    ensures done' == done + [Candidate(wanted, name, value)] && oss' == Lines([line] + FieldLines(Wanted(done')))
  {
    hide Lines, FieldLines;
    oss' := oss;
    done' := done + [Candidate(wanted, name, value)];
    assert done'[..|done|] == done;
    if wanted {
      PrintField(oss, [line], Wanted(done), (name, value));
      assert Wanted(done') == Wanted(done) + [(name, value)];
      oss' := oss' + (name + ": " + value) + "\r\n";
    } else {
      assert Wanted(done') == Wanted(done) + [] == Wanted(done);
    }
  }

  /** The text that is sent to the backend. */
  method PrintRequest(request: Request, userId: string, host: string) returns (oss: string)
    ensures oss == RequestText(request, userId, host)
  {
    hide Lines, FieldLines, Wanted, Given, ContentType, RequestLine;
    ghost var line := RequestLine(request);
    oss := request.verb + " " + BuildTarget(request) + " HTTP/1.1\r\n";
    FirstPrinted(request);
    ghost var done: seq<Candidate> := [];
    oss, done := Print(oss, true, "Host", host, line, done);
    oss, done := Print(oss, true, "Connection", "close", line, done);
    oss, done := Print(oss, userId != "", "X-User-Id", userId, line, done);
    oss, done := Print(oss, "Content-Type" in request.headers || request.body != "", "Content-Type", ContentType(request), line, done);
    oss, done := Print(oss, Given(request, "Cookie") != "", "Cookie", Given(request, "Cookie"), line, done);
    oss, done := Print(oss, Given(request, "X-Forwarded-For") != "", "X-Forwarded-For", Given(request, "X-Forwarded-For"), line, done);
    oss, done := Print(oss, Given(request, "User-Agent") != "", "User-Agent", Given(request, "User-Agent"), line, done);
    oss, done := Print(oss, request.body != "", "Content-Length", Digits(|request.body|), line, done);
    assert done == Candidates(request, userId, host);
    oss := oss + "\r\n";
    if request.body != "" {
      oss := oss + request.body;
    }
  }

  lemma FirstPrinted(request: Request)
    ensures request.verb + " " + BuildTarget(request) + " HTTP/1.1\r\n" == Lines([RequestLine(request)] + FieldLines(Wanted([])))
  {
    var line := RequestLine(request);
    assert [line] + FieldLines(Wanted([])) == [line] && [line][1..] == [];
    assert Lines([line]) == line + CRLF + Lines([]);
  }

  // ---- the request arrives ----

  predicate GoodValue(v: string) {
    Clean(v, IsTrimmed) && NoBreak(v)
  }

  predicate GoodField(f: Field) {
    f.0 != "" && GoodValue(f.0) && NoColon(f.0) && GoodValue(f.1)
  }

  function FieldMap(fields: seq<Field>, headers: map<string, string>): map<string, string> {
    if fields == [] then headers else FieldMap(fields[1..], headers[fields[0].0 := fields[0].1])
  }

  /** The last announced length. */
  function LengthOf(fields: seq<Field>, length: nat): nat {
    if fields == [] then length
    else LengthOf(fields[1..], if fields[0].0 == "Content-Length" && Stoul(fields[0].1).Number? then Stoul(fields[0].1).value else length)
  }

  lemma OneField(f: Field)
    requires GoodField(f)
    ensures var line := FieldLine(f);
            line != "" && NoBreak(line) && Colon(line) == |f.0| && Trim(line[..|f.0|]) == f.0 && Trim(line[|f.0| + 1..]) == f.1
  {
    var line := FieldLine(f);
    assert line == f.0 + [':'] + ([' '] + f.1);
    ColonAfter(f.0, [' '] + f.1);
    assert line[..|f.0|] == f.0 && line[|f.0| + 1..] == [' '] + f.1;
    StripClean(f.0, IsTrimmed);
    StripSpace(f.1, IsTrimmed);
  }

  /** Printed fields are read back, in order. */
  lemma {:induction false} FieldsBack(fields: seq<Field>, headers: map<string, string>, length: nat)
    requires forall i | 0 <= i < |fields| :: GoodField(fields[i])
    requires forall i | 0 <= i < |fields| && fields[i].0 == "Content-Length" :: Stoul(fields[i].1).Number?
    ensures ParseFields(FieldLines(fields), headers, length) == Parsed(Fields(FieldMap(fields, headers), LengthOf(fields, length)))
  {
    if fields != [] {
      var f := fields[0];
      OneField(f);
      assert FieldLines(fields)[1..] == FieldLines(fields[1..]);
      hide Trim, Stoul, FieldLine, Colon, GoodField;
      FieldsBack(fields[1..], headers[f.0 := f.1],
                 if f.0 == "Content-Length" && Stoul(f.1).Number? then Stoul(f.1).value else length);
    }
  }

  /** A request that the gateway can pass on unchanged. */
  predicate Sendable(request: Request, userId: string, host: string) {
    && request.verb != "" && NoSpace(request.verb)
    && request.path != "" && NoSpace(request.path) && QueryPos(request.path) < 0 && NoSpace(request.query)
    && GoodValue(userId) && GoodValue(host) && |request.body| <= ULONG_MAX
    && forall name | name in request.headers && name in FORWARDED :: GoodValue(request.headers[name])
  }

  /** The headers of a request that the gateway passes on. */
  const FORWARDED: set<string> := {"Content-Type", "Cookie", "X-Forwarded-For", "User-Agent"}

  predicate GoodName(name: string) {
    name != "" && GoodValue(name) && NoColon(name)
  }

  lemma {:induction false} WantedGood(c: seq<Candidate>)
    requires forall i | 0 <= i < |c| :: GoodName(c[i].name) && GoodValue(c[i].value)
    ensures forall i | 0 <= i < |Wanted(c)| :: GoodField(Wanted(c)[i])
  {
    if c != [] {
      WantedGood(c[..|c| - 1]);
      assert GoodName(c[|c| - 1].name) && GoodValue(c[|c| - 1].value);
      hide GoodValue, NoColon;
    }
  }

  lemma FirstNames()
    ensures GoodName("Host") && GoodName("Cookie") && GoodName("Connection") && GoodValue("close")
  {}

  lemma MiddleNames()
    ensures GoodName("X-User-Id") && GoodName("Content-Type") && GoodName("User-Agent")
  {}

  lemma LastNames()
    ensures GoodName("X-Forwarded-For") && GoodName("Content-Length") && GoodValue("application/json")
  {}

  lemma RequestFieldsGood(request: Request, userId: string, host: string)
    requires Sendable(request, userId, host)
    ensures forall i | 0 <= i < |RequestFields(request, userId, host)| :: GoodField(RequestFields(request, userId, host)[i])
  {
    DigitsAreClean(|request.body|);
    FirstNames();
    MiddleNames();
    LastNames();
    assert GoodValue("");
    assert GoodValue(Digits(|request.body|));
    hide GoodName, GoodValue, Digits, Wanted;
    assert GoodValue(Given(request, "Cookie")) && GoodValue(Given(request, "X-Forwarded-For")) && GoodValue(Given(request, "User-Agent"));
    assert GoodValue(ContentType(request));
    hide Given, ContentType;
    WantedGood(Candidates(request, userId, host));
  }

  lemma TargetBack(request: Request)
    requires QueryPos(request.path) < 0
    ensures Target(BuildTarget(request)) == (request.path, request.query)
  {
    if request.query != "" {
      QueryAfter(request.path, request.query);
      var t := BuildTarget(request);
      assert t[..|request.path|] == request.path && t[|request.path| + 1..] == request.query;
    }
  }

  lemma {:induction false} QueryAfter(path: string, query: string)
    requires QueryPos(path) < 0
    ensures QueryPos(path + "?" + query) == |path|
  {
    if path != "" {
      QueryAfter(path[1..], query);
      assert (path + "?" + query)[1..] == path[1..] + "?" + query;
    }
  }

  lemma NoSpaceNoBreak(a: string, b: string)
    ensures NoSpace(a) ==> NoBreak(a)
    ensures NoBreak(a) && NoBreak(b) ==> NoBreak(a + b)
  {}

  lemma RequestLineBack(request: Request)
    requires request.verb != "" && NoSpace(request.verb) && request.path != "" && NoSpace(request.path) && NoSpace(request.query)
    ensures Token(RequestLine(request)) == (request.verb, " " + BuildTarget(request) + " HTTP/1.1")
    ensures Token(" " + BuildTarget(request) + " HTTP/1.1") == (BuildTarget(request), " HTTP/1.1")
    ensures NoBreak(RequestLine(request)) && RequestLine(request) != ""
  {
    var target := BuildTarget(request);
    assert NoSpace(target) && target != "";
    hide Token, BuildTarget;
    var tail := " " + target + " HTTP/1.1";
    assert RequestLine(request) == request.verb + tail;
    TokenIs(request.verb, tail);
    assert tail == [' '] + target + " HTTP/1.1";
    TokenAfterSpace(target, " HTTP/1.1");
    assert NoBreak(" ") && NoBreak(" HTTP/1.1");
    NoSpaceNoBreak(target, " HTTP/1.1");
    NoSpaceNoBreak(" ", target);
    NoSpaceNoBreak(" " + target, " HTTP/1.1");
    NoSpaceNoBreak(request.verb, tail);
  }

  /** The length that is announced last is that of the body. */
  lemma RequestLength(request: Request, userId: string, host: string)
    requires |request.body| <= ULONG_MAX
    ensures var fields := RequestFields(request, userId, host);
            && (forall i | 0 <= i < |fields| && fields[i].0 == "Content-Length" :: Stoul(fields[i].1).Number?)
            && LengthOf(fields, 0) == |request.body|
  {
    var c := Candidates(request, userId, host);
    forall i | 0 <= i < 7
      ensures c[i].name != "Content-Length"
    {
      OtherNames(request, userId, host, i);
    }
    StoulDigits(|request.body|);
    assert c[7] == Candidate(request.body != "", "Content-Length", Digits(|request.body|));
    hide Candidates, Stoul;
    WantedNames(c[..7]);
    var front := Wanted(c[..7]);
    assert Wanted(c) == front + if c[7].wanted then [(c[7].name, c[7].value)] else [];
    var last: seq<Field> := if c[7].wanted then [(c[7].name, c[7].value)] else [];
    NoLength(front, last, 0);
    assert last != [] ==> last[1..] == [];
  }

  lemma {:induction false} WantedNames(c: seq<Candidate>)
    requires forall i | 0 <= i < |c| :: c[i].name != "Content-Length"
    ensures forall i | 0 <= i < |Wanted(c)| :: Wanted(c)[i].0 != "Content-Length"
  {
    if c != [] {
      WantedNames(c[..|c| - 1]);
    }
  }

  lemma OtherNames(request: Request, userId: string, host: string, i: nat)
    requires i < 7
    ensures Candidates(request, userId, host)[i].name != "Content-Length"
  {
    hide Digits, Given, ContentType;
    assert |"Content-Length"| == 14;
  }

  lemma {:induction false} NoLength(a: seq<Field>, b: seq<Field>, length: nat)
    requires forall i | 0 <= i < |a| :: a[i].0 != "Content-Length"
    ensures LengthOf(a + b, length) == LengthOf(b, length)
  {
    if a == [] {
      assert a + b == b;
    } else {
      hide Stoul;
      NoLength(a[1..], b, length);
      assert (a + b)[1..] == a[1..] + b;
    }
  }

  /** The headers that the backend sees. */
  function SentHeaders(request: Request, userId: string, host: string): map<string, string> {
    FieldMap(RequestFields(request, userId, host), map[])
  }

  /** A message of good lines and a body comes apart again. */
  lemma MessageBack(lines: seq<string>, body: string)
    requires lines != [] && GoodLines(lines)
    ensures var stream := Lines(lines) + CRLF + body;
            var end := Find(stream);
            end > 0 && LinesOf(stream[..end]) == lines && stream[end + 4..] == body && end + 4 + |body| == |stream|
  {
    FindBlank(lines, body);
    HeaderAndEnd(lines);
    LinesBack(lines);
    assert Header(lines) != "" by {
      assert lines[0] != "";
    }
    hide Find, Lines, LinesOf, Header;
    var stream := Lines(lines) + CRLF + body;
    assert stream == Header(lines) + CRLF + CRLF + body;
    assert stream[..|Header(lines)|] == Header(lines);
  }

  lemma LinesAreGood(first: string, fields: seq<Field>)
    requires first != "" && NoBreak(first) && forall i | 0 <= i < |fields| :: GoodField(fields[i])
    ensures GoodLines([first] + FieldLines(fields))
  {
    var lines := [first] + FieldLines(fields);
    forall i | 0 <= i < |lines|
      ensures lines[i] != "" && NoBreak(lines[i])
    {
      if i > 0 {
        OneField(fields[i - 1]);
      }
    }
  }

  /** What the gateway prints, the backend reads: verb, path, query, headers, user and body. */
  lemma RequestArrives(request: Request, userId: string, host: string)
    requires Sendable(request, userId, host)
    ensures ParseRequest(RequestText(request, userId, host))
            == Parsed(Request(request.verb, request.path, request.query, SentHeaders(request, userId, host), request.body))
  {
    hide Find, Lines, LinesOf, RequestFields, FieldLines, Token, Target, ParseFields, FieldMap, LengthOf, Stoul,
         GoodField, GoodLines, NoSpace, NoBreak, Wanted, QueryPos;
    var fields := RequestFields(request, userId, host);
    var lines := [RequestLine(request)] + FieldLines(fields);
    RequestFieldsGood(request, userId, host);
    RequestLineBack(request);
    LinesAreGood(RequestLine(request), fields);
    MessageBack(lines, request.body);
    TargetBack(request);
    RequestLength(request, userId, host);
    FieldsBack(fields, map[], 0);
    assert lines[1..] == FieldLines(fields) && lines[0] == RequestLine(request);
    var stream := RequestText(request, userId, host);
    assert request.body[..|request.body|] == request.body;
    assert ParseFields(LinesOf(stream[..Find(stream)])[1..], map[], 0)
        == Parsed(Fields(SentHeaders(request, userId, host), |request.body|));
  }

  /**
    However the printed request is cut into pieces, the backend reads the
    request that was sent, if and only if no piece can reach beyond the cap.
   */
  lemma RequestReceived(request: Request, userId: string, host: string)
    requires Sendable(request, userId, host)
    ensures var text := RequestText(request, userId, host);
            var sent := Request(request.verb, request.path, request.query, SentHeaders(request, userId, host), request.body);
            && Find(text) >= 0
            && ((forall chunks | Cutting(chunks, text) :: RequestOf(chunks) == Parsed(sent)) <==> LatestCut(text) <= REQUEST_CAP)
            && (|text| <= REQUEST_CAP ==> LatestCut(text) <= REQUEST_CAP)
  {
    RequestArrives(request, userId, host);
    var text := RequestText(request, userId, host);
    if Find(text) < 0 {
      NoHeaderNoRequest(text);
    }
    hide ParseRequest, HeaderTaken, Find, RequestText, SentHeaders, Sendable;
    AlwaysTaken(text, REQUEST_CAP);
  }

  predicate DistinctNames(c: seq<Candidate>) {
    forall i, j | 0 <= i < j < |c| :: c[i].name != c[j].name
  }

  lemma {:induction false} FieldMapJoin(a: seq<Field>, b: seq<Field>, headers: map<string, string>)
    ensures FieldMap(a + b, headers) == FieldMap(b, FieldMap(a, headers))
  {
    if a == [] {
      assert a + b == b;
    } else {
      FieldMapJoin(a[1..], b, headers[a[0].0 := a[0].1]);
      assert (a + b)[1..] == a[1..] + b;
    }
  }

  /** Exactly the wanted candidates arrive, each with its value. */
  lemma {:induction false} WantedMap(c: seq<Candidate>)
    requires DistinctNames(c)
    ensures forall i | 0 <= i < |c| && c[i].wanted ::
              c[i].name in FieldMap(Wanted(c), map[]) && FieldMap(Wanted(c), map[])[c[i].name] == c[i].value
    ensures forall name | name in FieldMap(Wanted(c), map[]) :: exists i | 0 <= i < |c| :: c[i].wanted && c[i].name == name
  {
    if c != [] {
      var n := |c| - 1;
      var last := c[n];
      WantedMap(c[..n]);
      var before := FieldMap(Wanted(c[..n]), map[]);
      FieldMapJoin(Wanted(c[..n]), if last.wanted then [(last.name, last.value)] else [], map[]);
      assert FieldMap(Wanted(c), map[]) == if last.wanted then before[last.name := last.value] else before;
      forall name | name in FieldMap(Wanted(c), map[])
        ensures exists i | 0 <= i < |c| :: c[i].wanted && c[i].name == name
      {
        if name in before {
          var i :| 0 <= i < n && c[..n][i].wanted && c[..n][i].name == name;
          assert c[i].wanted && c[i].name == name;
        } else {
          assert c[n].wanted && c[n].name == name;
        }
      }
    }
  }

  lemma CandidateNames(request: Request, userId: string, host: string)
    ensures DistinctNames(Candidates(request, userId, host))
  {
    assert |"Host"| == 4 && |"Connection"| == 10 && |"X-User-Id"| == 9 && |"Content-Type"| == 12 && |"Cookie"| == 6;
    assert |"X-Forwarded-For"| == 15 && |"User-Agent"| == 10 && |"Content-Length"| == 14;
    assert "Connection"[0] == 'C' && "User-Agent"[0] == 'U';
    hide Digits, Given, ContentType;
  }

  /** Each header reaches the backend exactly under its condition, and no other header does. */
  lemma HeadersArrive(request: Request, userId: string, host: string)
    ensures var h := SentHeaders(request, userId, host);
            && "Host" in h && h["Host"] == host && "Connection" in h && h["Connection"] == "close"
            && ("X-User-Id" in h <==> userId != "") && (userId != "" ==> h["X-User-Id"] == userId)
            && ("Content-Type" in h <==> "Content-Type" in request.headers || request.body != "")
            && ("Content-Type" in h ==> h["Content-Type"] == ContentType(request))
            && ("Cookie" in h <==> Given(request, "Cookie") != "") && ("Cookie" in h ==> h["Cookie"] == Given(request, "Cookie"))
            && ("X-Forwarded-For" in h <==> Given(request, "X-Forwarded-For") != "")
            && ("X-Forwarded-For" in h ==> h["X-Forwarded-For"] == Given(request, "X-Forwarded-For"))
            && ("User-Agent" in h <==> Given(request, "User-Agent") != "")
            && ("User-Agent" in h ==> h["User-Agent"] == Given(request, "User-Agent"))
            && ("Content-Length" in h <==> request.body != "")
            && ("Content-Length" in h ==> h["Content-Length"] == Digits(|request.body|))
  {
    CandidateNames(request, userId, host);
    var c := Candidates(request, userId, host);
    WantedMap(c);
    forall i: nat | i < 8
      ensures c[i].name in SentHeaders(request, userId, host) <==> c[i].wanted
      ensures c[i].wanted ==> SentHeaders(request, userId, host)[c[i].name] == c[i].value
    {
      CandidateArrives(request, userId, host, i);
    }
    hide Digits, Given, ContentType, SentHeaders, DistinctNames;
    assert c[0].name == "Host" && c[1].name == "Connection" && c[2].name == "X-User-Id" && c[3].name == "Content-Type";
    assert c[4].name == "Cookie" && c[5].name == "X-Forwarded-For" && c[6].name == "User-Agent" && c[7].name == "Content-Length";
  }

  lemma CandidateArrives(request: Request, userId: string, host: string, i: nat)
    requires i < 8 && DistinctNames(Candidates(request, userId, host))
    ensures var c := Candidates(request, userId, host)[i];
            && (c.name in SentHeaders(request, userId, host) <==> c.wanted)
            && (c.wanted ==> SentHeaders(request, userId, host)[c.name] == c.value)
  {
    var c := Candidates(request, userId, host);
    WantedMap(c);
    hide Candidates, FieldMap, Wanted;
    if c[i].name in SentHeaders(request, userId, host) {
      var j :| 0 <= j < |c| && c[j].wanted && c[j].name == c[i].name;
      assert j == i;
    }
  }

  // ---- the printed texts, character by character ----

  /** A header line, if the field is wanted. */
  function Shown(wanted: bool, name: string, value: string): string {
    if wanted then name + ": " + value + "\r\n" else ""
  }

  lemma WantedStep(first: string, c: seq<Candidate>, i: nat)
    requires i < |c|
    ensures Lines([first] + FieldLines(Wanted(c[..i + 1])))
         == Lines([first] + FieldLines(Wanted(c[..i]))) + Shown(c[i].wanted, c[i].name, c[i].value)
  {
    assert c[..i + 1][..i] == c[..i] && c[..i + 1][i] == c[i];
    var fields := Wanted(c[..i]);
    var f := (c[i].name, c[i].value);
    hide Lines, FieldLines, Shown;
    if c[i].wanted {
      OneMoreField(first, fields, f);
      ShownField(f);
    } else {
      assert fields + [] == fields;
      NotShown(c[i].name, c[i].value, Lines([first] + FieldLines(fields)));
    }
  }

  lemma ShownField(f: Field)
    ensures Shown(true, f.0, f.1) == f.0 + ": " + f.1 + "\r\n"
  {}

  lemma NotShown(name: string, value: string, before: string)
    ensures before + Shown(false, name, value) == before
  {}

  lemma OneMoreField(first: string, fields: seq<Field>, f: Field)
    ensures Lines([first] + FieldLines(fields + [f])) == Lines([first] + FieldLines(fields)) + (f.0 + ": " + f.1 + "\r\n")
  {
    FieldLinesJoin(fields, [f]);
    assert FieldLines([f]) == [FieldLine(f)];
    assert [first] + FieldLines(fields + [f]) == [first] + FieldLines(fields) + [FieldLine(f)];
    LinesJoin([first] + FieldLines(fields), [FieldLine(f)]);
    OneLine(FieldLine(f));
  }

  lemma OneLine(line: string)
    ensures Lines([line]) == line + "\r\n"
  {
    assert [line][1..] == [] && Lines([]) == [];
    assert line + CRLF + [] == line + CRLF;
  }

  /** The text of a request: its line, the header lines in this order, an empty line, the body. */
  lemma RequestTextShown(request: Request, userId: string, host: string)
    ensures var h := request.headers;
            RequestText(request, userId, host)
            == (request.verb + " " + (if request.query == "" then request.path else request.path + "?" + request.query)
                + " HTTP/1.1" + "\r\n")
               + ("Host" + ": " + host + "\r\n")
               + ("Connection" + ": " + "close" + "\r\n")
               + Shown(userId != "", "X-User-Id", userId)
               + Shown("Content-Type" in h || request.body != "", "Content-Type",
                       if "Content-Type" in h then h["Content-Type"] else "application/json")
               + Shown("Cookie" in h && h["Cookie"] != "", "Cookie", if "Cookie" in h then h["Cookie"] else "")
               + Shown("X-Forwarded-For" in h && h["X-Forwarded-For"] != "", "X-Forwarded-For",
                       if "X-Forwarded-For" in h then h["X-Forwarded-For"] else "")
               + Shown("User-Agent" in h && h["User-Agent"] != "", "User-Agent", if "User-Agent" in h then h["User-Agent"] else "")
               + Shown(request.body != "", "Content-Length", Digits(|request.body|))
               + "\r\n" + request.body
  {
    var c, first := Candidates(request, userId, host), RequestLine(request);
    CandidatesShown(request, userId, host);
    FirstLineShown(request);
    NoFieldsShown(first);
    ShownField(("Host", host));
    ShownField(("Connection", "close"));
    hide Lines, FieldLines, Wanted, Candidates, Shown, Digits, RequestLine;
    assert c[..0] == [] && c[..8] == c;
    FourShown(first, c, 0);
    FourShown(first, c, 4);
  }

  lemma NoFieldsShown(first: string)
    ensures Lines([first] + FieldLines(Wanted([]))) == first + "\r\n"
  {
    assert [first] + FieldLines([]) == [first];
    OneLine(first);
  }

  lemma FourShown(first: string, c: seq<Candidate>, i: nat)
    requires i + 4 <= |c|
    ensures Lines([first] + FieldLines(Wanted(c[..i + 4])))
         == Lines([first] + FieldLines(Wanted(c[..i])))
            + Shown(c[i].wanted, c[i].name, c[i].value) + Shown(c[i + 1].wanted, c[i + 1].name, c[i + 1].value)
            + Shown(c[i + 2].wanted, c[i + 2].name, c[i + 2].value) + Shown(c[i + 3].wanted, c[i + 3].name, c[i + 3].value)
  {
    hide Lines, FieldLines, Wanted, Shown;
    WantedStep(first, c, i);
    WantedStep(first, c, i + 1);
    WantedStep(first, c, i + 2);
    WantedStep(first, c, i + 3);
  }

  lemma FirstLineShown(request: Request)
    ensures RequestLine(request)
         == request.verb + " " + (if request.query == "" then request.path else request.path + "?" + request.query) + " HTTP/1.1"
  {}

  lemma CandidatesShown(request: Request, userId: string, host: string)
    ensures var h, c := request.headers, Candidates(request, userId, host);
            && c[0] == Candidate(true, "Host", host) && c[1] == Candidate(true, "Connection", "close")
            && c[2] == Candidate(userId != "", "X-User-Id", userId)
            && c[3] == Candidate("Content-Type" in h || request.body != "", "Content-Type",
                                 if "Content-Type" in h then h["Content-Type"] else "application/json")
            && c[4] == Candidate("Cookie" in h && h["Cookie"] != "", "Cookie", if "Cookie" in h then h["Cookie"] else "")
            && c[5] == Candidate("X-Forwarded-For" in h && h["X-Forwarded-For"] != "", "X-Forwarded-For",
                                 if "X-Forwarded-For" in h then h["X-Forwarded-For"] else "")
            && c[6] == Candidate("User-Agent" in h && h["User-Agent"] != "", "User-Agent",
                                 if "User-Agent" in h then h["User-Agent"] else "")
            && c[7] == Candidate(request.body != "", "Content-Length", Digits(|request.body|))
  {
    hide Digits;
  }

  // ---- responses ----

  datatype Response = Response(status: int, body: string, extra: seq<Field>)

  datatype ResponseFields = ResponseFields(extra: seq<Field>, length: nat)

  const INT_MAX: int := 0x7FFF_FFFF

  /** Reading a signed number of 32 bits; nothing to read gives 0. */
  function ReadInt(text: string): int {
    var s := DropFront(text, IsSpace);
    var signed := s != [] && (s[0] == '+' || s[0] == '-');
    var digits := if signed then s[1..] else s;
    var v: int := Value(digits[..DigitCount(digits)]);
    if signed && s[0] == '-' then (if v > INT_MAX + 1 then -INT_MAX - 1 else -v) else if v > INT_MAX then INT_MAX else v
  }

  /** The status behind the version, 500 if there is no version. */
  function ParseStatus(line: string): int {
    if Token(line).0 == "" then 500 else ReadInt(Token(line).1)
  }

  /** Collects cookies and the announced length. */
  function ParseResponseFields(lines: seq<string>, extra: seq<Field>, length: nat): Outcome<ResponseFields> {
    if lines == [] then Parsed(ResponseFields(extra, length))
    else if Colon(lines[0]) < 0 then ParseResponseFields(lines[1..], extra, length)
    else
      var key := TrimSpaces(lines[0][..Colon(lines[0])]);
      var value := TrimSpaces(lines[0][Colon(lines[0]) + 1..]);
      if key == "Content-Length" then
        if Stoul(value).Number? then ParseResponseFields(lines[1..], extra, Stoul(value).value) else Thrown
      else if key == "Set-Cookie" then ParseResponseFields(lines[1..], extra + [(key, value)], length)
      else ParseResponseFields(lines[1..], extra, length)
  }

  function ResponseBody(status: int, fields: Outcome<ResponseFields>, rest: string): Outcome<Response> {
    match fields
    case Refused => Refused
    case Thrown => Thrown
    case Parsed(f) => if |rest| < f.length then Refused else Parsed(Response(status, rest[..f.length], f.extra))
  }

  function ParseResponse(stream: string): Outcome<Response> {
    var end := Find(stream);
    if end <= 0 then Refused
    else
      var lines := LinesOf(stream[..end]);
      ResponseBody(ParseStatus(lines[0]), ParseResponseFields(lines[1..], [], 0), stream[end + 4..])
  }

  method ReadResponseFields(text: string) returns (r: Outcome<ResponseFields>)
    ensures r == ParseResponseFields(LinesOf(text), [], 0)
  {
    var extra: seq<Field> := [];
    var length := 0;
    var rest := text;
    while rest != ""
      invariant ParseResponseFields(LinesOf(text), [], 0) == ParseResponseFields(LinesOf(rest), extra, length)
      decreases |rest|
    {
      var headerLine, later := GetLine(rest);
      assert LinesOf(rest)[0] == headerLine && LinesOf(rest)[1..] == LinesOf(later);
      rest := later;
      hide LinesOf, TrimSpaces, Stoul;
      var colon := Colon(headerLine);
      if colon < 0 {
        continue;
      }
      var key, value := TrimSpaces(headerLine[..colon]), TrimSpaces(headerLine[colon + 1..]);
      if key == "Content-Length" {
        var number := Stoul(value);
        if !number.Number? {
          return Thrown;
        }
        length := number.value;
      } else if key == "Set-Cookie" {
        extra := extra + [(key, value)];
      }
    }
    assert LinesOf("") == [];
    return Parsed(ResponseFields(extra, length));
  }

  const RESPONSE_CAP: nat := 4 * 1024 * 1024

  /** What a stream cut into these pieces means. */
  function ResponseOf(chunks: seq<string>): Outcome<Response> {
    if HeaderTaken(chunks, RESPONSE_CAP) then ParseResponse(Joined(chunks)) else Refused
  }

  lemma NoHeaderNoResponse(all: string)
    requires Find(all) < 0
    ensures ParseResponse(all) == Refused
  {}

  /** For responses the bytes alone decide under the same condition, with the larger cap. */
  lemma ResponseIndependent(all: string)
    ensures (forall a, b | Cutting(a, all) && Cutting(b, all) :: ResponseOf(a) == ResponseOf(b))
            <==> ParseResponse(all) == Refused || !Undecided(all, RESPONSE_CAP)
    ensures Find(all) < 0 || LatestCut(all) <= RESPONSE_CAP ==>
              forall chunks | Cutting(chunks, all) :: ResponseOf(chunks) == ParseResponse(all)
    ensures Find(all) + 4 > RESPONSE_CAP ==> forall chunks | Cutting(chunks, all) :: ResponseOf(chunks) == Refused
  {
    if Find(all) < 0 {
      NoHeaderNoResponse(all);
    }
    hide ParseResponse, HeaderTaken, Find, LatestCut;
    AlwaysTaken(all, RESPONSE_CAP);
    NeverTaken(all, RESPONSE_CAP);
    if Undecided(all, RESPONSE_CAP) {
      var early, late := TakenOrNot(all, RESPONSE_CAP);
      assert ResponseOf(early) == ParseResponse(all) && ResponseOf(late) == Refused;
    }
  }

  /** Reads and parses a response. */
  method ReadHttpResponse(socket: Socket) returns (r: Outcome<Response>)
    requires socket.Valid()
    modifies socket
    ensures r == ResponseOf(old(socket.chunks))
  {
    hide Find, LinesOf, ParseResponseFields, ParseStatus, HeaderTaken;
    ghost var all := socket.Stream();
    var ok, raw := ReadHeader(socket, RESPONSE_CAP);
    if !ok {
      return Refused;
    }
    var headerEnd := Find(raw);
    var headerPart := raw[..headerEnd];
    assert headerPart == all[..headerEnd];
    if headerPart == "" {
      return Refused;
    }
    var statusLine, rest := GetLine(headerPart);
    assert LinesOf(headerPart)[0] == statusLine && LinesOf(headerPart)[1..] == LinesOf(rest);
    var status := ParseStatus(statusLine);
    var fields := ReadResponseFields(rest);
    match fields
    case Refused => return Refused;
    case Thrown => return Thrown;
    case Parsed(f) =>
      assert raw[headerEnd + 4..] + socket.Stream() == all[headerEnd + 4..];
      var complete, body := ReadBody(socket, raw[headerEnd + 4..], f.length);
      if !complete {
        return Refused;
      }
      return Parsed(Response(status, body, f.extra));
  }

  function ResponseHeader(status: nat, body: string, extra: seq<Field>): seq<Field> {
    [("Content-Type", "application/json; charset=utf-8")] + extra + [("Content-Length", Digits(|body|)), ("Connection", "close")]
  }

  function StatusLine(status: nat): string {
    "HTTP/1.1 " + Digits(status) + " OK"
  }

  function ResponseText(status: nat, body: string, extra: seq<Field>): string {
    Lines([StatusLine(status)] + FieldLines(ResponseHeader(status, body, extra))) + CRLF + body
  }

  lemma StatusPrinted(status: nat)
    ensures "HTTP/1.1 " + Digits(status) + " OK\r\n" == Lines([StatusLine(status)] + FieldLines([]))
  {
    var line := StatusLine(status);
    assert [line] + FieldLines([]) == [line] && [line][1..] == [];
    assert Lines([line]) == line + CRLF + Lines([]);
  }

  method WriteHttpResponse(status: nat, body: string, extra: seq<Field>) returns (oss: string)
    ensures oss == ResponseText(status, body, extra)
  {
    hide Lines, FieldLines, StatusLine;
    ghost var line := [StatusLine(status)];
    ghost var done: seq<Field> := [];
    oss := "HTTP/1.1 " + Digits(status) + " OK\r\n";
    StatusPrinted(status);
    PrintField(oss, line, done, ("Content-Type", "application/json; charset=utf-8"));
    oss := oss + "Content-Type: application/json; charset=utf-8\r\n";
    done := done + [("Content-Type", "application/json; charset=utf-8")];
    for i := 0 to |extra|
      invariant done == [("Content-Type", "application/json; charset=utf-8")] + extra[..i]
      invariant oss == Lines(line + FieldLines(done))
    {
      PrintField(oss, line, done, extra[i]);
      oss := oss + (extra[i].0 + ": " + extra[i].1) + "\r\n";
      done := done + [extra[i]];
    }
    assert extra[..|extra|] == extra;
    PrintField(oss, line, done, ("Content-Length", Digits(|body|)));
    oss := oss + ("Content-Length: " + Digits(|body|)) + "\r\n";
    done := done + [("Content-Length", Digits(|body|))];
    PrintField(oss, line, done, ("Connection", "close"));
    oss := oss + "Connection: close\r\n";
    done := done + [("Connection", "close")];
    assert done == ResponseHeader(status, body, extra);
    oss := oss + "\r\n" + body;
  }

  /** The lines of the extra headers. */
  function ExtraLines(extra: seq<Field>): string {
    if extra == [] then "" else ExtraLines(extra[..|extra| - 1]) + Shown(true, extra[|extra| - 1].0, extra[|extra| - 1].1)
  }

  lemma {:induction false} ExtraPrinted(first: string, before: seq<Field>, extra: seq<Field>)
    ensures Lines([first] + FieldLines(before + extra)) == Lines([first] + FieldLines(before)) + ExtraLines(extra)
  {
    hide Lines, FieldLines, Shown;
    if extra == [] {
      assert before + extra == before;
      assert Lines([first] + FieldLines(before)) + "" == Lines([first] + FieldLines(before));
    } else {
      var n := |extra| - 1;
      ExtraPrinted(first, before, extra[..n]);
      assert before + extra == before + extra[..n] + [extra[n]];
      OneMoreField(first, before + extra[..n], extra[n]);
      ShownField(extra[n]);
    }
  }

  /** The text of a response: its line, the header lines in this order, an empty line, the body. */
  lemma ResponseTextShown(status: nat, body: string, extra: seq<Field>)
    ensures ResponseText(status, body, extra)
         == ("HTTP/1.1 " + Digits(status) + " OK" + "\r\n")
            + Shown(true, "Content-Type", "application/json; charset=utf-8") + ExtraLines(extra)
            + Shown(true, "Content-Length", Digits(|body|)) + Shown(true, "Connection", "close") + "\r\n" + body
  {
    var first := "HTTP/1.1 " + Digits(status) + " OK";
    var f := ("Content-Type", "application/json; charset=utf-8");
    var length, close := ("Content-Length", Digits(|body|)), ("Connection", "close");
    assert ResponseHeader(status, body, extra) == [] + [f] + extra + [length] + [close];
    assert StatusLine(status) == first;
    assert Lines([first] + FieldLines([])) == first + "\r\n" by {
      assert [first] + FieldLines([]) == [first];
      OneLine(first);
    }
    hide Lines, FieldLines, Shown, ExtraLines, Digits, ResponseHeader;
    OneMoreField(first, [], f);
    ExtraPrinted(first, [] + [f], extra);
    OneMoreField(first, [] + [f] + extra, length);
    OneMoreField(first, [] + [f] + extra + [length], close);
    ShownField(f);
    ShownField(length);
    ShownField(close);
  }

  /** The cookies among the extra headers. */
  function Cookies(fields: seq<Field>): seq<Field> {
    if fields == [] then [] else (if fields[0].0 == "Set-Cookie" then [fields[0]] else []) + Cookies(fields[1..])
  }

  predicate PlainField(f: Field) {
    && f.0 != "" && NoBreak(f.0) && NoColon(f.0) && Clean(f.0, c => c == ' ')
    && NoBreak(f.1) && Clean(f.1, c => c == ' ')
  }

  lemma OnePlainField(f: Field)
    requires PlainField(f)
    ensures var line := FieldLine(f);
            && line != "" && NoBreak(line) && Colon(line) == |f.0|
            && TrimSpaces(line[..|f.0|]) == f.0 && TrimSpaces(line[|f.0| + 1..]) == f.1
  {
    var line := FieldLine(f);
    assert line == f.0 + [':'] + ([' '] + f.1);
    ColonAfter(f.0, [' '] + f.1);
    assert line[..|f.0|] == f.0 && line[|f.0| + 1..] == [' '] + f.1;
    StripClean(f.0, c => c == ' ');
    StripSpace(f.1, c => c == ' ');
  }

  /** One printed field in front of others. */
  lemma ResponseFieldBack(fields: seq<Field>, extra: seq<Field>, length: nat)
    requires fields != [] && PlainField(fields[0])
    requires fields[0].0 == "Content-Length" ==> Stoul(fields[0].1).Number?
    ensures var f := fields[0];
            ParseResponseFields(FieldLines(fields), extra, length)
            == ParseResponseFields(FieldLines(fields[1..]), extra + if f.0 == "Set-Cookie" then [f] else [],
                                   if f.0 == "Content-Length" && Stoul(f.1).Number? then Stoul(f.1).value else length)
  {
    var f := fields[0];
    OnePlainField(f);
    hide TrimSpaces, Stoul, FieldLine, Colon, PlainField;
    assert FieldLines(fields)[1..] == FieldLines(fields[1..]);
    assert extra + [] == extra;
  }

  lemma {:induction false} CookiesStep(fields: seq<Field>, extra: seq<Field>)
    requires fields != []
    ensures (extra + if fields[0].0 == "Set-Cookie" then [fields[0]] else []) + Cookies(fields[1..]) == extra + Cookies(fields)
  {
    var first, rest := if fields[0].0 == "Set-Cookie" then [fields[0]] else [], Cookies(fields[1..]);
    assert Cookies(fields) == first + rest;
    hide *;
    assert (extra + first) + rest == extra + (first + rest);
  }

  lemma {:induction false} ResponseFieldsBack(fields: seq<Field>, extra: seq<Field>, length: nat)
    requires forall i | 0 <= i < |fields| :: PlainField(fields[i])
    requires forall i | 0 <= i < |fields| && fields[i].0 == "Content-Length" :: Stoul(fields[i].1).Number?
    ensures ParseResponseFields(FieldLines(fields), extra, length)
            == Parsed(ResponseFields(extra + Cookies(fields), LengthOf(fields, length)))
  {
    if fields == [] {
      assert extra + [] == extra;
    } else {
      var f := fields[0];
      ResponseFieldBack(fields, extra, length);
      hide Stoul, PlainField, ParseResponseFields, FieldLines, Cookies;
      var more := extra + if f.0 == "Set-Cookie" then [f] else [];
      ResponseFieldsBack(fields[1..], more, if f.0 == "Content-Length" && Stoul(f.1).Number? then Stoul(f.1).value else length);
      CookiesStep(fields, extra);
    }
  }

  /** Extra headers that cannot be mistaken for something else. */
  predicate GoodExtra(extra: seq<Field>) {
    forall i | 0 <= i < |extra| :: PlainField(extra[i]) && extra[i].0 != "Content-Length"
  }

  lemma FixedPlain(n: nat)
    ensures PlainField(("Content-Type", "application/json; charset=utf-8"))
    ensures PlainField(("Content-Length", Digits(n)))
    ensures PlainField(("Connection", "close"))
  {
    DigitsAreClean(n);
  }

  lemma FixedNames()
    ensures "Content-Type" != "Content-Length" && "Content-Type" != "Set-Cookie" && "Content-Length" != "Set-Cookie"
    ensures "Connection" != "Content-Length" && "Connection" != "Set-Cookie"
  {
    assert "Connection"[0] != "Set-Cookie"[0];
  }

  lemma ResponseHeaderGood(status: nat, body: string, extra: seq<Field>)
    requires GoodExtra(extra) && |body| <= ULONG_MAX
    ensures forall i | 0 <= i < |ResponseHeader(status, body, extra)| :: PlainField(ResponseHeader(status, body, extra)[i])
    ensures forall i | 0 <= i < |ResponseHeader(status, body, extra)| && ResponseHeader(status, body, extra)[i].0 == "Content-Length" ::
              Stoul(ResponseHeader(status, body, extra)[i].1).Number?
  {
    FixedPlain(|body|);
    FixedNames();
    StoulDigits(|body|);
    hide PlainField, Stoul, Digits;
  }

  lemma {:induction false} CookiesJoin(a: seq<Field>, b: seq<Field>)
    ensures Cookies(a + b) == Cookies(a) + Cookies(b)
  {
    if a == [] {
      assert a + b == b;
    } else {
      var first: seq<Field> := if a[0].0 == "Set-Cookie" then [a[0]] else [];
      assert (a + b)[1..] == a[1..] + b && (a + b)[0] == a[0];
      assert Cookies(a + b) == first + Cookies(a[1..] + b) && Cookies(a) == first + Cookies(a[1..]);
      hide Cookies;
      CookiesJoin(a[1..], b);
      assert first + (Cookies(a[1..]) + Cookies(b)) == first + Cookies(a[1..]) + Cookies(b);
    }
  }

  lemma ResponseCookies(status: nat, body: string, extra: seq<Field>)
    requires GoodExtra(extra) && |body| <= ULONG_MAX
    ensures Cookies(ResponseHeader(status, body, extra)) == Cookies(extra)
    ensures LengthOf(ResponseHeader(status, body, extra), 0) == |body|
  {
    FixedNames();
    StoulDigits(|body|);
    hide Stoul, Digits;
    var first := [("Content-Type", "application/json; charset=utf-8")];
    var last := [("Content-Length", Digits(|body|)), ("Connection", "close")];
    CookiesJoin(first + extra, last);
    CookiesJoin(first, extra);
    assert first[1..] == [] && last[1..] == [("Connection", "close")] && last[1..][1..] == [];
    assert Cookies(first) == [] && Cookies(last[1..]) == [] && Cookies(last) == [];
    NoLength(first + extra, last, 0);
    assert LengthOf(last[1..], |body|) == |body|;
  }

  lemma StatusBack(status: nat)
    requires status <= INT_MAX
    ensures ParseStatus(StatusLine(status)) == status && NoBreak(StatusLine(status)) && StatusLine(status) != ""
  {
    var digits := Digits(status);
    DigitsAreClean(status);
    var line := StatusLine(status);
    assert line == "HTTP/1.1" + (" " + digits + " OK");
    assert NoSpace("HTTP/1.1");
    TokenIs("HTTP/1.1", " " + digits + " OK");
    assert NoBreak("HTTP/1.1 ") && NoBreak(" OK");
    NoSpaceNoBreak("HTTP/1.1 ", digits);
    NoSpaceNoBreak("HTTP/1.1 " + digits, " OK");
    IntBack(status);
  }

  lemma IntBack(n: nat)
    requires n <= INT_MAX
    ensures ReadInt(" " + Digits(n) + " OK") == n
  {
    var digits := Digits(n);
    var s := " " + digits + " OK";
    assert s[1..] == digits + " OK";
    assert IsDigitChar((digits + " OK")[0]);
    assert DropFront(s, IsSpace) == digits + " OK";
    DigitCountFront(digits, " OK");
    assert (digits + " OK")[..|digits|] == digits;
    DigitsRoundTrip(n);
  }

  lemma {:induction false} DigitCountFront(a: string, b: string)
    requires (forall i | 0 <= i < |a| :: IsDigitChar(a[i])) && (b == "" || !IsDigitChar(b[0]))
    ensures DigitCount(a + b) == |a|
  {
    if a == "" {
      assert a + b == b;
    } else {
      DigitCountFront(a[1..], b);
      assert (a + b)[1..] == a[1..] + b;
    }
  }

  /** What the backend prints, the gateway reads: status, body and cookies. */
  lemma ResponseArrives(status: nat, body: string, extra: seq<Field>)
    requires status <= INT_MAX && |body| <= ULONG_MAX && GoodExtra(extra)
    ensures ParseResponse(ResponseText(status, body, extra)) == Parsed(Response(status, body, Cookies(extra)))
  {
    hide Find, Lines, LinesOf, FieldLines, ParseResponseFields, ParseStatus, StatusLine, LengthOf, Stoul, GoodLines, NoBreak, Cookies,
         PlainField, GoodExtra;
    var fields := ResponseHeader(status, body, extra);
    var lines := [StatusLine(status)] + FieldLines(fields);
    ResponseHeaderGood(status, body, extra);
    StatusBack(status);
    PlainLines(StatusLine(status), fields);
    MessageBack(lines, body);
    ResponseCookies(status, body, extra);
    hide ResponseHeader;
    ResponseFieldsBack(fields, [], 0);
    assert lines[1..] == FieldLines(fields) && lines[0] == StatusLine(status);
    assert [] + Cookies(fields) == Cookies(fields);
    assert body[..|body|] == body;
    var stream := ResponseText(status, body, extra);
    assert ParseResponseFields(LinesOf(stream[..Find(stream)])[1..], [], 0) == Parsed(ResponseFields(Cookies(extra), |body|));
  }

  /** However the printed response is cut into pieces, the gateway reads it, under the same condition with the larger cap. */
  lemma ResponseReceived(status: nat, body: string, extra: seq<Field>)
    requires status <= INT_MAX && |body| <= ULONG_MAX && GoodExtra(extra)
    ensures var text := ResponseText(status, body, extra);
            && Find(text) >= 0
            && ((forall chunks | Cutting(chunks, text) :: ResponseOf(chunks) == Parsed(Response(status, body, Cookies(extra))))
                <==> LatestCut(text) <= RESPONSE_CAP)
            && (|text| <= RESPONSE_CAP ==> LatestCut(text) <= RESPONSE_CAP)
  {
    ResponseArrives(status, body, extra);
    var text := ResponseText(status, body, extra);
    if Find(text) < 0 {
      NoHeaderNoResponse(text);
    }
    hide ParseResponse, HeaderTaken, Find, ResponseText, GoodExtra, Cookies;
    AlwaysTaken(text, RESPONSE_CAP);
  }

  lemma PlainLines(first: string, fields: seq<Field>)
    requires first != "" && NoBreak(first) && forall i | 0 <= i < |fields| :: PlainField(fields[i])
    ensures GoodLines([first] + FieldLines(fields))
  {
    var lines := [first] + FieldLines(fields);
    forall i | 0 <= i < |lines|
      ensures lines[i] != "" && NoBreak(lines[i])
    {
      if i > 0 {
        OnePlainField(fields[i - 1]);
      }
    }
  }
}
