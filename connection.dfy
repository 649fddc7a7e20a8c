/** `handle_connection`: reads the header lines of one request, splits the
    request line, reads a body line for POST, turns away every version but
    HTTP/1.1, and routes on method and path. The socket is a sequence of
    lines with a read position; the response is returned instead of being
    written. */
module Connection {
  import opened Outcomes
  import opened Text
  import opened Response
  import opened Oracles
  import opened Login
  import opened Users

  const HTTP_1_1: string := "HTTP/1.1"

  /** The `BufReader` over the socket, seen one `read_line` at a time:
      `lines` is what the client sends, already cut after each LF, and
      `pos` is how many of them have been read. */
  class LineReader {
    const lines: seq<string>
    var pos: nat

    ghost predicate Valid()
      reads this
    {
      pos <= |lines|
    }

    constructor (lines: seq<string>)
      ensures Valid() && this.lines == lines && pos == 0
    {
      this.lines := lines;
      pos := 0;
    }

    /** `read_line` into an empty `String`: the next line, or "" once the
        stream is exhausted. */
    method ReadLine() returns (line: string)
      requires Valid()
      modifies this
      ensures Valid()
      ensures old(pos) < |lines| ==> line == lines[old(pos)] && pos == old(pos) + 1
      ensures old(pos) == |lines| ==> line == "" && pos == old(pos)
    {
      if pos < |lines| {
        line := lines[pos];
        pos := pos + 1;
      } else {
        line := "";
      }
    }
  }

  /** The blank line that ends the headers: exactly CR LF or exactly LF. */
  predicate IsTerminator(line: string)
  {
    line == "\r\n" || line == "\n"
  }

  predicate HasTerminator(ls: seq<string>)
  {
    exists k :: 0 <= k < |ls| && IsTerminator(ls[k])
  }

  /** What the header loop stores: every line before the first terminator,
      trimmed, in arrival order; the terminator itself is not stored and
      the loop has read exactly one line more than it stored. */
  function HeaderBlock(ls: seq<string>): (headers: seq<string>)
    requires HasTerminator(ls)
    ensures |headers| < |ls| && IsTerminator(ls[|headers|])
    ensures forall k :: 0 <= k < |headers| ==> !IsTerminator(ls[k]) && headers[k] == Trim(ls[k])
    decreases |ls|
  {
    if IsTerminator(ls[0]) then []
    else
      assert HasTerminator(ls[1..]) by {
        var k :| 0 <= k < |ls| && IsTerminator(ls[k]);
        assert ls[1..][k - 1] == ls[k];
      }
      [Trim(ls[0])] + HeaderBlock(ls[1..])
  }

  /** The header block ends at the first terminator, wherever it is. */
  lemma {:induction false} HeaderBlockEndsAtFirstTerminator(ls: seq<string>, j: nat)
    requires j < |ls| && IsTerminator(ls[j])
    requires forall k :: 0 <= k < j ==> !IsTerminator(ls[k])
    ensures HasTerminator(ls) && |HeaderBlock(ls)| == j
  {
    assert HasTerminator(ls);
  }

  /** Method, path and version, the first three whitespace-separated
      tokens of the request line. */
  datatype RequestLine = RequestLine(httpMethod: string, path: string, version: string)

  /** Splits the first header with `split_whitespace` and takes tokens 0,
      1 and 2; extra tokens are ignored. Indexing a missing header or a
      missing token panics. */
  function ParseRequestLine(headers: seq<string>): (r: Result<RequestLine>)
    ensures r.Ok? ==> IsToken(r.value.httpMethod) && IsToken(r.value.path) && IsToken(r.value.version)
    ensures headers == [] ==> r == Panicked(NoRequestLine)
    ensures r.Panicked? ==> (r.reason == NoRequestLine <==> headers == [])
    ensures r.Panicked? ==> r.reason == NoRequestLine || r.reason == ShortRequestLine
  {
    if |headers| == 0 then Panicked(NoRequestLine)
    else
      var parts := Words(headers[0]);
      if |parts| < 3 then Panicked(ShortRequestLine)
      else Ok(RequestLine(parts[0], parts[1], parts[2]))
  }

  /** A request line made of method, path, version and further tokens,
      one space apart, parses to that method, path and version. */
  lemma {:induction false} ParseRequestLineTokens(request: RequestLine, extra: seq<string>, rest: seq<string>)
    requires IsToken(request.httpMethod) && IsToken(request.path) && IsToken(request.version)
    requires forall i :: 0 <= i < |extra| ==> IsToken(extra[i])
    ensures ParseRequestLine([Join(" ", [request.httpMethod, request.path, request.version] + extra)] + rest)
         == Ok(request)
  {
    var tokens := [request.httpMethod, request.path, request.version] + extra;
    WordsOfJoin(tokens);
  }

  /** The request line as a client may send it, once trimmed: tokens kept
      apart by runs of spaces, tabs or any other whitespace. Fewer than
      three tokens panic on `first_line_parts[0]`, `[1]` or `[2]`; three or
      more give the first three as method, path and version, whatever
      follows. */
  lemma {:induction false} ParseRequestLineSpaced(lead: string, ws: seq<string>, gaps: seq<string>,
                                                  rest: seq<string>)
    requires AllWhitespace(lead)
    requires forall i :: 0 <= i < |ws| ==> IsToken(ws[i])
    requires Separates(ws, gaps)
    ensures var r := ParseRequestLine([lead + Spaced(ws, gaps)] + rest);
      (r.Ok? <==> |ws| >= 3) &&
      (r.Ok? ==> r.value == RequestLine(ws[0], ws[1], ws[2])) &&
      (r.Panicked? ==> r.reason == ShortRequestLine)
  {
    WordsOfSpaced(lead, ws, gaps);
    assert ([lead + Spaced(ws, gaps)] + rest)[0] == lead + Spaced(ws, gaps);
  }

  /** A `GET` or `POST` to a path the server knows, over HTTP/1.1. */
  predicate Routed(request: RequestLine)
  {
    request.version == HTTP_1_1 &&
    ((request.httpMethod == "GET" && (request.path == "/" || request.path == "/list" || request.path == "/sleep")) ||
     (request.httpMethod == "POST" && request.path == "/login"))
  }

  /** The route `match`. Every combination not listed answers 501; only
      the two routes that call into the database can panic. */
  function Route(httpMethod: string, path: string, body: string, db: Backend): (r: Result<string>)
    ensures r.Panicked? ==> (httpMethod == "GET" && path == "/list") || (httpMethod == "POST" && path == "/login")
  {
    if httpMethod == "GET" then
      if path == "/" then Ok(EmptyResponse(OK))
      else if path == "/list" then ListUsersResponse(db)
      else if path == "/sleep" then Ok(EmptyResponse(OK))
      else Ok(EmptyResponse(NOT_IMPLEMENTED))
    else if httpMethod == "POST" then
      if path == "/login" then HandleLogin(body, db)
      else Ok(EmptyResponse(NOT_IMPLEMENTED))
    else Ok(EmptyResponse(NOT_IMPLEMENTED))
  }

  /** The version check, then the route: a panic needs HTTP/1.1 and one
      of the two routes that call into the database. */
  function Respond(request: RequestLine, body: string, db: Backend): (r: Result<string>)
    ensures r.Panicked? ==> Routed(request) && (request.path == "/list" || request.path == "/login")
  {
    if request.version != HTTP_1_1 then Ok(EmptyResponse(NOT_IMPLEMENTED))
    else Route(request.httpMethod, request.path, body, db)
  }

  /** What one connection ends with, and how many lines it read. */
  datatype Exchange = Exchange(outcome: Result<string>, consumed: nat)

  /** One connection over the lines `ls`: the header block, the request
      line, one body line for POST only (before the version is looked at;
      "" when the stream has ended), then the answer. */
  function Serve(ls: seq<string>, db: Backend): (e: Exchange)
    requires HasTerminator(ls)
    ensures |HeaderBlock(ls)| + 1 <= e.consumed <= |ls|
    ensures e.consumed <= |HeaderBlock(ls)| + 2
  {
    var headers := HeaderBlock(ls);
    var k := |headers| + 1;
    match ParseRequestLine(headers)
    case Panicked(p) => Exchange(Panicked(p), k)
    case Ok(request) =>
      if request.httpMethod == "POST" then
        if k < |ls| then Exchange(Respond(request, ls[k], db), k + 1)
        else Exchange(Respond(request, "", db), k)
      else Exchange(Respond(request, "", db), k)
  }

  /** The header loop of `handle_connection`: reads lines until a
      terminator and keeps the others, trimmed. */
  method ReadHeaders(reader: LineReader) returns (httpRequest: seq<string>)
    requires reader.Valid() && HasTerminator(reader.lines[reader.pos..])
    modifies reader
    ensures reader.Valid()
    ensures httpRequest == HeaderBlock(old(reader.lines[reader.pos..]))
    ensures reader.pos == old(reader.pos) + |httpRequest| + 1
  {
    ghost var start := reader.pos;
    ghost var ls := reader.lines[start..];
    ghost var block := HeaderBlock(ls);
    httpRequest := [];
    while true
      invariant reader.Valid() && reader.lines[start..] == ls
      invariant reader.pos == start + |httpRequest|
      invariant |httpRequest| <= |block| && httpRequest == block[..|httpRequest|]
      decreases |block| - |httpRequest|
    {
      var line := reader.ReadLine();
      assert line == ls[|httpRequest|];
      if IsTerminator(line) {
        assert |httpRequest| == |block|;
        break;
      }
      assert |httpRequest| < |block|;
      assert block[|httpRequest|] == Trim(line);
      assert block[..|httpRequest| + 1] == block[..|httpRequest|] + [Trim(line)];
      httpRequest := httpRequest + [Trim(line)];
    }
    assert httpRequest == block;
  }

  /** The route `match` of `handle_connection`, run once the version has
      passed: `GET /list` runs the `list_users` loop, and every other
      route answers as `Route` does. */
  method Dispatch(requestMethod: string, path: string, body: string, db: Backend)
    returns (outcome: Result<string>)
    ensures outcome == Route(requestMethod, path, body, db)
  {
    if requestMethod == "GET" && path == "/list" {
      outcome := ListUsers(db);
    } else {
      outcome := Route(requestMethod, path, body, db);
    }
  }

  /** `handle_connection`, with the response returned: the outcome and the
      lines read are those `Serve` describes. */
  method HandleConnection(reader: LineReader, db: Backend) returns (outcome: Result<string>)
    requires reader.Valid() && HasTerminator(reader.lines[reader.pos..])
    modifies reader
    ensures reader.Valid()
    ensures var e := Serve(old(reader.lines[reader.pos..]), db);
      outcome == e.outcome && reader.pos == old(reader.pos) + e.consumed
  {
    ghost var ls := reader.lines[reader.pos..];
    var httpRequest := ReadHeaders(reader);

    if |httpRequest| == 0 {
      return Panicked(NoRequestLine);
    }
    var parts := Words(httpRequest[0]);
    if |parts| < 3 {
      return Panicked(ShortRequestLine);
    }
    var requestMethod, path, version := parts[0], parts[1], parts[2];

    var body := "";
    if requestMethod == "POST" {
      body := reader.ReadLine();
    }

    if version != HTTP_1_1 {
      return Ok(EmptyResponse(NOT_IMPLEMENTED));
    }

    outcome := Dispatch(requestMethod, path, body, db);
  }

  /** A request framed as a client sends it (request line, header lines,
      blank line, then one body line for POST) is read as that request:
      the answer is the one for its method, path, version and body, and
      the lines read are the request line, the headers, the blank line and
      the body line for POST only. */
  lemma {:induction false} ServeFramedRequest(request: RequestLine, extra: seq<string>,
                                              fields: seq<string>, body: string,
                                              rest: seq<string>, db: Backend)
    requires IsToken(request.httpMethod) && IsToken(request.path) && IsToken(request.version)
    requires forall i :: 0 <= i < |extra| ==> IsToken(extra[i])
    requires forall i :: 0 <= i < |fields| ==> !IsTerminator(fields[i])
    ensures var post := request.httpMethod == "POST";
      var ls := [Join(" ", [request.httpMethod, request.path, request.version] + extra) + "\r\n"]
                + fields + ["\r\n"] + (if post then [body] else []) + rest;
      HasTerminator(ls) &&
      Serve(ls, db) == Exchange(Respond(request, if post then body else "", db),
                                |fields| + if post then 3 else 2)
  {
    var post := request.httpMethod == "POST";
    var tokens := [request.httpMethod, request.path, request.version] + extra;
    var text := Join(" ", tokens);
    JoinOfTokensTrimmed(tokens);
    var line := text + "\r\n";
    var ls := [line] + fields + ["\r\n"] + (if post then [body] else []) + rest;
    var j := |fields| + 1;
    assert ls[j] == "\r\n";
    assert forall k :: 1 <= k < j ==> ls[k] == fields[k - 1];
    assert !IsTerminator(ls[0]) by {
      assert |line| >= 3;
    }
    HeaderBlockEndsAtFirstTerminator(ls, j);
    var headers := HeaderBlock(ls);
    TrimLineEnd(text);
    assert headers[0] == text;
    assert headers == [text] + headers[1..];
    ParseRequestLineTokens(request, extra, headers[1..]);
    if post {
      assert ls[j + 1] == body;
    }
  }

  /** A version other than HTTP/1.1 is answered 501 whatever the method
      and path, and no route runs. */
  lemma {:induction false} VersionGate(ls: seq<string>, db: Backend)
    requires HasTerminator(ls)
    requires var r := ParseRequestLine(HeaderBlock(ls)); r.Ok? && r.value.version != HTTP_1_1
    ensures Serve(ls, db).outcome == Ok(EmptyResponse(NOT_IMPLEMENTED))
  {
  }

  /** A POST reads its body line before the version check, so a POST with
      any version reads one line past the blank line; no other method does. */
  lemma {:induction false} BodyLineOnlyForPost(ls: seq<string>, db: Backend)
    requires HasTerminator(ls)
    requires ParseRequestLine(HeaderBlock(ls)).Ok?
    ensures var n := |HeaderBlock(ls)| + 1;
      Serve(ls, db).consumed ==
        if ParseRequestLine(HeaderBlock(ls)).value.httpMethod == "POST" && n < |ls| then n + 1 else n
  {
  }

  /** An empty header block (the first line is already blank, CR LF or a
      bare LF) panics on `http_request[0]` after reading that one line. */
  lemma {:induction false} EmptyRequestPanics(ls: seq<string>, db: Backend)
    requires |ls| > 0 && IsTerminator(ls[0])
    ensures HasTerminator(ls)
    ensures Serve(ls, db) == Exchange(Panicked(NoRequestLine), 1)
  {
    assert HasTerminator(ls);
  }

  /** Every response the server sends is well framed (status line,
      `Content-Length` equal to the body's byte length, body) with one of
      its three status lines. 200 comes only from GET /, /list and /sleep
      and from a POST /login the password check accepts; 401 only from a
      POST /login the check rejects; a non-empty body only from GET /list;
      and all of them only for HTTP/1.1. */
  lemma {:induction false} RespondWellFormed(request: RequestLine, body: string, db: Backend)
    requires Respond(request, body, db).Ok?
    ensures var m := ParseResponse(Respond(request, body, db).value);
      m.Some? && (m.value.status == OK || m.value.status == UNAUTHORIZED || m.value.status == NOT_IMPLEMENTED)
    ensures var m := ParseResponse(Respond(request, body, db).value);
      m.Some? && m.value.status == OK ==>
        request.version == HTTP_1_1 &&
        ((request.httpMethod == "GET" && request.path in {"/", "/list", "/sleep"}) ||
         (request.httpMethod == "POST" && request.path == "/login"))
    ensures var m := ParseResponse(Respond(request, body, db).value);
      m.Some? && m.value.status == UNAUTHORIZED ==>
        request.version == HTTP_1_1 && request.httpMethod == "POST" && request.path == "/login"
    ensures var m := ParseResponse(Respond(request, body, db).value);
      m.Some? && m.value.body != "" ==>
        request.version == HTTP_1_1 && request.httpMethod == "GET" && request.path == "/list"
  {
    StatusLines();
    var r := Respond(request, body, db).value;
    if request.version != HTTP_1_1 {
      assert r == EmptyResponse(NOT_IMPLEMENTED);
      EmptyResponseReads(NOT_IMPLEMENTED);
    } else if request.httpMethod == "GET" && request.path == "/list" {
      ListUsersAnswer(db);
    } else if request.httpMethod == "POST" && request.path == "/login" {
      assert r == EmptyResponse(OK) || r == EmptyResponse(UNAUTHORIZED);
      EmptyResponseReads(OK);
      EmptyResponseReads(UNAUTHORIZED);
    } else if request.httpMethod == "GET" && (request.path == "/" || request.path == "/sleep") {
      assert r == EmptyResponse(OK);
      EmptyResponseReads(OK);
    } else {
      assert r == EmptyResponse(NOT_IMPLEMENTED);
      EmptyResponseReads(NOT_IMPLEMENTED);
    }
  }

  /** The answer for each route over HTTP/1.1: `GET /` and `GET /sleep`
      give the empty 200 response, which reads back as 200 with no body;
      `GET /list` gives what `list_users` gives and `POST /login` what
      `handle_login` gives for the body read; every request outside the
      four routes (another method, another path, or another version) gives
      the empty 501 response, which reads back as 501 with no body. */
  lemma {:induction false} RouteAnswers(request: RequestLine, body: string, db: Backend)
    ensures request.version == HTTP_1_1 && request.httpMethod == "GET" &&
            (request.path == "/" || request.path == "/sleep") ==>
      Respond(request, body, db) == Ok(EmptyResponse(OK)) &&
      ParseResponse(Respond(request, body, db).value) == Some(Message(OK, 0, ""))
    ensures request.version == HTTP_1_1 && request.httpMethod == "GET" && request.path == "/list" ==>
      Respond(request, body, db) == ListUsersResponse(db)
    ensures request.version == HTTP_1_1 && request.httpMethod == "POST" && request.path == "/login" ==>
      Respond(request, body, db) == HandleLogin(body, db)
    ensures !Routed(request) ==>
      Respond(request, body, db) == Ok(EmptyResponse(NOT_IMPLEMENTED)) &&
      ParseResponse(Respond(request, body, db).value) == Some(Message(NOT_IMPLEMENTED, 0, ""))
  {
    StatusLines();
    if Routed(request) {
      EmptyResponseReads(OK);
    } else {
      assert Respond(request, body, db) == Ok(EmptyResponse(NOT_IMPLEMENTED));
      EmptyResponseReads(NOT_IMPLEMENTED);
    }
  }

  /** The login exchange end to end: `POST /login HTTP/1.1`, any header
      lines, the blank line and the body line `userid,password` LF are
      answered 200 exactly when the password check accepts the pair, and
      401 otherwise. */
  lemma {:induction false} LoginExchange(userid: string, password: string, fields: seq<string>,
                                         rest: seq<string>, db: Backend)
    requires ',' !in userid && ',' !in password
    requires '\n' !in userid && '\n' !in password
    requires forall i :: 0 <= i < |fields| ==> !IsTerminator(fields[i])
    ensures var ls := ["POST /login HTTP/1.1\r\n"] + fields + ["\r\n", userid + "," + password + "\n"] + rest;
      HasTerminator(ls) &&
      Serve(ls, db) == Exchange(Ok(EmptyResponse(if db.checkPassword(userid, password) then OK else UNAUTHORIZED)),
                                |fields| + 3)
  {
    var request := RequestLine("POST", "/login", HTTP_1_1);
    LoginRequestLine();
    var body := userid + "," + password + "\n";
    ServeFramedRequest(request, [], fields, body, rest, db);
    var line := Join(" ", [request.httpMethod, request.path, request.version] + []) + "\r\n";
    assert line == "POST /login HTTP/1.1\r\n";
    BodyLineFraming(line, fields, body, rest);
    var ls := [line] + fields + ["\r\n", body] + rest;
    assert Serve(ls, db) == Exchange(Respond(request, body, db), |fields| + 3);
    assert Respond(request, body, db) == HandleLogin(body, db);
    LoginLine(userid, password, db);
    assert Serve(ls, db)
        == Exchange(Ok(EmptyResponse(if db.checkPassword(userid, password) then OK else UNAUTHORIZED)), |fields| + 3);
  }

  /** The blank line and the body line, as one list or as two appended. */
  lemma {:induction false} BodyLineFraming(line: string, fields: seq<string>, body: string, rest: seq<string>)
    ensures [line] + fields + ["\r\n"] + [body] + rest == [line] + fields + ["\r\n", body] + rest
  {
    assert ["\r\n"] + [body] == ["\r\n", body];
  }

  /** The request line of a login, split into its three tokens. */
  lemma {:induction false} LoginRequestLine()
    ensures IsToken("POST") && IsToken("/login") && IsToken(HTTP_1_1)
    ensures Join(" ", ["POST", "/login", HTTP_1_1] + []) == "POST /login HTTP/1.1"
  {
    assert ["POST", "/login", HTTP_1_1] + [] == ["POST", "/login", HTTP_1_1];
    assert Join(" ", ["POST", "/login", HTTP_1_1]) == "POST" + " " + ("/login" + " " + HTTP_1_1);
  }
}
