/** The hand-written HTTP layer of bandix/src/api/mod.rs: the JSON envelope
    `ApiResponse`, the request parser `parse_http_request`, the response
    constructors of `HttpResponse`, the route table of
    `ApiRouter::route_request` and the raw text `send_http_response` writes. */
module Api {
  import opened Wrappers
  import opened RustStr

  /** Rust's `u16`, the type of the status code. */
  type u16 = x: int | 0 <= x < 0x1_0000

  // ---------------------------------------------------------------------------
  // The JSON envelope

  /** `ApiResponse<T>`: a status word, an optional payload, an optional message. */
  datatype ApiResponse<T> = ApiResponse(status: string, data: Option<T>, message: Option<string>)

  /** What an envelope reports, read back from its three fields: a payload
      for a "success" envelope, a message for an "error" one, and nothing for
      any other combination of fields. */
  function Reported<T>(r: ApiResponse<T>): Option<Result<T, string>> {
    if r.status == "success" && r.data.Some? && r.message.None? then Some(Ok(r.data.value))
    else if r.status == "error" && r.data.None? && r.message.Some? then Some(Err(r.message.value))
    else None
  }

  /** `ApiResponse::success`. */
  function ApiSuccess<T>(data: T): (r: ApiResponse<T>)
    ensures Reported(r) == Some(Ok(data))
  {
    ApiResponse("success", Some(data), None)
  }

  /** `ApiResponse::error`. */
  function ApiError<T>(message: string): (r: ApiResponse<T>)
    ensures Reported(r) == Some(Err(message))
  {
    ApiResponse("error", None, Some(message))
  }

  // ---------------------------------------------------------------------------
  // Responses

  /** The body of a response: text given by the caller, or the envelope that
      `HttpResponse::error` hands to `serde_json::to_string`. The JSON text of
      the envelope is supplied when the response is written (`RawResponse`). */
  datatype Body = Text(text: string) | ErrorJson(envelope: ApiResponse<()>)

  datatype HttpResponse = HttpResponse(status: u16, contentType: string, body: Body)

  const ApplicationJson: string := "application/json"

  /** `HttpResponse::ok`. */
  function HttpOk(body: string): (r: HttpResponse)
    ensures StatusLine(r) == "HTTP/1.1 200 OK"
    ensures r.contentType == ApplicationJson && r.body == Text(body)
  {
    OkStatusLine(HttpResponse(200, ApplicationJson, Text(body)));
    HttpResponse(200, ApplicationJson, Text(body))
  }

  /** `HttpResponse::error`: the status and a JSON error envelope. */
  function HttpError(status: u16, message: string): (r: HttpResponse)
    ensures r.status == status && r.contentType == ApplicationJson
    ensures r.body.ErrorJson? && Reported(r.body.envelope) == Some(Err(message))
  {
    HttpResponse(status, ApplicationJson, ErrorJson(ApiError(message)))
  }

  /** `HttpResponse::not_found`. */
  function HttpNotFound(): (r: HttpResponse)
    ensures StatusLine(r) == "HTTP/1.1 404 Not Found"
    ensures r.contentType == ApplicationJson
    ensures r.body.ErrorJson? && Reported(r.body.envelope) == Some(Err("Not Found"))
  {
    NotFoundStatusLine(HttpError(404, "Not Found"));
    HttpError(404, "Not Found")
  }

  // ---------------------------------------------------------------------------
  // The raw response (`send_http_response`, without the socket write)

  /** The reason phrase `send_http_response` puts after the status code. */
  function StatusText(status: u16): (t: string)
    ensures t == "OK" <==> status == 200
    ensures t == "Not Found" <==> status == 404
    ensures t == "Internal Server Error" <==> status == 500
    ensures t == "Unknown" <==> status != 200 && status != 404 && status != 500
  {
    match status
    case 200 => "OK"
    case 404 => "Not Found"
    case 500 => "Internal Server Error"
    case _ => "Unknown"
  }

  /** The status line: the version, the code in decimal, the reason phrase. */
  function StatusLine(r: HttpResponse): (line: string)
    ensures StartsWith(line, "HTTP/1.1 ") && |line| >= 11 + |StatusText(r.status)|
    ensures var code := line[9..|line| - |StatusText(r.status)| - 1];
            AllDigits(code) && DecValue(code) == r.status
    ensures line[|line| - |StatusText(r.status)| - 1..] == " " + StatusText(r.status)
  {
    DecRoundTrip(r.status);
    StatusLineParts(Dec(r.status), StatusText(r.status));
    "HTTP/1.1 " + Dec(r.status) + " " + StatusText(r.status)
  }

  lemma OkStatusLine(r: HttpResponse)
    requires r.status == 200
    ensures StatusLine(r) == "HTTP/1.1 200 OK"
  {
    assert Dec(20) == "20";
    assert Dec(200) == "200";
  }

  lemma NotFoundStatusLine(r: HttpResponse)
    requires r.status == 404
    ensures StatusLine(r) == "HTTP/1.1 404 Not Found"
  {
    assert Dec(40) == "40";
    assert Dec(404) == "404";
  }

  lemma StatusLineParts(code: string, text: string)
    ensures var line := "HTTP/1.1 " + code + " " + text;
            |line| == 10 + |code| + |text| && StartsWith(line, "HTTP/1.1 ") &&
            line[9..|line| - |text| - 1] == code && line[|line| - |text| - 1..] == " " + text
  {
    var line := "HTTP/1.1 " + code + " " + text;
    assert line == "HTTP/1.1 " + (code + (" " + text));
  }

  /** The text of the body; `toJson` stands for `serde_json::to_string`. */
  function BodyText(r: HttpResponse, toJson: ApiResponse<()> -> string): string {
    match r.body
    case Text(t) => t
    case ErrorJson(e) => toJson(e)
  }

  /** The header lines of the response, each written followed by "\r\n". */
  function HeaderLines(r: HttpResponse, contentLength: nat): (hl: seq<string>)
    ensures |hl| == 5 && hl[0] == StatusLine(r)
    ensures StartsWith(hl[1], "Content-Type: ") && hl[1][14..] == r.contentType
    ensures StartsWith(hl[2], "Content-Length: ") && AllDigits(hl[2][16..]) && DecValue(hl[2][16..]) == contentLength
    ensures hl[3] == "Access-Control-Allow-Origin: *" && hl[4] == "Connection: close"
  {
    DecRoundTrip(contentLength);
    var hl := [ StatusLine(r),
                "Content-Type: " + r.contentType,
                "Content-Length: " + Dec(contentLength),
                "Access-Control-Allow-Origin: *",
                "Connection: close" ];
    assert hl[2][16..] == Dec(contentLength);
    hl
  }

  /** The text `send_http_response` writes: the header lines, a blank line,
      the body; `Content-Length` is the body's length in UTF-8 bytes. */
  function RawResponse(r: HttpResponse, toJson: ApiResponse<()> -> string): (raw: string)
    ensures StartsWith(raw, StatusLine(r) + "\r\n")
    ensures var body := BodyText(r, toJson); |body| <= |raw| && raw[|raw| - |body|..] == body
  {
    var body := BodyText(r, toJson);
    var hl := HeaderLines(r, Utf8Len(body));
    HeadThenBody(hl, body);
    CrlfTerminated(hl) + "\r\n" + body
  }

  lemma HeadThenBody(hl: seq<string>, body: string)
    requires hl != []
    ensures var raw := CrlfTerminated(hl) + "\r\n" + body;
            StartsWith(raw, hl[0] + "\r\n") && |body| <= |raw| && raw[|raw| - |body|..] == body
  {
    var raw := CrlfTerminated(hl) + "\r\n" + body;
    var first := hl[0] + "\r\n";
    assert raw == first + (CrlfTerminated(hl[1..]) + "\r\n" + body);
    assert raw[..|first|] == first;
  }

  predicate NoLineBreak(s: string) {
    '\r' !in s && '\n' !in s
  }

  /** No "\n\r" pair anywhere in `s`, so no blank line can start inside it. */
  predicate NoBlankLineStart(s: string) {
    forall j :: 0 <= j < |s| - 1 ==> !(s[j] == '\n' && s[j + 1] == '\r')
  }

  lemma {:induction false} CrlfTerminatedAppend(a: seq<string>, b: seq<string>)
    ensures CrlfTerminated(a + b) == CrlfTerminated(a) + CrlfTerminated(b)
    decreases |a|
  {
    if a == [] {
      assert a + b == b;
    } else {
      assert (a + b)[1..] == a[1..] + b;
      CrlfTerminatedAppend(a[1..], b);
    }
  }

  /** Non-empty lines without line breaks, each followed by "\r\n": the text
      ends with "\r\n" and holds no "\n\r" pair. */
  lemma {:induction false} CrlfTerminatedShape(ls: seq<string>)
    requires ls != []
    requires forall k :: 0 <= k < |ls| ==> ls[k] != [] && NoLineBreak(ls[k])
    ensures var s := CrlfTerminated(ls); |s| >= 2 && s[|s| - 2..] == "\r\n" && NoBlankLineStart(s)
    decreases |ls|
  {
    var line := ls[0];
    var rest := CrlfTerminated(ls[1..]);
    var s := CrlfTerminated(ls);
    assert s == line + "\r\n" + rest;
    assert forall j :: 0 <= j < |line| ==> s[j] == line[j] && s[j] != '\n';
    assert s[|line|] == '\r' && s[|line| + 1] == '\n';
    if ls[1..] == [] {
      assert s == line + "\r\n";
    } else {
      CrlfTerminatedShape(ls[1..]);
      assert ls[1][0] in ls[1];
      assert rest[0] == ls[1][0] && rest[0] != '\r';
      assert forall j :: |line| + 2 <= j < |s| ==> s[j] == rest[j - |line| - 2];
    }
  }

  lemma DecHasNoLineBreak(n: nat)
    ensures NoLineBreak(Dec(n))
  {
    var d := Dec(n);
    assert forall k :: 0 <= k < |d| ==> d[k] != '\r' && d[k] != '\n';
  }

  lemma NoLineBreakAppend(a: string, b: string)
    requires NoLineBreak(a) && NoLineBreak(b)
    ensures NoLineBreak(a + b)
  {
    assert forall k :: 0 <= k < |a + b| ==> (a + b)[k] == if k < |a| then a[k] else b[k - |a|];
  }

  lemma StatusLineIsClean(r: HttpResponse)
    ensures StatusLine(r) != [] && NoLineBreak(StatusLine(r))
  {
    var d := Dec(r.status);
    var t := StatusText(r.status);
    DecHasNoLineBreak(r.status);
    StatusTextIsClean(r.status);
    assert NoLineBreak("HTTP/1.1 ") && NoLineBreak(" ");
    NoLineBreakAppend("HTTP/1.1 ", d);
    NoLineBreakAppend("HTTP/1.1 " + d, " ");
    NoLineBreakAppend("HTTP/1.1 " + d + " ", t);
  }

  lemma StatusTextIsClean(status: u16)
    ensures NoLineBreak(StatusText(status))
  {
    var t := StatusText(status);
    if t == "Internal Server Error" {
      assert NoLineBreak("Internal Server Error");
    } else if t == "Not Found" {
      assert NoLineBreak("Not Found");
    } else if t == "OK" {
      assert NoLineBreak("OK");
    } else {
      assert NoLineBreak("Unknown");
    }
  }

  lemma ContentLineIsClean(contentType: string, contentLength: nat)
    requires NoLineBreak(contentType)
    ensures NoLineBreak("Content-Type: " + contentType)
    ensures NoLineBreak("Content-Length: " + Dec(contentLength))
  {
    DecHasNoLineBreak(contentLength);
  }

  lemma AllowOriginLineIsClean()
    ensures NoLineBreak("Access-Control-Allow-Origin: *")
  {
  }

  lemma ConnectionLineIsClean()
    ensures NoLineBreak("Connection: close")
  {
  }

  lemma HeaderLinesAreClean(r: HttpResponse, contentLength: nat)
    requires NoLineBreak(r.contentType)
    ensures var hl := HeaderLines(r, contentLength);
            forall k :: 0 <= k < |hl| ==> hl[k] != [] && NoLineBreak(hl[k])
  {
    StatusLineIsClean(r);
    ContentLineIsClean(r.contentType, contentLength);
    AllowOriginLineIsClean();
    ConnectionLineIsClean();
  }

  /** After a head that ends with "\r\n" and holds no "\n\r" pair, the first
      blank line is the head's last "\r\n" followed by one more. */
  lemma FirstBlankLineEndsHead(head: string, body: string)
    requires |head| >= 2 && head[|head| - 2..] == "\r\n" && NoBlankLineStart(head)
    ensures Find(head + "\r\n" + body, BlankLine) == Some(|head| - 2)
    ensures BodyOf(head + "\r\n" + body) == (if body == [] then None else Some(body))
  {
    var raw := head + "\r\n" + body;
    var p := |head| - 2;
    assert raw[p..p + 4] == BlankLine;
    assert OccursAt(raw, BlankLine, p);
    forall i: nat | i < p
      ensures !OccursAt(raw, BlankLine, i)
    {
      assert raw[i + 1] == head[i + 1] && raw[i + 2] == head[i + 2];
    }
    var found := Find(raw, BlankLine);
    assert found.Some? && found.value == p;
    assert raw[p + 4..] == body;
  }

  /** The first blank line of the raw response is the one before the body,
      so the body a parser takes after it is the body written. */
  lemma RawResponseBody(r: HttpResponse, toJson: ApiResponse<()> -> string)
    requires NoLineBreak(r.contentType)
    ensures var raw := RawResponse(r, toJson);
            var body := BodyText(r, toJson);
            |body| + 4 <= |raw| &&
            Find(raw, BlankLine) == Some(|raw| - |body| - 4) &&
            BodyOf(raw) == (if body == [] then None else Some(body))
  {
    var body := BodyText(r, toJson);
    var hl := HeaderLines(r, Utf8Len(body));
    var head := CrlfTerminated(hl);
    HeaderLinesAreClean(r, Utf8Len(body));
    CrlfTerminatedShape(hl);
    FirstBlankLineEndsHead(head, body);
  }

  /** A head of "\r\n"-terminated lines and a blank line, then a body:
      `lines()` gives the head's lines, "", and the body's lines. */
  lemma LinesOfHeadAndBody(hl: seq<string>, body: string)
    requires forall k :: 0 <= k < |hl| ==> '\n' !in hl[k]
    ensures Lines(CrlfTerminated(hl) + "\r\n" + body) == hl + [""] + Lines(body)
    ensures Lines(CrlfTerminated(hl) + "\r\n") == hl + [""]
  {
    var ls := hl + [""];
    CrlfTerminatedAppend(hl, [""]);
    assert CrlfTerminated([""]) == "\r\n";
    assert CrlfTerminated(ls) == CrlfTerminated(hl) + "\r\n";
    LinesAfterCrlfTerminated(ls, body);
    LinesAfterCrlfTerminated(ls, []);
    assert CrlfTerminated(ls) + [] == CrlfTerminated(ls);
    assert ls + Lines([]) == ls;
  }

  /** Read with `lines()`, the written text is the header lines, one blank
      line, then the lines of the body; the text before the body is the
      header lines and the blank line alone. */
  lemma RawResponseHead(r: HttpResponse, toJson: ApiResponse<()> -> string)
    requires NoLineBreak(r.contentType)
    ensures var raw := RawResponse(r, toJson);
            var body := BodyText(r, toJson);
            Lines(raw) == HeaderLines(r, Utf8Len(body)) + [""] + Lines(body) &&
            |body| <= |raw| && Lines(raw[..|raw| - |body|]) == HeaderLines(r, Utf8Len(body)) + [""]
  {
    var body := BodyText(r, toJson);
    var hl := HeaderLines(r, Utf8Len(body));
    var raw := RawResponse(r, toJson);
    assert raw[..|raw| - |body|] == CrlfTerminated(hl) + "\r\n";
    HeaderLinesAreClean(r, Utf8Len(body));
    LinesOfHeadAndBody(hl, body);
  }

  /** How a reader of the raw response finds its parts: `lines()` gives the
      header lines, a blank line and then the body's lines; the first blank
      line is the one before the body (so the body a parser takes after it is
      the body written); and the `Content-Length` header holds the body's
      UTF-8 byte count. */
  lemma RawResponseFraming(r: HttpResponse, toJson: ApiResponse<()> -> string)
    requires NoLineBreak(r.contentType)
    ensures var raw := RawResponse(r, toJson);
            var body := BodyText(r, toJson);
            |body| + 4 <= |raw| &&
            Find(raw, BlankLine) == Some(|raw| - |body| - 4) &&
            BodyOf(raw) == (if body == [] then None else Some(body)) &&
            Lines(raw) == HeaderLines(r, Utf8Len(body)) + [""] + Lines(body)
    ensures var lengthLine := HeaderLines(r, Utf8Len(BodyText(r, toJson)))[2];
            StartsWith(lengthLine, "Content-Length: ") &&
            AllDigits(lengthLine[16..]) && DecValue(lengthLine[16..]) == Utf8Len(BodyText(r, toJson))
  {
    RawResponseBody(r, toJson);
    RawResponseHead(r, toJson);
  }

  // ---------------------------------------------------------------------------
  // Requests

  /** `HttpRequest`; `method` is a keyword in Dafny, hence `httpMethod`. */
  datatype HttpRequest = HttpRequest(httpMethod: string, path: string,
                                     queryParams: map<string, string>, body: Option<string>)

  /** The blank line that ends the head of a message. */
  const BlankLine: string := "\r\n\r\n"

  /** The body: everything after the first blank line, when that is not empty. */
  function BodyOf(request: string): (body: Option<string>)
    ensures body.None? <==> forall i: nat :: i + 4 < |request| ==> !OccursAt(request, BlankLine, i)
    ensures body.Some? ==>
              body.value != [] && |body.value| + 4 <= |request| &&
              OccursAt(request, BlankLine, |request| - |body.value| - 4) &&
              request[|request| - |body.value|..] == body.value &&
              forall i: nat :: i < |request| - |body.value| - 4 ==> !OccursAt(request, BlankLine, i)
  {
    match Find(request, BlankLine)
    case None => None
    case Some(pos) =>
      var rest := request[pos + 4..];
      if rest != [] then Some(rest) else None
  }

  /** One `&`-separated piece of the query, split at its first '='. */
  function QueryPair(piece: string): (kv: Option<(string, string)>)
    ensures kv.Some? <==> '=' in piece
    ensures kv.Some? ==> '=' !in kv.value.0 && kv.value.0 + "=" + kv.value.1 == piece
  {
    var parts := SplitN2(piece, '=');
    if |parts| == 2 then Some((parts[0], parts[1])) else None
  }

  predicate PairWithKey(piece: string, key: string) {
    QueryPair(piece).Some? && QueryPair(piece).value.0 == key
  }

  /** The map built by inserting each piece's pair in turn. */
  function QueryMap(pieces: seq<string>): (m: map<string, string>)
    ensures |m| <= |pieces|
    decreases |pieces|
  {
    if pieces == [] then map[]
    else
      var m := QueryMap(pieces[..|pieces| - 1]);
      match QueryPair(pieces[|pieces| - 1])
      case Some((k, v)) => m[k := v]
      case None => m
  }

  /** The query parameters of a request target: what follows its first '?'. */
  function QueryParams(target: string): (q: map<string, string>)
    ensures '?' !in target ==> q == map[]
  {
    var parts := SplitN2(target, '?');
    if |parts| > 1 then QueryMap(Split(parts[1], '&')) else map[]
  }

  /** A key is in the query map exactly when some piece carries it before an '='. */
  lemma {:induction false} QueryMapKeys(pieces: seq<string>, key: string)
    ensures key in QueryMap(pieces) <==> exists j :: 0 <= j < |pieces| && PairWithKey(pieces[j], key)
    decreases |pieces|
  {
    if pieces != [] {
      var n := |pieces| - 1;
      var init := pieces[..n];
      QueryMapKeys(init, key);
      assert key in QueryMap(pieces) <==> key in QueryMap(init) || PairWithKey(pieces[n], key);
      if key in QueryMap(pieces) {
        if !PairWithKey(pieces[n], key) {
          var j :| 0 <= j < n && PairWithKey(init[j], key);
          assert pieces[j] == init[j];
        }
      } else {
        forall j | 0 <= j < |pieces|
          ensures !PairWithKey(pieces[j], key)
        {
          if j < n {
            assert pieces[j] == init[j];
          }
        }
      }
    }
  }

  /** The value kept for a key is the one of the last piece that carries it. */
  lemma {:induction false} QueryMapLastWins(pieces: seq<string>, j: nat)
    requires j < |pieces| && QueryPair(pieces[j]).Some?
    requires forall k :: j < k < |pieces| ==> !PairWithKey(pieces[k], QueryPair(pieces[j]).value.0)
    ensures QueryPair(pieces[j]).value.0 in QueryMap(pieces)
    ensures QueryMap(pieces)[QueryPair(pieces[j]).value.0] == QueryPair(pieces[j]).value.1
    decreases |pieces|
  {
    var init := pieces[..|pieces| - 1];
    var key := QueryPair(pieces[j]).value.0;
    if j < |pieces| - 1 {
      assert init[j] == pieces[j];
      assert forall k :: j < k < |init| ==> init[k] == pieces[k];
      QueryMapLastWins(init, j);
      assert !PairWithKey(pieces[|pieces| - 1], key);
    }
  }

  /** `parse_http_request`, as a function of the raw request text. */
  function Parse(request: string): (r: Result<HttpRequest, string>)
    ensures r == Err("Empty request") <==> request == []
    ensures r == Err("Invalid request line") <==> request != [] && |Tokens(Lines(request)[0])| < 2
    ensures r.Ok? <==> request != [] && |Tokens(Lines(request)[0])| >= 2
    ensures r.Ok? ==>
              var target := Tokens(Lines(request)[0])[1];
              var req := r.value;
              req.httpMethod == Tokens(Lines(request)[0])[0] &&
              StartsWith(target, req.path) && '?' !in req.path &&
              (req.path == target || target[|req.path|] == '?') &&
              req.queryParams == QueryParams(target) &&
              req.body == BodyOf(request)
  {
    var lines := Lines(request);
    if |lines| == 0 then Err("Empty request")
    else
      var firstLine := Tokens(lines[0]);
      if |firstLine| < 2 then Err("Invalid request line")
      else
        var target := firstLine[1];
        var parts := SplitN2(target, '?');
        assert |parts| == 2 ==> target == parts[0] + ['?'] + parts[1];
        assert |parts| == 2 ==> target[..|parts[0]|] == parts[0] && target[|parts[0]|] == '?';
        Ok(HttpRequest(firstLine[0], parts[0], QueryParams(target), BodyOf(request)))
  }

  lemma TokensAfterSpace(rest: string)
    ensures Tokens(" " + rest) == Tokens(rest)
  {
    assert IsWhitespace(' ');
    assert (" " + rest)[1..] == rest;
  }

  lemma RequestLineAssociates(m: string, target: string, tail: string)
    ensures m + " " + target + tail == m + (" " + (target + tail))
  {
  }

  lemma TokensOfMethodAndTarget(m: string, target: string, tail: string)
    requires IsToken(m) && IsToken(target)
    requires tail == [] || IsWhitespace(tail[0])
    ensures Tokens(m + (" " + (target + tail))) == [m] + ([target] + Tokens(tail))
  {
    var afterTarget := target + tail;
    TokensAfterToken(target, tail);
    TokensAfterSpace(afterTarget);
    assert (" " + afterTarget)[0] == ' ';
    TokensAfterToken(m, " " + afterTarget);
  }

  lemma RequestLineTokens(m: string, target: string, tail: string)
    requires IsToken(m) && IsToken(target)
    requires tail == [] || IsWhitespace(tail[0])
    ensures Tokens(m + " " + target + tail) == [m, target] + Tokens(tail)
  {
    RequestLineAssociates(m, target, tail);
    TokensOfMethodAndTarget(m, target, tail);
    TwoThenAppend(m, target, Tokens(tail));
  }

  lemma TwoThenAppend<T>(x: T, y: T, zs: seq<T>)
    ensures [x] + ([y] + zs) == [x, y] + zs
  {
  }

  lemma RequestLinePrefixIsOneLine(m: string, target: string)
    requires IsToken(m) && IsToken(target)
    ensures var prefix := m + " " + target;
            prefix != [] && '\n' !in prefix && prefix[|prefix| - 1] != '\r'
  {
    var prefix := m + " " + target;
    assert IsWhitespace('\n') && IsWhitespace('\r');
    assert prefix[|prefix| - 1] == target[|target| - 1];
    assert forall k :: 0 <= k < |m| ==> prefix[k] == m[k];
    assert forall k :: 0 <= k < |target| ==> prefix[|m| + 1 + k] == target[k];
  }

  lemma LineRemainderStartsWithWhitespace(rest: string)
    requires rest == [] || IsWhitespace(rest[0])
    ensures var tail := LineRemainder(rest); tail == [] || IsWhitespace(tail[0])
  {
    var j := IndexOf(rest, '\n');
    if j < |rest| && j > 0 {
      assert rest[..j][0] == rest[0];
    }
  }

  /** A request whose first line starts with a method token and a target
      token is parsed into that method, the target's path and the target's
      query; whatever follows the target on the line (the version, extra
      tokens) and on later lines does not change them. */
  lemma ParseRequestLine(m: string, target: string, rest: string)
    requires IsToken(m) && IsToken(target)
    requires rest == [] || IsWhitespace(rest[0])
    ensures var r := Parse(m + " " + target + rest);
            r.Ok? && r.value.httpMethod == m &&
            r.value.path == SplitN2(target, '?')[0] &&
            r.value.queryParams == QueryParams(target)
  {
    var prefix := m + " " + target;
    RequestLinePrefixIsOneLine(m, target);
    FirstLineAfter(prefix, rest);
    LineRemainderStartsWithWhitespace(rest);
    RequestLineTokens(m, target, LineRemainder(rest));
    assert Tokens(Lines(prefix + rest)[0]) == [m, target] + Tokens(LineRemainder(rest));
  }

  /** The `for pair in ...split('&')` loop of `parse_http_request`: each
      piece holding '=' is inserted in turn, a later key overwriting an
      earlier one. */
  method InsertQueryPairs(query: string) returns (queryParams: map<string, string>)
    ensures queryParams == QueryMap(Split(query, '&'))
  {
    var pairs := Split(query, '&');
    queryParams := map[];
    var i := 0;
    while i < |pairs|
      invariant 0 <= i <= |pairs|
      invariant queryParams == QueryMap(pairs[..i])
    {
      var kv := SplitN2(pairs[i], '=');
      if |kv| == 2 {
        queryParams := queryParams[kv[0] := kv[1]];
      }
      assert pairs[..i + 1][..i] == pairs[..i];
      i := i + 1;
    }
    assert pairs[..|pairs|] == pairs;
  }

  /** `parse_http_request`. */
  method ParseHttpRequest(request: string) returns (r: Result<HttpRequest, string>)
    ensures r == Parse(request)
  {
    var lines := Lines(request);
    if |lines| == 0 {
      return Err("Empty request");
    }
    var firstLine := Tokens(lines[0]);
    if |firstLine| < 2 {
      return Err("Invalid request line");
    }
    var httpMethod := firstLine[0];
    var fullPath := firstLine[1];
    var parts := SplitN2(fullPath, '?');
    var path := parts[0];
    var queryParams: map<string, string> := map[];
    if |parts| > 1 {
      queryParams := InsertQueryPairs(parts[1]);
    }
    r := Ok(HttpRequest(httpMethod, path, queryParams, BodyOf(request)));
  }

  // ---------------------------------------------------------------------------
  // Routing (`ApiRouter::route_request`)

  /** The handlers the route table names; what they do is not part of this model. */
  datatype Handler = TrafficStats | TrafficConnections | DnsLogs

  /** What the router does with a request: flush and then answer, call a
      handler, or answer directly. */
  datatype ApiAction = RunFlush(reply: HttpResponse) | RunHandler(handler: Handler) | Respond(response: HttpResponse)

  const FlushCompletedBody: string := "{\"status\":\"success\",\"message\":\"Flush completed\"}"

  /** First match over (method, path), both compared for equality. */
  function RouteRequest(req: HttpRequest): (a: ApiAction)
    ensures a.RunFlush? <==> req.path == "/api/flush" && (req.httpMethod == "POST" || req.httpMethod == "GET")
    ensures a.RunFlush? ==> a.reply == HttpOk(FlushCompletedBody)
    ensures a == RunHandler(TrafficStats) <==> req.httpMethod == "GET" && req.path == "/api/traffic/stats"
    ensures a == RunHandler(TrafficConnections) <==> req.httpMethod == "GET" && req.path == "/api/traffic/connections"
    ensures a == RunHandler(DnsLogs) <==> req.httpMethod == "GET" && req.path == "/api/dns/logs"
    ensures a.Respond? ==> a.response == HttpNotFound()
  {
    var m, p := req.httpMethod, req.path;
    if (m == "POST" || m == "GET") && p == "/api/flush" then RunFlush(HttpOk(FlushCompletedBody))
    else if m == "GET" && p == "/api/traffic/stats" then RunHandler(TrafficStats)
    else if m == "GET" && p == "/api/traffic/connections" then RunHandler(TrafficConnections)
    else if m == "GET" && p == "/api/dns/logs" then RunHandler(DnsLogs)
    else Respond(HttpNotFound())
  }
}
