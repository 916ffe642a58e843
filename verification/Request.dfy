/** From the socket to the CGI program's arguments: exe_cgi of httpd.c and the main program of
    math_cgi.c together. */
module Request {
  import opened Text
  import opened LineReader
  import opened Framing
  import opened QueryString
  import RequestLine

  // ---------------------------------------------------------------- the CGI program

  function BodyLength(env: map<string, string>): nat
    requires CONTENT_LEN in env
  {
    var n := Atoi(env[CONTENT_LEN]);
    if n < 0 then 0 else n
  }

  /** The variables are set, and the body fits char buf[1024] and has been written to the pipe. */
  predicate Runs(env: map<string, string>, input: string) {
    && METHOD in env
    && if EqualIgnoringCase(env[METHOD], "GET") then QUERY_STRING in env
       else CONTENT_LEN in env && BodyLength(env) < LINE && BodyLength(env) <= |input|
  }

  /** The query string that the CGI works on, given its environment and standard input. */
  function Query(env: map<string, string>, input: string): string
    requires Runs(env, input)
  {
    if EqualIgnoringCase(env[METHOD], "GET") then CString(env[QUERY_STRING], 0)
    else CString(input[..BodyLength(env)], 0)
  }

  /** The loop of main that reads the body byte by byte, and its terminating NUL. */
  method ReadBody(stdin: Stream, contentLen: int, buf: array<char>)
    requires stdin.Valid() && contentLen < buf.Length && contentLen <= |stdin.Rest()| && buf.Length > 0
    modifies stdin, buf
    ensures var n := if contentLen < 0 then 0 else contentLen;
      && buf[..n] == old(stdin.Rest())[..n] && buf[n] == NUL && buf[n + 1..] == old(buf[n + 1..])
      && stdin.Valid() && stdin.Rest() == old(stdin.Rest())[n..]
  {
    ghost var rest := stdin.Rest();
    var i := 0;
    while i < contentLen
      invariant 0 <= i && (i <= contentLen || i == 0)
      invariant stdin.Valid() && stdin.Rest() == rest[i..]
      invariant buf[..i] == rest[..i] && buf[i..] == old(buf[i..])
    {
      var r, c := stdin.Recv(buf[i]);
      buf[i] := c;
      i := i + 1;
    }
    buf[i] := NUL;
  }

  lemma {:induction false} MarksAndArguments(s: string, i: nat)
    requires i <= |s|
    ensures |Marks(s, i)| == |Arguments(s[i..])|
    ensures i == 0 ==> |Marks(s, i)| == |Arguments(s)|
    decreases |s| - i
  {
    if i < |s| {
      assert s[i..][1..] == s[i + 1..];
      MarksAndArguments(s, i + 1);
    }
    if i == 0 {
      assert s[0..] == s;
    }
  }

  /** Splits the string at the start of buf and reads the arguments through the pointers. */
  method Collect(buf: array<char>, ghost s: string, pointers: nat) returns (values: seq<string>)
    requires exists k :: 0 <= k < buf.Length && buf[k] == NUL
    requires s == CString(buf[..], 0) && |Arguments(s)| < pointers
    modifies buf
    ensures values == Arguments(s)
  {
    CStringPrefix(buf[..], 0);
    MarksAndArguments(s, 0);
    var argv := new int[pointers](_ => NULL);
    ghost var before := buf[..];
    var n := Split(buf, argv);
    assert buf[|s|] == buf[|s|..][0] == before[|s|..][0];
    PointersAreArguments(s, buf[..]);
    assert forall k :: 0 <= k < n ==> argv[..n][k] == Marks(s, 0)[k];
    values := [];
    var i := 0;
    while argv[i] != NULL
      invariant 0 <= i <= n && |values| == i
      invariant forall k :: 0 <= k < n ==> argv[k] == Marks(s, 0)[k]
      invariant forall k :: 0 <= k < i ==> values[k] == Arguments(s)[k]
      decreases n - i
    {
      values := values + [CString(buf[..], argv[i])];
      i := i + 1;
    }
  }

  /** main of a CGI program up to the arguments it passes on, with room for `pointers` pointers;
      math_cgi has 3. */
  method CgiMain(env: map<string, string>, stdin: Stream, pointers: nat) returns (values: seq<string>)
    requires stdin.Valid() && Runs(env, stdin.Rest())
    requires |Arguments(Query(env, stdin.Rest()))| < pointers
    modifies stdin
    ensures values == Arguments(Query(env, old(stdin.Rest())))
  {
    ghost var input := stdin.Rest();
    var buf: array<char>;
    ghost var text: string;
    if EqualIgnoringCase(env[METHOD], "GET") {
      var q := env[QUERY_STRING];
      buf := new char[|q| + 1](i requires 0 <= i < |q| + 1 => if i < |q| then q[i] else NUL);
      text := q;
      assert buf[..|q|] == q;
    } else {
      buf := new char[LINE](_ => NUL);
      ReadBody(stdin, Atoi(env[CONTENT_LEN]), buf);
      text := input[..BodyLength(env)];
    }
    CStringOfPrefix(text, buf[..], 0);
    ghost var s := CString(text, 0);
    values := Collect(buf, s, pointers);
  }

  // ---------------------------------------------------------------- well-formed requests

  /** A header line: not empty, without line breaks, and short enough for the line buffer. */
  predicate Plain(h: string) {
    h != "" && |h| < LINE - 1 && '\n' !in h && '\r' !in h
  }

  /** The request after its request line, as RFC 1945 lays it out. */
  function RequestText(headers: seq<string>, body: string): string {
    if headers == [] then "\r\n" + body else headers[0] + ("\r\n" + RequestText(headers[1..], body))
  }

  function Shown(headers: seq<string>): seq<string> {
    if headers == [] then [] else [headers[0] + "\n"] + Shown(headers[1..])
  }

  lemma {:induction false} ContentOf(h: string, rest: string)
    requires '\n' !in h && '\r' !in h && |rest| >= 2 && rest[..2] == "\r\n"
    ensures Content(h + rest) == |h| && LineEnd(h + rest) == |h| + 2
    ensures FirstLine(h + rest) == h + "\n"
  {
    if h == "" {
      assert h + rest == rest;
      assert rest[0] == rest[..2][0] && rest[1] == rest[..2][1];
    } else {
      assert (h + rest)[1..] == h[1..] + rest;
      ContentOf(h[1..], rest);
      LineOfTail(h + rest);
      assert [h[0]] + (h[1..] + "\n") == h + "\n";
    }
  }

  lemma {:induction false} HeaderOf(headers: seq<string>, body: string)
    requires forall i :: 0 <= i < |headers| ==> Plain(headers[i])
    ensures var s := RequestText(headers, body);
      && HeaderEnd(s) == |s| - |body| && s[HeaderEnd(s)..] == body
      && HeaderLines(s) == Shown(headers) && Fits(s, LINE - 1)
  {
    var s := RequestText(headers, body);
    if headers == [] {
      ContentOf("", s);
      assert "" + s == s;
    } else {
      var rest := RequestText(headers[1..], body);
      var tail := "\r\n" + rest;
      assert tail[..2] == "\r\n";
      ContentOf(headers[0], tail);
      assert s[LineEnd(s)..] == rest;
      HeaderOf(headers[1..], body);
      assert s[LineEnd(s) + HeaderEnd(rest)..] == rest[HeaderEnd(rest)..];
    }
  }

  lemma {:induction false} LastIsGiven(before: seq<string>, line: string, after: seq<string>, default: int)
    requires IsContentLength(line) && forall i :: 0 <= i < |after| ==> !IsContentLength(after[i])
    ensures LastContentLength(before + [line] + after, default) == Atoi(line[16..])
  {
    var all := before + [line] + after;
    if after == [] {
      assert all == before + [line];
    } else {
      assert all[..|all| - 1] == before + [line] + after[..|after| - 1];
      LastIsGiven(before, line, after[..|after| - 1], default);
    }
  }

  lemma {:induction false} ShownAt(headers: seq<string>)
    ensures |Shown(headers)| == |headers|
    ensures forall i :: 0 <= i < |headers| ==> Shown(headers)[i] == headers[i] + "\n"
  {
    if headers != [] {
      ShownAt(headers[1..]);
    }
  }

  /** The header that announces a body of n bytes: the name in any case, white space, the number. */
  ghost predicate Announces(h: string, n: nat) {
    && |h| >= 16 && EqualIgnoringCase(h[..16], CONTENT_LENGTH)
    && exists k :: 16 <= k <= |h| && (forall i :: 16 <= i < k ==> IsSpace(h[i])) && h[k..] == Decimal(n)
  }

  /** The last Content-Length header, at position i, announces n bytes. */
  ghost predicate Announced(headers: seq<string>, i: nat, n: nat) {
    && i < |headers| && Announces(headers[i], n)
    && forall j :: i < j < |headers| ==> !IsContentLength(headers[j])
  }

  lemma ShownIsContentLength(h: string)
    requires Plain(h)
    ensures IsContentLength(h + "\n") <==> IsContentLength(h)
  {
    if |h| >= 16 {
      assert (h + "\n")[..16] == h[..16];
    } else if |h| == 15 {
      assert (h + "\n")[..16][15] == '\n';
    }
  }

  lemma ValueAt(h: string, k: nat, value: string)
    requires 16 <= k <= |h| && h[k..] == value
    ensures (h + "\n")[16..] == h[16..k] + (value + "\n")
  {}

  lemma AnnouncedValue(h: string, n: nat)
    requires Announces(h, n)
    ensures Atoi((h + "\n")[16..]) == n
  {
    var k :| 16 <= k <= |h| && (forall j :: 16 <= j < k ==> IsSpace(h[j])) && h[k..] == Decimal(n);
    ValueAt(h, k, Decimal(n));
    AtoiOfDecimal(h[16..k], n, "\n");
  }

  lemma LengthIsRead(headers: seq<string>, i: nat, n: nat, default: int)
    requires forall j :: 0 <= j < |headers| ==> Plain(headers[j])
    requires Announced(headers, i, n)
    ensures LastContentLength(Shown(headers), default) == n
  {
    ShownAt(headers);
    var lines := Shown(headers);
    forall j | 0 <= j < |headers| ensures IsContentLength(lines[j]) <==> IsContentLength(headers[j]) {
      ShownIsContentLength(headers[j]);
    }
    assert lines == lines[..i] + [lines[i]] + lines[i + 1..];
    LastIsGiven(lines[..i], lines[i], lines[i + 1..], default);
    AnnouncedValue(headers[i], n);
  }

  /** The scan of a well-formed request stops at its body and knows its length. */
  lemma WellFormedIsFramed(headers: seq<string>, i: nat, body: string, extra: string)
    requires forall j :: 0 <= j < |headers| ==> Plain(headers[j])
    requires Announced(headers, i, |body|)
    ensures var s := RequestText(headers, body + extra);
      var n := StopEnd(s, LINE - 1);
      ContentLength(s) == |body| && s[n..] == body + extra && Relayed(s[n..], ContentLength(s)) == body
  {
    HeaderOf(headers, body + extra);
    FittingLines(RequestText(headers, body + extra), LINE - 1);
    LengthIsRead(headers, i, |body|, -1);
    assert (body + extra)[..|body|] == body;
  }

  lemma {:induction false} EncodedWithoutNul(pairs: seq<(string, string)>)
    requires Without(pairs, NUL)
    ensures NUL !in Encode(pairs)
  {
    if pairs != [] {
      EncodedWithoutNul(pairs[1..]);
    }
  }

  /** A request line without its end. */
  function LineOf(meth: string, url: string, version: string): string { meth + (" " + (url + (" " + version))) }

  /** The request line of a form sent by GET. */
  function QueryLine(path: string, query: string, version: string): string {
    LineOf("GET", path + ("?" + query), version)
  }

  lemma QueryLineReturns(path: string, query: string, version: string)
    requires RequestLine.Token(path) && RequestLine.Token(query) && '?' !in path
    requires |QueryLine(path, query, version)| < 1016
    ensures var text := QueryLine(path, query, version) + "\n";
      && RequestLine.Takes(text) && RequestLine.Method(text) == "GET"
      && RequestLine.Path(text) == path && RequestLine.Query(text) == query
  {
    var tail, url := (" " + version) + "\n", path + ("?" + query);
    assert RequestLine.EndsLine(tail) && tail[0] == ' ';
    RequestLine.PartsReturn("GET", path, query, tail);
    assert QueryLine(path, query, version) + "\n" == "GET" + (" " + (url + tail));
    RequestLine.ShortLineFits(QueryLine(path, query, version) + "\n");
  }

  lemma NoBreaks(meth: string, url: string, version: string)
    requires RequestLine.Token(meth) && RequestLine.Token(url)
    requires '\n' !in version && '\r' !in version
    ensures '\n' !in LineOf(meth, url, version) && '\r' !in LineOf(meth, url, version)
  {
    IsSpaceExact('\n');
    IsSpaceExact('\r');
  }

  lemma LineIsRead(line: string, rest: string)
    requires '\n' !in line && '\r' !in line && |line| < LINE - 1
    ensures Chunk(line + ("\r\n" + rest), LINE - 1) == (line + "\n", |line| + 2)
  {
    var tail := "\r\n" + rest;
    assert tail[..2] == "\r\n";
    ContentOf(line, tail);
    ChunkOfShortLine(line + tail, LINE - 1);
  }

  lemma AfterLine(line: string, text: string)
    ensures (line + ("\r\n" + text))[|line| + 2..] == text
  {}

  /** A request on a connection: a line, its end, and some text after it. */
  method Send(line: string, text: string) returns (r: Outcome, ghost left: string)
    requires '\n' !in line && '\r' !in line && |line| < LINE - 1 && RequestLine.Takes(line + "\n")
    requires RequestLine.Method(line + "\n") == "GET" || RequestLine.Method(line + "\n") == "POST"
    ensures Served(text, RequestLine.Method(line + "\n"), RequestLine.Query(line + "\n"), r, left)
  {
    ghost var shown, m := line + "\n", RequestLine.Method(line + "\n");
    LineIsRead(line, text);
    AfterLine(line, text);
    MethodsExact(m);
    var sock := new Stream(line + ("\r\n" + text));
    r := RequestLine.HandlerRequest(sock);
    left := sock.Rest();
  }

  lemma PostLineReturns(url: string, version: string)
    requires RequestLine.Token(url) && url != "" && |LineOf("POST", url, version)| < LINE - 1
    ensures var text := LineOf("POST", url, version) + "\n";
      RequestLine.Takes(text) && RequestLine.Method(text) == "POST"
  {
    var tail := (" " + version) + "\n";
    assert RequestLine.EndsLine(tail) && tail[0] == ' ';
    RequestLine.WordsReturn("POST", url, tail);
    RequestLine.WholeToken("POST");
    assert LineOf("POST", url, version) + "\n" == "POST" + (" " + (url + tail));
    MethodsExact("POST");
  }

  /** What the child gets of a POST whose header announces its body. */
  lemma PostIsServed(
      headers: seq<string>, i: nat, body: string, extra: string, query: string, r: Outcome, left: string)
    requires forall j :: 0 <= j < |headers| ==> Plain(headers[j])
    requires Announced(headers, i, |body|)
    requires Served(RequestText(headers, body + extra), "POST", query, r, left)
    ensures r == Child(map["METHOD" := "POST", "CONTENT_LEN" := Decimal(|body|)], body)
  {
    WellFormedIsFramed(headers, i, body, extra);
    MethodsExact("POST");
  }

  /** The CGI's part in a POST. */
  method AnswerForm(pairs: seq<(string, string)>, env: map<string, string>, input: string, pointers: nat)
    returns (values: seq<string>)
    requires env == map[METHOD := "POST", CONTENT_LEN := Decimal(|Encode(pairs)|)] && input == Encode(pairs)
    requires |Encode(pairs)| < LINE && Without(pairs, NUL) && CountEquals(Encode(pairs)) < pointers
    ensures values == Values(pairs) <==> Without(pairs, '=') && WholeValues(pairs)
  {
    ghost var body := Encode(pairs);
    assert Decimal(|body|) == Decimal(|body|) + "";
    AtoiWithoutSpaces(|body|, "");
    MethodsExact("POST");
    var stdin := new Stream(input);
    assert body[..|body|] == body;
    EncodedWithoutNul(pairs);
    WholeString(body, 0);
    RoundTrip(pairs);
    OneArgumentPerEquals(body);
    values := CgiMain(env, stdin, pointers);
  }

  /** A form sent by POST reaches the CGI's code as the values that were filled in, whatever other
      headers it has and whatever follows it on the connection, exactly if no part contains a '='
      and no value an '&'. */
  method ServeForm(url: string, version: string, headers: seq<string>, i: nat, pairs: seq<(string, string)>,
                   extra: string, pointers: nat)
    returns (values: seq<string>)
    requires RequestLine.Token(url) && url != "" && '\n' !in version && '\r' !in version
    requires |LineOf("POST", url, version)| < LINE - 1
    requires forall j :: 0 <= j < |headers| ==> Plain(headers[j])
    requires Announced(headers, i, |Encode(pairs)|) && |Encode(pairs)| < LINE
    requires Without(pairs, NUL) && CountEquals(Encode(pairs)) < pointers
    ensures values == Values(pairs) <==> Without(pairs, '=') && WholeValues(pairs)
  {
    var line, text := LineOf("POST", url, version), RequestText(headers, Encode(pairs) + extra);
    NoBreaks("POST", url, version);
    PostLineReturns(url, version);
    ghost var left;
    var r;
    r, left := Send(line, text);
    PostIsServed(headers, i, Encode(pairs), extra, RequestLine.Query(line + "\n"), r, left);
    values := AnswerForm(pairs, r.env, r.input, pointers);
  }

  lemma GetIsServed(rest: string, query: string, r: Outcome, left: string)
    requires Served(rest, "GET", query, r, left)
    ensures r == Child(map["METHOD" := "GET", "QUERY_STRING" := query], "")
  {
    MethodsExact("GET");
  }

  /** The CGI's part in a GET. */
  method AnswerQuery(pairs: seq<(string, string)>, env: map<string, string>, input: string, pointers: nat)
    returns (values: seq<string>)
    requires env == map[METHOD := "GET", QUERY_STRING := Encode(pairs)]
    requires RequestLine.Token(Encode(pairs)) && CountEquals(Encode(pairs)) < pointers
    ensures values == Values(pairs) <==> Without(pairs, '=') && WholeValues(pairs)
  {
    MethodsExact("GET");
    RequestLine.WholeToken(Encode(pairs));
    RoundTrip(pairs);
    OneArgumentPerEquals(Encode(pairs));
    var stdin := new Stream(input);
    values := CgiMain(env, stdin, pointers);
  }

  /** A form sent by GET reaches the CGI's code as the values that were filled in, whatever comes
      after the request line, exactly if no part contains a '=' and no value an '&'. */
  method ServeQuery(path: string, pairs: seq<(string, string)>, version: string, rest: string, pointers: nat)
    returns (values: seq<string>)
    requires RequestLine.Token(path) && '?' !in path && RequestLine.Token(Encode(pairs))
    requires '\n' !in version && '\r' !in version
    requires |QueryLine(path, Encode(pairs), version)| < 1016 && CountEquals(Encode(pairs)) < pointers
    ensures values == Values(pairs) <==> Without(pairs, '=') && WholeValues(pairs)
  {
    var form := Encode(pairs);
    var line := QueryLine(path, form, version);
    NoBreaks("GET", path + ("?" + form), version);
    QueryLineReturns(path, form, version);
    ghost var left;
    var r;
    r, left := Send(line, rest);
    GetIsServed(rest, form, r, left);
    values := AnswerQuery(pairs, r.env, r.input, pointers);
  }
}
