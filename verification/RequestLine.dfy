/** The request line in handler_request of httpd.c: method, path and query string are cut out of the
    line that get_line delivers. */
module RequestLine {
  import opened Text
  import opened LineReader
  import opened Framing

  const METHOD_SIZE := LINE / 10

  // ---------------------------------------------------------------- what the parts are

  /** The leading characters that are not white space, at most `limit` of them. */
  function Word(s: string, limit: nat): (w: string)
    ensures |w| <= |s| && |w| <= limit && w == s[..|w|]
    ensures |w| < limit && |w| < |s| ==> IsSpace(s[|w|])
    ensures forall i :: 0 <= i < |w| ==> !IsSpace(w[i])
  {
    if s == "" || limit == 0 || IsSpace(s[0]) then "" else [s[0]] + Word(s[1..], limit - 1)
  }

  function MethodWord(text: string): string { Word(text, METHOD_SIZE - 1) }

  function UrlWord(text: string): string { Word(SkipSpace(text[|MethodWord(text)|..]), LINE - 1) }

  function BeforeMark(url: string): string {
    if url == "" || url[0] == '?' then "" else [url[0]] + BeforeMark(url[1..])
  }

  /** What follows the first '?'; the empty string at the end if there is none. */
  function AfterMark(url: string): string {
    if url == "" then "" else if url[0] == '?' then url[1..] else AfterMark(url[1..])
  }

  function Method(text: string): string { CString(MethodWord(text), 0) }

  function Path(text: string): string { BeforeMark(CString(UrlWord(text), 0)) }

  function Query(text: string): string { AfterMark(CString(UrlWord(text), 0)) }

  /** A line as get_line delivers it unless the buffer or the stream ends first. */
  predicate EndsLine(text: string) { text != "" && text[|text| - 1] == '\n' }

  // ---------------------------------------------------------------- the loops

  /** A word in a line ends before the LF, at the first white space or at the limit. */
  lemma WordStops(text: string, start: nat, limit: nat)
    requires EndsLine(text) && start < |text|
    ensures var w := Word(text[start..], limit);
      && start + |w| < |text| && (|w| < limit ==> IsSpace(text[start + |w|]))
      && forall k :: 0 <= k < |w| ==> w[k] == text[start + k] && !IsSpace(w[k])
  {
    var s := text[start..];
    var w := Word(s, limit);
    assert s[|s| - 1] == '\n';
    assert forall k :: 0 <= k < |w| ==> w[k] == s[..|w|][k] == s[k];
  }

  /** The loops that copy the method and the url. */
  method CopyWord(buf: array<char>, start: nat, dst: array<char>, ghost text: string) returns (i: nat, j: nat)
    requires |text| <= buf.Length && buf[..|text|] == text && EndsLine(text) && start < |text|
    requires dst.Length >= 1 && dst != buf
    modifies dst
    ensures j == start + i < |text| && i < dst.Length
    ensures dst[..i] == Word(text[start..], dst.Length - 1) && dst[i] == NUL
  {
    ghost var w := Word(text[start..], dst.Length - 1);
    WordStops(text, start, dst.Length - 1);
    i, j := 0, start;
    while !IsSpace(buf[j]) && j < buf.Length && i < dst.Length - 1
      invariant j == start + i && i <= |w| && buf[..|text|] == text
      invariant dst[..i] == w[..i]
      invariant buf[j] == text[j]
      decreases |text| - j
    {
      assert buf[j] == w[i];
      dst[i] := buf[j];
      i, j := i + 1, j + 1;
      assert buf[j] == buf[..|text|][j];
    }
    dst[i] := NUL;
    assert dst[..i] == w[..i] == w;
  }

  method SkipWhite(buf: array<char>, start: nat, ghost text: string) returns (j: nat)
    requires |text| <= buf.Length && buf[..|text|] == text && start <= |text|
    requires start < |text| ==> text[|text| - 1] == '\n'
    requires SkipSpace(text[start..]) != ""
    ensures start <= j < |text| && text[j..] == SkipSpace(text[start..])
  {
    j := start;
    assert forall k :: 0 <= k < |text| ==> buf[k] == buf[..|text|][k];
    while IsSpace(buf[j]) && j < buf.Length
      invariant start <= j < |text| && SkipSpace(text[j..]) == SkipSpace(text[start..])
      decreases |text| - j
    {
      assert text[j..][0] == text[j] && text[j..][1..] == text[j + 1..];
      j := j + 1;
    }
    assert text[j..][0] == text[j];
  }

  /** The url is split at its first '?'. */
  lemma {:induction false} MarkSplits(url: string)
    ensures var n := |BeforeMark(url)|;
      && n <= |url| && BeforeMark(url) == url[..n] && '?' !in url[..n]
      && (n < |url| ==> url[n] == '?')
      && AfterMark(url) == if n < |url| then url[n + 1..] else ""
  {
    if url != "" && url[0] != '?' {
      MarkSplits(url[1..]);
      var n := |BeforeMark(url)|;
      assert url[..n] == [url[0]] + url[1..][..n - 1];
      assert n < |url| ==> url[1..][n..] == url[n + 1..];
    }
  }

  lemma {:induction false} CStringIs(buf: string, p: nat, end: nat)
    requires p <= end < |buf| && buf[end] == NUL && NUL !in buf[p..end]
    ensures CString(buf, p) == buf[p..end]
    decreases end - p
  {
    if p < end {
      assert buf[p..end][0] == buf[p] && buf[p..end][1..] == buf[p + 1..end];
      CStringIs(buf, p + 1, end);
    }
  }

  /** The buffer with the url u in it, cut at its first question mark. */
  lemma CutReads(before: string, cut: string, u: string, q: nat)
    requires u == CString(before, 0) && |u| < |before|
    requires var n := |BeforeMark(u)|;
      && n <= |u|
      && if n < |u| then cut == before[n := NUL] && q == n + 1 else cut == before && q == n
    ensures CString(cut, 0) == BeforeMark(u) && CString(cut, q) == AfterMark(u)
  {
    var n := |BeforeMark(u)|;
    CStringPrefix(before, 0);
    MarkSplits(u);
    assert cut[0..n] == u[..n] == BeforeMark(u);
    CStringIs(cut, 0, n);
    assert cut[q..|u|] == u[q..];
    CStringIs(cut, q, |u|);
  }

  /** The loop that cuts the query string off the url. */
  method CutAtMark(url: array<char>) returns (q: nat)
    requires exists k :: 0 <= k < url.Length && url[k] == NUL
    modifies url
    ensures var u := CString(old(url[..]), 0);
      CString(url[..], 0) == BeforeMark(u) && q < url.Length && CString(url[..], q) == AfterMark(u)
  {
    ghost var before := url[..];
    ghost var u := CString(before, 0);
    ghost var n := |BeforeMark(u)|;
    CStringPrefix(before, 0);
    MarkSplits(u);
    q := 0;
    while url[q] != NUL
      invariant q <= n && url[..] == before
      decreases n - q
    {
      assert url[q] == u[q];
      if url[q] == '?' {
        url[q] := NUL;
        q := q + 1;
        break;
      }
      q := q + 1;
    }
    CutReads(before, url[..], u, q);
  }

  // ---------------------------------------------------------------- the request line as a whole

  /** Something follows the method. */
  predicate HasUrl(text: string) { SkipSpace(text[|MethodWord(text)|..]) != "" }

  lemma {:induction false} SkipSpaceShorter(s: string)
    ensures |SkipSpace(s)| <= |s|
    ensures s != "" && IsSpace(s[0]) ==> |SkipSpace(s)| < |s|
    ensures SkipSpace(s) != "" ==> SkipSpace(s)[|SkipSpace(s)| - 1] == s[|s| - 1]
  {
    if s != "" && IsSpace(s[0]) {
      SkipSpaceShorter(s[1..]);
    }
  }

  /** Besides the url there are at least the method, a space and the LF. */
  lemma UrlIsShorter(text: string)
    requires EndsLine(text) && HasUrl(text) && |MethodWord(text)| >= 3
    ensures |UrlWord(text)| + 5 <= |text|
  {
    var m := |MethodWord(text)|;
    var rest := text[m..];
    var url := SkipSpace(rest);
    assert m < |text| && (m < METHOD_SIZE - 1 ==> IsSpace(text[m])) by {
      WordStops(text, 0, METHOD_SIZE - 1);
      assert text[0..] == text;
    }
    SkipSpaceShorter(rest);
    assert |Word(url, LINE - 1)| < |url| by {
      WordStops(url, 0, LINE - 1);
      assert url[0..] == url;
    }
  }

  /** In the request line of a GET at least 6 characters are not part of the query string. */
  lemma QueryIsShorter(text: string)
    requires EndsLine(text) && HasUrl(text) && |Method(text)| >= 3
    ensures Query(text) != "" ==> |Query(text)| + 6 <= |text|
  {
    CStringPrefix(MethodWord(text), 0);
    UrlIsShorter(text);
    CStringPrefix(UrlWord(text), 0);
    MarkSplits(CString(UrlWord(text), 0));
  }

  /** The parts are cut to the sizes of their arrays. */
  lemma PartsAreShort(text: string)
    ensures |Method(text)| <= 101 && |Path(text)| + |Query(text)| <= 1023
  {
    CStringPrefix(MethodWord(text), 0);
    CStringPrefix(UrlWord(text), 0);
    MarkSplits(CString(UrlWord(text), 0));
  }

  /** So the query string of every GET line of at most 1016 characters fits its array ... */
  lemma ShortLineFits(text: string)
    requires EndsLine(text) && HasUrl(text) && EqualIgnoringCase(Method(text), "GET") && |text| <= 1016
    ensures VariableFits(QUERY_STRING, Query(text), LINE)
  {
    QueryIsShorter(text);
  }

  lemma {:induction false} WordIs(w: string, rest: string, limit: nat)
    requires |w| <= limit && (forall i :: 0 <= i < |w| ==> !IsSpace(w[i]))
    requires rest != "" && IsSpace(rest[0])
    ensures Word(w + rest, limit) == w
  {
    if w == "" {
      assert w + rest == rest;
    } else {
      assert (w + rest)[1..] == w[1..] + rest;
      WordIs(w[1..], rest, limit - 1);
    }
  }

  lemma {:induction false} MarkIs(path: string, query: string)
    requires '?' !in path
    ensures BeforeMark(path + ("?" + query)) == path && AfterMark(path + ("?" + query)) == query
  {
    var url := path + ("?" + query);
    if path == "" {
      assert url == "?" + query && url[1..] == query;
    } else {
      assert url[1..] == path[1..] + ("?" + query);
      MarkIs(path[1..], query);
    }
  }

  lemma {:induction false} NoMark(url: string)
    requires '?' !in url
    ensures BeforeMark(url) == url && AfterMark(url) == ""
  {
    if url != "" {
      NoMark(url[1..]);
    }
  }

  /** A part of a request line. */
  predicate Token(s: string) {
    forall i :: 0 <= i < |s| ==> !IsSpace(s[i]) && s[i] != NUL
  }

  lemma WholeToken(s: string)
    requires Token(s)
    ensures CString(s, 0) == s
  {
    WholeString(s, 0);
    assert s[0..] == s;
  }

  lemma OneSpace(s: string)
    requires s != "" && !IsSpace(s[0])
    ensures SkipSpace(" " + s) == s
  {
    assert (" " + s)[1..] == s;
  }

  lemma EndOfLine(s: string, tail: string)
    requires EndsLine(tail)
    ensures EndsLine(s + tail)
  {}

  lemma MethodReturns(meth: string, rest: string)
    requires Token(meth) && |meth| < METHOD_SIZE && rest != "" && IsSpace(rest[0])
    ensures MethodWord(meth + rest) == meth && (meth + rest)[|meth|..] == rest
  {
    WordIs(meth, rest, METHOD_SIZE - 1);
  }

  lemma UrlReturns(text: string, url: string, tail: string)
    requires text[|MethodWord(text)|..] == " " + (url + tail)
    requires Token(url) && 0 < |url| < LINE && tail != "" && IsSpace(tail[0])
    ensures HasUrl(text) && UrlWord(text) == url
  {
    assert (url + tail)[0] == url[0];
    OneSpace(url + tail);
    WordIs(url, tail, LINE - 1);
  }

  /** A method and a url are found again; `tail` begins with white space. */
  lemma WordsReturn(meth: string, url: string, tail: string)
    requires Token(meth) && Token(url) && |meth| < METHOD_SIZE && 0 < |url| < LINE
    requires EndsLine(tail) && IsSpace(tail[0])
    ensures var text := meth + (" " + (url + tail));
      EndsLine(text) && HasUrl(text) && MethodWord(text) == meth && UrlWord(text) == url
  {
    var rest := " " + (url + tail);
    EndOfLine(url, tail);
    EndOfLine(" ", url + tail);
    EndOfLine(meth, rest);
    MethodReturns(meth, rest);
    UrlReturns(meth + rest, url, tail);
  }

  /** A request line is taken apart into what it was made of. */
  lemma PartsReturn(meth: string, path: string, query: string, tail: string)
    requires Token(meth) && Token(path) && Token(query) && '?' !in path
    requires |meth| <= 101 && |path| + 1 + |query| <= 1023
    requires EndsLine(tail) && IsSpace(tail[0])
    ensures var text := meth + (" " + ((path + ("?" + query)) + tail));
      && EndsLine(text) && HasUrl(text)
      && Method(text) == meth && Path(text) == path && Query(text) == query
  {
    var url := path + ("?" + query);
    WordsReturn(meth, url, tail);
    WholeToken(meth);
    WholeToken(url);
    MarkIs(path, query);
  }

  /** Without a question mark the url is the path, and the query string is empty. */
  lemma PlainUrlReturns(meth: string, url: string, tail: string)
    requires Token(meth) && Token(url) && '?' !in url && |meth| <= 101 && 0 < |url| <= 1023
    requires EndsLine(tail) && IsSpace(tail[0])
    ensures var text := meth + (" " + (url + tail));
      Method(text) == meth && Path(text) == url && Query(text) == ""
  {
    WordsReturn(meth, url, tail);
    WholeToken(meth);
    WholeToken(url);
    NoMark(url);
  }

  /** ... but for every greater length there is a line with a query string that does not. */
  lemma LongLineMayNotFit(n: nat) returns (text: string)
    requires 1016 < n < LINE
    ensures |text| == n && EndsLine(text) && HasUrl(text) && Method(text) == "GET"
    ensures !VariableFits(QUERY_STRING, Query(text), LINE)
  {
    var query := seq(n - 6, _ => 'x');
    PartsReturn("GET", "", query, "\n");
    text := "GET" + (" " + (("" + ("?" + query)) + "\n"));
  }

  // ---------------------------------------------------------------- handler_request

  predicate GetOrPost(meth: string) { EqualIgnoringCase(meth, "GET") || EqualIgnoringCase(meth, "POST") }

  method TakeMethod(buf: array<char>, ghost text: string) returns (meth: string, j: nat)
    requires |text| <= buf.Length && buf[..|text|] == text && EndsLine(text)
    ensures meth == Method(text) && j == |MethodWord(text)| < |text|
  {
    var word := new char[METHOD_SIZE](_ => NUL);
    var i;
    i, j := CopyWord(buf, 0, word, text);
    assert text[0..] == text;
    assert word[..i] == MethodWord(text);
    CStringOfPrefix(MethodWord(text), word[..], 0);
    meth := CString(word[..], 0);
  }

  method TakeUrl(buf: array<char>, start: nat, ghost text: string) returns (path: string, query: string)
    requires |text| <= buf.Length && buf[..|text|] == text && EndsLine(text) && HasUrl(text)
    requires start == |MethodWord(text)| < |text|
    ensures path == Path(text) && query == Query(text)
  {
    var url := new char[LINE](_ => NUL);
    var j := SkipWhite(buf, start, text);
    var i, _ := CopyWord(buf, j, url, text);
    assert url[..i] == UrlWord(text);
    CStringOfPrefix(UrlWord(text), url[..], 0);
    var q := CutAtMark(url);
    path, query := CString(url[..], 0), CString(url[..], q);
  }

  /** What the source takes for granted about the first line of a request: it ends within the
      buffer, names a url, and its query string fits the child's variable. */
  predicate Takes(text: string) {
    text == "" ||
    (EndsLine(text) &&
     (GetOrPost(Method(text)) ==> HasUrl(text)) &&
     (EqualIgnoringCase(Method(text), "GET") ==> VariableFits(QUERY_STRING, Query(text), LINE)))
  }

  /** handler_request for a url that is a CGI program. */
  method HandlerRequest(sock: Stream) returns (r: Outcome)
    requires sock.Valid() && Takes(Chunk(sock.Rest(), LINE - 1).0)
    modifies sock
    ensures sock.Valid()
    ensures var (text, k) := Chunk(old(sock.Rest()), LINE - 1);
      var m := Method(text);
      var get := |m| == 3 && m[0] in "Gg" && m[1] in "Ee" && m[2] in "Tt";
      var post := |m| == 4 && m[0] in "Pp" && m[1] in "Oo" && m[2] in "Ss" && m[3] in "Tt";
      && (r == Failed(5) <==> text == "")
      && (r == Failed(6) <==> text != "" && !get && !post)
      && (get || post ==> Served(old(sock.Rest())[k..], m, Query(text), r, sock.Rest()))
  {
    ghost var s := sock.Rest();
    ghost var (text, k) := Chunk(s, LINE - 1);
    var buf := new char[LINE](_ => NUL);
    var len := GetLine(sock, buf);
    assert sock.Rest() == s[k..] && buf[..|text|] == text;
    if len <= 0 {
      return Failed(5);
    }
    var meth, j := TakeMethod(buf, text);
    MethodsExact(meth);
    if !GetOrPost(meth) {
      return Failed(6);
    }
    var _, query := TakeUrl(buf, j, text);
    r := ExeCgi(sock, meth, query);
  }
}
