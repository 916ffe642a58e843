/** How httpd.c finds the end of a request's header and hands the body to a CGI program.

    The raw stream is described by its lines: a line's content runs up to an LF or up to a CR that
    is not the last byte, and a CRLF ends it as one.  drop_header and the POST scan see the stream
    only through get_line; the theorems say where they stop in the raw stream. */
module Framing {
  import opened Text
  import opened LineReader

  const LINE := 1024

  // ---------------------------------------------------------------- lines of the raw stream

  /** The length of the first line without its end. */
  function Content(s: string): (k: nat)
    ensures k <= |s|
    ensures k < |s| ==> s[k] == '\n' || (s[k] == '\r' && k + 1 < |s|)
  {
    if s == "" || s[0] == '\n' || (s[0] == '\r' && |s| > 1) then 0 else 1 + Content(s[1..])
  }

  predicate HasEnd(s: string) { Content(s) < |s| }

  /** The length of the first line with its end. */
  function LineEnd(s: string): (n: nat)
    ensures n <= |s| && (s != "" ==> n > 0)
  {
    var k := Content(s);
    if k == |s| then k else if s[k] == '\r' && s[k + 1] == '\n' then k + 2 else k + 1
  }

  /** The first line as get_line shows it. */
  function FirstLine(s: string): string {
    s[..Content(s)] + if HasEnd(s) then "\n" else ""
  }

  /** Where the header ends: after the first empty line, or with the stream. */
  function HeaderEnd(s: string): (n: nat)
    ensures n <= |s| && (s != "" ==> n > 0)
  {
    if s == "" then 0
    else if Content(s) == 0 then LineEnd(s)
    else LineEnd(s) + HeaderEnd(s[LineEnd(s)..])
  }

  function HeaderLines(s: string): seq<string> {
    if s == "" || Content(s) == 0 then [] else [FirstLine(s)] + HeaderLines(s[LineEnd(s)..])
  }

  /** Every header line, with its LF, fits a buffer of m characters. */
  predicate Fits(s: string, m: nat) {
    s == "" || Content(s) == 0 || (Content(s) < m && Fits(s[LineEnd(s)..], m))
  }

  // ---------------------------------------------------------------- get_line on a line

  lemma ContentOfTail(s: string)
    requires Content(s) > 0
    ensures s != "" && s[0] != '\n' && Content(s) == 1 + Content(s[1..]) && HasEnd(s) == HasEnd(s[1..])
  {}

  lemma EndOfTail(s: string)
    requires Content(s) > 0
    ensures s != "" && LineEnd(s) == 1 + LineEnd(s[1..])
  {
    var t, k := s[1..], Content(s);
    ContentOfTail(s);
    if HasEnd(s) {
      assert t[k - 1] == s[k];
    }
  }

  lemma PrefixOfTail(s: string, k: nat, end: string)
    requires 0 < k <= |s|
    ensures s[..k] + end == [s[0]] + (s[1..][..k - 1] + end)
  {
    assert s[..k] == [s[0]] + s[1..][..k - 1];
  }

  lemma FirstLineOfTail(s: string)
    requires Content(s) > 0
    ensures s != "" && FirstLine(s) == [s[0]] + FirstLine(s[1..])
  {
    ContentOfTail(s);
    PrefixOfTail(s, Content(s), if HasEnd(s) then "\n" else "");
  }

  lemma LineOfTail(s: string)
    requires Content(s) > 0
    ensures s != "" && s[0] != '\n'
    ensures Content(s) == 1 + Content(s[1..]) && LineEnd(s) == 1 + LineEnd(s[1..])
    ensures FirstLine(s) == [s[0]] + FirstLine(s[1..])
  {
    ContentOfTail(s);
    EndOfTail(s);
    FirstLineOfTail(s);
  }

  lemma EmptyLine(s: string)
    requires s != "" && Content(s) == 0
    ensures FirstLine(s) == "\n" && Next(s) == ('\n', LineEnd(s))
  {}

  lemma {:induction false} ChunkOfShortLine(s: string, m: nat)
    requires s != "" && Content(s) < m
    ensures Chunk(s, m) == (FirstLine(s), LineEnd(s))
  {
    if Content(s) == 0 {
      EmptyLine(s);
    } else {
      LineOfTail(s);
      assert Next(s) == (s[0], 1);
      if s[1..] != "" {
        ChunkOfShortLine(s[1..], m - 1);
      }
    }
  }

  lemma {:induction false} ChunkOfLongLine(s: string, m: nat)
    requires 0 < m <= Content(s)
    ensures Chunk(s, m) == (s[..m], m)
  {
    LineOfTail(s);
    assert Next(s) == (s[0], 1);
    assert [s[0]] + s[1..][..m - 1] == s[..m];
    if m > 1 {
      ChunkOfLongLine(s[1..], m - 1);
    }
  }

  /** A line that fits is delivered whole; of a longer one the first m bytes are. */
  lemma ChunkOfLine(s: string, m: nat)
    requires m > 0 && s != ""
    ensures Content(s) < m ==> Chunk(s, m) == (FirstLine(s), LineEnd(s))
    ensures Content(s) >= m ==> Chunk(s, m) == (s[..m], m)
  {
    if Content(s) < m {
      ChunkOfShortLine(s, m);
    } else {
      ChunkOfLongLine(s, m);
    }
  }

  /** What is left of a line longer than m after m of its bytes. */
  lemma {:induction false} RestOfLine(s: string, m: nat)
    requires m <= Content(s)
    ensures Content(s[m..]) == Content(s) - m && LineEnd(s[m..]) == LineEnd(s) - m
  {
    if m > 0 {
      RestOfLine(s[1..], m - 1);
      assert s[1..][m - 1..] == s[m..];
    } else {
      assert s[0..] == s;
    }
  }

  // ---------------------------------------------------------------- drop_header

  /** The bytes that drop_header takes with chunks of m characters. */
  function Dropped(s: string, m: nat): (n: nat)
    requires m > 0
    ensures n <= |s|
    decreases |s|
  {
    var (t, k) := Chunk(s, m);
    if t == "" then 0 else if t == "\n" then k else k + Dropped(s[k..], m)
  }

  method DropHeader(sock: Stream)
    requires sock.Valid()
    modifies sock
    ensures sock.Valid() && sock.pos == old(sock.pos) + Dropped(old(sock.Rest()), LINE - 1)
  {
    var line := new char[LINE](_ => NUL);
    var more := true;
    while more
      invariant sock.Valid()
      invariant sock.pos + (if more then Dropped(sock.Rest(), LINE - 1) else 0)
                == old(sock.pos) + Dropped(old(sock.Rest()), LINE - 1)
      decreases more, |sock.data| - sock.pos
    {
      ghost var rest := sock.Rest();
      var ret := GetLine(sock, line);
      assert sock.Rest() == rest[Chunk(rest, LINE - 1).1..];
      ChunkShape(rest, LINE - 1);
      more := ret > 0 && line[..ret] != "\n";
    }
  }

  /** k is 0, m, 2m, ... */
  predicate Multiple(k: nat, m: nat)
    requires m > 0
  {
    k == 0 || (k >= m && Multiple(k - m, m))
  }

  /** With the buffer of the source: a positive multiple of 1023, or 0. */
  lemma {:induction false} MultipleExact(k: nat)
    ensures Multiple(k, LINE - 1) <==> k % 1023 == 0
  {
    if k >= 1023 {
      MultipleExact(k - 1023);
    }
  }

  /** After the first line whose content is empty or fills its chunks exactly. */
  function StopEnd(s: string, m: nat): (n: nat)
    requires m > 0
    ensures n <= |s|
  {
    if s == "" then 0
    else if HasEnd(s) && Multiple(Content(s), m) then LineEnd(s)
    else LineEnd(s) + StopEnd(s[LineEnd(s)..], m)
  }

  lemma StopAfterShortLine(s: string, m: nat)
    requires m > 0 && s != "" && Content(s) < m
    ensures Dropped(s, m) == LineEnd(s) + if Content(s) == 0 then 0 else Dropped(s[LineEnd(s)..], m)
  {
    ChunkOfLine(s, m);
    if Content(s) == 0 {
      EmptyLine(s);
    } else {
      LineOfTail(s);
    }
  }

  lemma DropInLongLine(s: string, m: nat)
    requires 0 < m <= Content(s)
    ensures Dropped(s, m) == m + Dropped(s[m..], m)
  {
    ChunkOfLongLine(s, m);
    LineOfTail(s);
    assert s[..m][0] == s[0];
  }

  lemma RestOfLongLine(s: string, m: nat)
    requires 0 < m <= Content(s)
    ensures var t := s[m..];
      && HasEnd(t) == HasEnd(s) && Multiple(Content(t), m) == Multiple(Content(s), m)
      && LineEnd(t) == LineEnd(s) - m && t[LineEnd(t)..] == s[LineEnd(s)..]
      && (t == "" ==> !HasEnd(s) && LineEnd(s) == m == |s|)
  {
    RestOfLine(s, m);
    assert s[m..][LineEnd(s) - m..] == s[LineEnd(s)..];
  }

  lemma StopEndOf(s: string, m: nat)
    requires m > 0 && s != ""
    ensures StopEnd(s, m) == LineEnd(s) +
            if HasEnd(s) && Multiple(Content(s), m) then 0 else StopEnd(s[LineEnd(s)..], m)
  {}

  lemma StopInLongLine(s: string, m: nat)
    requires 0 < m <= Content(s)
    ensures StopEnd(s, m) == m + StopEnd(s[m..], m)
  {
    RestOfLongLine(s, m);
    StopEndOf(s, m);
    if s[m..] == "" {
      assert s[LineEnd(s)..] == "";
    } else {
      StopEndOf(s[m..], m);
    }
  }

  /** The content of a line that fills its chunks exactly leaves a bare LF for the next one, which
      is taken for the empty line. */
  lemma {:induction false} DropHeaderStops(s: string, m: nat)
    requires m > 0
    ensures Dropped(s, m) == StopEnd(s, m)
    decreases |s|
  {
    if s != "" {
      if Content(s) < m {
        StopAfterShortLine(s, m);
        DropHeaderStops(s[LineEnd(s)..], m);
      } else {
        DropInLongLine(s, m);
        StopInLongLine(s, m);
        DropHeaderStops(s[m..], m);
      }
    }
  }

  /** No line of the header but the last of the stream has a content of m, 2m, ... bytes. */
  predicate NoFilledLine(s: string, m: nat)
    requires m > 0
  {
    s == "" || Content(s) == 0 ||
    if HasEnd(s) && Multiple(Content(s), m) then LineEnd(s) == |s| else NoFilledLine(s[LineEnd(s)..], m)
  }

  /** drop_header stops at the end of the header exactly if no header line fills its chunks. */
  lemma {:induction false} DropHeaderExact(s: string, m: nat)
    requires m > 0
    ensures Dropped(s, m) == HeaderEnd(s) <==> NoFilledLine(s, m)
    decreases |s|
  {
    DropHeaderStops(s, m);
    if s != "" && Content(s) != 0 {
      DropHeaderStops(s[LineEnd(s)..], m);
      DropHeaderExact(s[LineEnd(s)..], m);
    }
  }

  // ---------------------------------------------------------------- the POST scan

  const CONTENT_LENGTH := "Content-Length: "

  predicate IsContentLength(line: string) { StartsIgnoringCase(line, CONTENT_LENGTH) }

  lemma ContentLengthLine(line: string)
    ensures IsContentLength("Content-Length: " + line)
    ensures IsContentLength(line) <==> |line| >= 16 && EqualIgnoringCase(line[..16], "Content-Length: ")
    ensures !IsContentLength("Content-Type: " + line)
  {
    assert ("Content-Length: " + line)[..16] == "Content-Length: ";
    var other := "Content-Type: " + line;
    assert other[8] == 'T' && "Content-Length: "[8] == 'L' && Lower('T') != Lower('L');
    if |other| >= 16 {
      assert other[..16][8] == 'T';
    }
  }

  /** content_len after one more line. */
  function Noted(line: string, contentLen: int): int {
    if IsContentLength(line) then Atoi(line[16..]) else contentLen
  }

  /** The value of the last Content-Length line, or else the given default. */
  function LastContentLength(lines: seq<string>, default: int): int {
    if lines == [] then default
    else if IsContentLength(lines[|lines| - 1]) then Atoi(lines[|lines| - 1][16..])
    else LastContentLength(lines[..|lines| - 1], default)
  }

  lemma {:induction false} LastOfMore(line: string, lines: seq<string>, default: int)
    ensures LastContentLength([line] + lines, default) == LastContentLength(lines, Noted(line, default))
  {
    if lines != [] {
      assert ([line] + lines)[..|lines|] == [line] + lines[..|lines| - 1];
      LastOfMore(line, lines[..|lines| - 1], default);
    } else {
      assert [line] + lines == [line];
      assert LastContentLength([line][..0], default) == default;
    }
  }

  lemma NotedBare(contentLen: int)
    ensures Noted("\n", contentLen) == contentLen
  {}

  /** The texts that the scan reads before the one that ends it. */
  function Texts(s: string, m: nat): seq<string>
    requires m > 0
    decreases |s|
  {
    var (t, k) := Chunk(s, m);
    if t == "" || t == "\n" then [] else [t] + Texts(s[k..], m)
  }

  lemma TextsOnce(s: string, m: nat)
    requires m > 0
    ensures var (t, k) := Chunk(s, m);
      && (t == "" ==> Texts(s, m) == [] && Dropped(s, m) == 0 && k == 0)
      && (t == "\n" ==> Texts(s, m) == [] && Dropped(s, m) == k)
      && (t != "" && t != "\n" ==> Texts(s, m) == [t] + Texts(s[k..], m) && Dropped(s, m) == k + Dropped(s[k..], m))
  {
    ChunkShape(s, m);
  }

  /** One turn of the scan, with `rest` still to come. */
  method ScanLine(sock: Stream, line: array<char>, contentLen: int, ghost rest: string)
    returns (more: bool, contentLen': int, ghost rest': string)
    requires sock.Valid() && rest == sock.Rest() && line.Length >= 2
    modifies sock, line
    ensures sock.Valid() && rest' == sock.Rest() && (more ==> |rest'| < |rest|)
    ensures var m := line.Length - 1;
      && sock.pos - old(sock.pos) + (if more then Dropped(rest', m) else 0) == Dropped(rest, m)
      && LastContentLength(Texts(rest, m), contentLen)
         == if more then LastContentLength(Texts(rest', m), contentLen') else contentLen'
  {
    ghost var m := line.Length - 1;
    ghost var (t, k) := Chunk(rest, m);
    TextsOnce(rest, m);
    var ret := GetLine(sock, line);
    rest' := rest[k..];
    assert rest' == sock.Rest() && line[..ret] == t;
    contentLen' := contentLen;
    if ret > 0 {
      contentLen' := Noted(line[..ret], contentLen);
    }
    more := ret > 0 && line[..ret] != "\n";
    NotedBare(contentLen);
    LastOfMore(t, Texts(rest', m), contentLen);
  }

  method ScanHeader(sock: Stream) returns (contentLen: int)
    requires sock.Valid()
    modifies sock
    ensures sock.Valid() && sock.pos == old(sock.pos) + Dropped(old(sock.Rest()), LINE - 1)
    ensures contentLen == LastContentLength(Texts(old(sock.Rest()), LINE - 1), -1)
  {
    contentLen := -1;
    var line := new char[LINE](_ => NUL);
    var more := true;
    ghost var rest := sock.Rest();
    while more
      invariant sock.Valid() && rest == sock.Rest()
      invariant sock.pos + (if more then Dropped(rest, LINE - 1) else 0)
                == old(sock.pos) + Dropped(old(sock.Rest()), LINE - 1)
      invariant LastContentLength(Texts(old(sock.Rest()), LINE - 1), -1)
                == if more then LastContentLength(Texts(rest, LINE - 1), contentLen) else contentLen
      decreases more, |rest|
    {
      more, contentLen, rest := ScanLine(sock, line, contentLen, rest);
    }
  }

  /** The header lines, each cut after every m characters, up to an empty text. */
  function HeaderPieces(s: string, m: nat): seq<string>
    requires m > 0
    decreases |s|
  {
    if s == "" || Content(s) == 0 then []
    else if Content(s) < m then [FirstLine(s)] + HeaderPieces(s[LineEnd(s)..], m)
    else [s[..m]] + HeaderPieces(s[m..], m)
  }

  /** For every stream: the scan looks for Content-Length among the pieces of the header lines. */
  lemma {:induction false} ScanIsExact(s: string, m: nat)
    requires m > 0
    ensures Texts(s, m) == HeaderPieces(s, m)
    decreases |s|
  {
    TextsOnce(s, m);
    if s != "" {
      ChunkOfLine(s, m);
      if Content(s) == 0 {
        EmptyLine(s);
      } else {
        LineOfTail(s);
        if Content(s) < m {
          assert FirstLine(s)[0] != '\n';
          ScanIsExact(s[LineEnd(s)..], m);
        } else {
          assert s[..m][0] == s[0];
          ScanIsExact(s[m..], m);
        }
      }
    }
  }

  lemma HeaderOfFirstLine(s: string, m: nat)
    requires s != "" && Content(s) > 0
    ensures var rest := s[LineEnd(s)..];
      && HeaderEnd(s) == LineEnd(s) + HeaderEnd(rest)
      && HeaderLines(s) == [FirstLine(s)] + HeaderLines(rest)
      && (Fits(s, m) ==> Content(s) < m && Fits(rest, m))
  {}

  lemma {:induction false} FittingLines(s: string, m: nat)
    requires m > 0 && Fits(s, m)
    ensures HeaderPieces(s, m) == HeaderLines(s) && StopEnd(s, m) == HeaderEnd(s)
    decreases |s|
  {
    if s != "" {
      StopEndOf(s, m);
      if Content(s) > 0 {
        HeaderOfFirstLine(s, m);
        FittingLines(s[LineEnd(s)..], m);
      }
    }
  }

  /** content_len after the scan. */
  function ContentLength(s: string): int { LastContentLength(HeaderPieces(s, LINE - 1), -1) }

  // ---------------------------------------------------------------- the body

  /** n bytes from s; when s is too short its last byte is repeated, or NUL if there is none,
      because the result of recv is not looked at. */
  function Relayed(s: string, n: int): string {
    if n <= |s| then s[..if n < 0 then 0 else n]
    else s + seq(n - |s|, _ => if s == "" then NUL else s[|s| - 1])
  }

  /** How many of the available bytes are taken for a body of n. */
  function Taken(n: int, available: nat): nat {
    if n < 0 then 0 else if n <= available then n else available
  }

  /** The loop that copies the body to the CGI's standard input. */
  method Relay(sock: Stream, contentLen: int) returns (written: string)
    requires sock.Valid()
    modifies sock
    ensures sock.Valid()
    ensures written == Relayed(old(sock.Rest()), contentLen)
    ensures sock.pos == old(sock.pos) + Taken(contentLen, |old(sock.Rest())|)
    ensures |written| == if contentLen < 0 then 0 else contentLen
    ensures var rest := old(sock.Rest());
      && (forall i :: 0 <= i < |written| ==>
            written[i] == if i < |rest| then rest[i] else if rest == "" then '\0' else rest[|rest| - 1])
      && (0 <= contentLen <= |rest| ==> sock.Rest() == rest[contentLen..])
      && (contentLen < 0 ==> sock.Rest() == rest) && (contentLen > |rest| ==> sock.Rest() == "")
  {
    var ch := NUL;
    written := "";
    ghost var rest := sock.Rest();
    var i := 0;
    while i < contentLen
      invariant 0 <= i && (i <= contentLen || i == 0)
      invariant sock.Valid() && sock.pos == old(sock.pos) + (if i <= |rest| then i else |rest|)
      invariant written == Relayed(rest, i)
      invariant ch == if i == 0 || rest == "" then NUL else if i <= |rest| then rest[i - 1] else rest[|rest| - 1]
    {
      var r;
      r, ch := sock.Recv(ch);
      written := written + [ch];
      i := i + 1;
    }
  }

  /** What exe_cgi does for the child: an error code, or the environment and the bytes on its
      standard input. */
  datatype Outcome = Failed(code: int) | Child(env: map<string, string>, input: string)

  const METHOD := "METHOD"
  const QUERY_STRING := "QUERY_STRING"
  const CONTENT_LEN := "CONTENT_LEN"

  /** The variable and its terminating NUL fit an array of the given size. */
  predicate VariableFits(name: string, value: string, size: nat) {
    |name| + 1 + |value| + 1 <= size
  }

  /** What exe_cgi does with a request that has the bytes s after its request line, and where on the
      connection that leaves it. */
  ghost predicate Served(s: string, meth: string, query: string, r: Outcome, left: string) {
    var n, contentLen := StopEnd(s, LINE - 1), ContentLength(s);
    if EqualIgnoringCase(meth, "GET") then
      r == Child(map[METHOD := meth, QUERY_STRING := query], "") && left == s[n..]
    else if contentLen == -1 then
      r == Failed(10) && left == s[n..]
    else if EqualIgnoringCase(meth, "POST") then
      r == Child(map[METHOD := meth, CONTENT_LEN := Decimal(contentLen)], Relayed(s[n..], contentLen))
      && left == s[n..][Taken(contentLen, |s| - n)..]
    else
      r == Child(map[METHOD := meth, CONTENT_LEN := Decimal(contentLen)], "") && left == s[n..]
  }

  /** If the header lines fit and all of the body is there, a POST is refused exactly without a
      length, and otherwise the child reads exactly the announced bytes after the empty line. */
  lemma FittingIsServed(s: string, meth: string, query: string, r: Outcome, left: string)
    requires Served(s, meth, query, r, left) && EqualIgnoringCase(meth, "POST") && Fits(s, LINE - 1)
    ensures var c, body := LastContentLength(HeaderLines(s), -1), s[HeaderEnd(s)..];
      && (r == Failed(10) <==> c == -1)
      && (0 <= c <= |body| ==>
            r == Child(map["METHOD" := meth, "CONTENT_LEN" := Decimal(c)], body[..c]) && left == body[c..])
  {
    FittingLines(s, LINE - 1);
  }

  /** The part of exe_cgi that reads the header. */
  method TakeHeader(sock: Stream, get: bool) returns (contentLen: int)
    requires sock.Valid()
    modifies sock
    ensures sock.Valid() && sock.Rest() == old(sock.Rest())[StopEnd(old(sock.Rest()), LINE - 1)..]
    ensures contentLen == if get then -1 else ContentLength(old(sock.Rest()))
  {
    ghost var s := sock.Rest();
    ScanIsExact(s, LINE - 1);
    DropHeaderStops(s, LINE - 1);
    contentLen := -1;
    if get {
      DropHeader(sock);
    } else {
      contentLen := ScanHeader(sock);
    }
  }

  /** exe_cgi, with the pipes and the fork succeeding, on a socket past the request line.  The
      source does not check that the variables fit their arrays. */
  method ExeCgi(sock: Stream, meth: string, query: string) returns (r: Outcome)
    requires sock.Valid() && VariableFits(METHOD, meth, LINE / 8)
    requires EqualIgnoringCase(meth, "GET") ==> VariableFits(QUERY_STRING, query, LINE)
    modifies sock
    ensures sock.Valid() && Served(old(sock.Rest()), meth, query, r, sock.Rest())
  {
    var get, post := EqualIgnoringCase(meth, "GET"), EqualIgnoringCase(meth, "POST");
    var contentLen := TakeHeader(sock, get);
    if !get && contentLen == -1 {
      return Failed(10);
    }
    var env := map[METHOD := meth];
    if get {
      env := env[QUERY_STRING := query];
    } else {
      env := env[CONTENT_LEN := Decimal(contentLen)];
    }
    var input := "";
    if post {
      input := Relay(sock, contentLen);
    }
    return Child(env, input);
  }
}
