/** The byte-wise line reader of httpd.c.

    get_line turns CRLF and CR into LF while it copies at most size-1 bytes.  What the reader
    delivers, over all its calls, is the whole stream with its line ends normalised, whatever the
    size of the buffer. */
module LineReader {
  import opened Text

  /** The receiving end of a connection or of a pipe: the bytes that arrive, and how far they have
      been taken.  After the last byte recv returns 0. */
  class Stream {
    const data: string
    var pos: nat

    ghost predicate Valid()
      reads this
    {
      pos <= |data|
    }

    ghost function Rest(): string
      requires Valid()
      reads this
    {
      data[pos..]
    }

    constructor (data: string)
      ensures Valid() && Rest() == data && this.data == data && pos == 0
    {
      this.data, pos := data, 0;
    }

    /** recv(sock, &c, 1, 0): c keeps its value when nothing arrives. */
    method Recv(c: char) returns (r: int, c': char)
      requires Valid()
      modifies this
      ensures Valid()
      ensures old(Rest()) == "" ==> r == 0 && c' == c && pos == old(pos)
      ensures old(Rest()) != "" ==> r == 1 && c' == old(Rest())[0] && pos == old(pos) + 1
    {
      if pos < |data| {
        r, c', pos := 1, data[pos], pos + 1;
      } else {
        r, c' := 0, c;
      }
    }

    /** recv(sock, &c, 1, MSG_PEEK). */
    method Peek(c: char) returns (r: int, c': char)
      requires Valid()
      ensures Rest() == "" ==> r == 0 && c' == c
      ensures Rest() != "" ==> r == 1 && c' == Rest()[0]
    {
      if pos < |data| {
        r, c' := 1, data[pos];
      } else {
        r, c' := 0, c;
      }
    }
  }

  // ---------------------------------------------------------------- what normalising means

  /** What becomes of the byte at i: an LF right after a CR vanishes, and a CR becomes an LF,
      unless it is the last byte of the stream. */
  function Image(s: string, i: nat): string
    requires i < |s|
  {
    if s[i] == '\n' && i > 0 && s[i - 1] == '\r' then ""
    else if s[i] == '\r' && i + 1 < |s| then "\n"
    else [s[i]]
  }

  function NormaliseFrom(s: string, i: nat): string
    decreases |s| - i
  {
    if i >= |s| then "" else Image(s, i) + NormaliseFrom(s, i + 1)
  }

  function Normalise(s: string): string { NormaliseFrom(s, 0) }

  // ---------------------------------------------------------------- what get_line does

  /** One turn of the reading loop on a stream that has bytes: the character stored and the number
      of bytes taken. */
  function Next(s: string): (r: (char, nat))
    requires s != ""
    ensures 1 <= r.1 <= |s|
  {
    if s[0] == '\r' && |s| > 1 then ('\n', if s[1] == '\n' then 2 else 1) else (s[0], 1)
  }

  /** The text of at most m characters that one call stores, and the number of bytes taken. */
  function Chunk(s: string, m: nat): (r: (string, nat))
    ensures r.1 <= |s| && |r.0| <= m && |r.0| <= r.1
  {
    if m == 0 || s == "" then ("", 0)
    else
      var (c, n) := Next(s);
      if c == '\n' then ([c], n)
      else var (t, k) := Chunk(s[n..], m - 1); ([c] + t, n + k)
  }

  /** The recv calls of one turn of the loop. */
  method ReadChar(sock: Stream, c: char) returns (r: int, c': char)
    requires sock.Valid()
    modifies sock
    ensures sock.Valid()
    ensures old(sock.Rest()) == "" ==> r == 0 && sock.pos == old(sock.pos)
    ensures old(sock.Rest()) != "" ==> r == 1 && (c', sock.pos - old(sock.pos)) == Next(old(sock.Rest()))
  {
    r, c' := sock.Recv(c);
    if r > 0 && c' == '\r' {
      var ret;
      ret, c' := sock.Peek(c');
      if ret > 0 {
        if c' == '\n' {
          var _, _ := sock.Recv(c');
        } else {
          c' := '\n';
        }
      }
    }
  }

  /** With `text` stored and `taken` bytes taken, what the call is still to do makes up `all`. */
  ghost predicate Ahead(all: (string, nat), text: string, taken: int, c: char, rest: string, m: int) {
    var (t, k) := if c == '\n' || m < 0 then ("", 0) else Chunk(rest, m);
    text + t == all.0 && taken + k == all.1
  }

  lemma AheadStarts(rest: string, m: nat)
    ensures Ahead(Chunk(rest, m), "", 0, NUL, rest, m)
  {
    assert "" + Chunk(rest, m).0 == Chunk(rest, m).0;
  }

  lemma AheadStep(all: (string, nat), text: string, taken: int, c: char, rest: string, m: nat)
    requires m > 0 && rest != "" && c != '\n' && Ahead(all, text, taken, c, rest, m)
    ensures var (c', n) := Next(rest);
      Ahead(all, text + [c'], taken + n, c', rest[n..], m - 1)
  {
    var (c', n) := Next(rest);
    assert text + ([c'] + Chunk(rest[n..], m - 1).0) == (text + [c']) + Chunk(rest[n..], m - 1).0;
  }

  /** At the end of the stream there is nothing left to do, ... */
  lemma AheadEnds(all: (string, nat), text: string, taken: int, c: char, m: nat)
    requires m > 0 && c != '\n' && Ahead(all, text, taken, c, "", m)
    ensures Ahead(all, text, taken, '\n', "", m)
  {}

  /** ... nor after an LF or when the buffer is full. */
  lemma AheadDone(all: (string, nat), text: string, taken: int, c: char, rest: string, m: nat)
    requires (c == '\n' || m == 0) && Ahead(all, text, taken, c, rest, m)
    ensures (text, taken) == all
  {
    assert text + "" == text;
  }

  /** One turn of the loop of get_line, with `text` stored and `taken` bytes taken so far in a call
      that is to deliver `all`. */
  method Turn(sock: Stream, line: array<char>, len: nat, c: char,
              ghost all: (string, nat), ghost text: string, ghost taken: int, ghost rest: string)
    returns (len': nat, c': char, ghost text': string, ghost taken': int, ghost rest': string)
    requires sock.Valid() && rest == sock.Rest()
    requires len < line.Length - 1 && c != '\n' && line[..len] == text
    requires Ahead(all, text, taken, c, rest, line.Length - 1 - len)
    modifies sock, line
    ensures sock.Valid() && rest' == sock.Rest() && taken' - taken == sock.pos - old(sock.pos)
    ensures len <= len' <= line.Length - 1 && (len' == len ==> c' == '\n') && text' == line[..len']
    ensures Ahead(all, text', taken', c', rest', line.Length - 1 - len')
  {
    var r;
    r, c' := ReadChar(sock, c);
    rest', taken' := sock.Rest(), taken + (sock.pos - old(sock.pos));
    if r > 0 {
      assert rest[Next(rest).1..] == rest';
      AheadStep(all, text, taken, c, rest, line.Length - 1 - len);
      line[len] := c';
      len', text' := len + 1, text + [c'];
      assert line[..len'] == text';
    } else {
      AheadEnds(all, text, taken, c, line.Length - 1 - len);
      len', c', text' := len, '\n', text;
    }
  }

  /** The loop of get_line, in a call that is to deliver `all`. */
  method FillLine(sock: Stream, line: array<char>, ghost all: (string, nat)) returns (len: nat, ghost taken: int)
    requires sock.Valid() && line.Length >= 1 && Ahead(all, "", 0, NUL, sock.Rest(), line.Length - 1)
    modifies sock, line
    ensures sock.Valid() && len < line.Length && taken == sock.pos - old(sock.pos)
    ensures (line[..len], taken) == all
  {
    var c, size := NUL, line.Length;
    len, taken := 0, 0;
    ghost var text, rest := "", sock.Rest();
    while c != '\n' && len < size - 1
      invariant sock.Valid() && len <= size - 1
      invariant text == line[..len] && taken == sock.pos - old(sock.pos) && rest == sock.Rest()
      invariant Ahead(all, text, taken, c, rest, size - 1 - len)
      decreases c != '\n', size - 1 - len
    {
      len, c, text, taken, rest := Turn(sock, line, len, c, all, text, taken, rest);
    }
    AheadDone(all, text, taken, c, rest, size - 1 - len);
  }

  /** get_line into a line buffer; every caller passes sizeof(line) as the size. */
  method GetLine(sock: Stream, line: array<char>) returns (len: nat)
    requires sock.Valid() && line.Length >= 1
    modifies sock, line
    ensures sock.Valid()
    ensures len < line.Length && line[len] == '\0'
    ensures (line[..len], sock.pos - old(sock.pos)) == Chunk(old(sock.Rest()), line.Length - 1)
  {
    ghost var all := Chunk(sock.Rest(), line.Length - 1);
    AheadStarts(sock.Rest(), line.Length - 1);
    ghost var taken;
    len, taken := FillLine(sock, line, all);
    line[len] := NUL;
    assert line[..len] == all.0;
  }

  // ---------------------------------------------------------------- properties of one call

  lemma ImageShift(s: string, j: nat, i: nat)
    requires j <= i < |s|
    requires i == j && j > 0 ==> !(s[j - 1] == '\r' && s[j] == '\n')
    ensures Image(s, i) == Image(s[j..], i - j)
  {
    var t := s[j..];
    assert |t| == |s| - j && t[i - j] == s[i];
    assert i > j ==> t[i - j - 1] == s[i - 1];
  }

  /** Line ends are normalised alike from any place that is not inside a CRLF. */
  lemma {:induction false} NormaliseShift(s: string, j: nat, i: nat)
    requires j <= i && j <= |s|
    requires i == j && 0 < j < |s| ==> !(s[j - 1] == '\r' && s[j] == '\n')
    ensures NormaliseFrom(s, i) == NormaliseFrom(s[j..], i - j)
    decreases |s| - i
  {
    var t := s[j..];
    if i < |s| {
      ImageShift(s, j, i);
      NormaliseShift(s, j, i + 1);
      var rest := NormaliseFrom(s, i + 1);
      assert NormaliseFrom(t, i - j) == Image(t, i - j) + rest;
      assert NormaliseFrom(s, i) == Image(s, i) + rest;
    } else {
      assert |t| <= i - j;
    }
  }

  lemma NormaliseNext(s: string)
    requires s != ""
    ensures Normalise(s) == [Next(s).0] + Normalise(s[Next(s).1..])
  {
    var (c, n) := Next(s);
    NormaliseShift(s, n, n);
    assert NormaliseFrom(s, 1) == if n == 1 then NormaliseFrom(s, n) else Image(s, 1) + NormaliseFrom(s, n);
  }

  /** The laws of line-end normalisation, which determine it: CRLF and CR become LF, but a CR that is
      the last byte stays, and so does everything else. */
  lemma NormaliseLaws(c: char, rest: string)
    ensures Normalise("") == "" && Normalise("\r") == "\r"
    ensures Normalise("\r\n" + rest) == "\n" + Normalise(rest)
    ensures rest != "" && rest[0] != '\n' ==> Normalise("\r" + rest) == "\n" + Normalise(rest)
    ensures c != '\r' ==> Normalise([c] + rest) == [c] + Normalise(rest)
  {
    NormaliseNext("\r");
    NormaliseNext("\r\n" + rest);
    assert ("\r\n" + rest)[2..] == rest;
    NormaliseNext([c] + rest);
    assert ([c] + rest)[1..] == rest;
    if rest != "" && rest[0] != '\n' {
      NormaliseNext("\r" + rest);
      assert ("\r" + rest)[1..] == rest;
    }
  }

  /** The first at most m characters of a text, up to and including its first LF. */
  function FirstPiece(text: string, m: nat): string {
    if m == 0 || text == "" then ""
    else if text[0] == '\n' then "\n"
    else [text[0]] + FirstPiece(text[1..], m - 1)
  }

  lemma FirstPieceOf(c: char, rest: string, m: nat)
    requires m > 0
    ensures FirstPiece([c] + rest, m) == if c == '\n' then [c] else [c] + FirstPiece(rest, m - 1)
  {
    assert ([c] + rest)[1..] == rest;
  }

  lemma ChunkOfNext(s: string, m: nat)
    requires m > 0 && s != ""
    ensures var (c, n) := Next(s);
      Chunk(s, m) == if c == '\n' then ([c], n)
                     else ([c] + Chunk(s[n..], m - 1).0, n + Chunk(s[n..], m - 1).1)
  {}

  lemma {:induction false} ChunkTextIsFirstPiece(s: string, m: nat)
    ensures Chunk(s, m).0 == FirstPiece(Normalise(s), m)
    decreases m
  {
    if m > 0 && s != "" {
      var (c, n) := Next(s);
      NormaliseNext(s);
      FirstPieceOf(c, Normalise(s[n..]), m);
      ChunkOfNext(s, m);
      if c != '\n' {
        ChunkTextIsFirstPiece(s[n..], m - 1);
      }
    }
  }

  lemma Associative(a: string, b: string, c: string)
    ensures a + (b + c) == (a + b) + c
  {}

  lemma DropTwice(s: string, n: nat, k: nat)
    requires n + k <= |s|
    ensures s[n..][k..] == s[n + k..]
  {}

  lemma {:induction false} ChunkLeavesRest(s: string, m: nat)
    ensures Normalise(s) == Chunk(s, m).0 + Normalise(s[Chunk(s, m).1..])
    decreases m
  {
    if m == 0 || s == "" {
      assert s[0..] == s;
    } else {
      var (c, n) := Next(s);
      var rest := s[n..];
      NormaliseNext(s);
      ChunkOfNext(s, m);
      if c != '\n' {
        ChunkLeavesRest(rest, m - 1);
        var t, k := Chunk(rest, m - 1).0, Chunk(rest, m - 1).1;
        var left := Normalise(rest[k..]);
        DropTwice(s, n, k);
        Associative([c], t, left);
        assert Normalise(s) == [c] + (t + left);
      }
    }
  }

  /** A call delivers the first piece of the normalised stream and leaves the rest of it. */
  lemma ChunkIsFirstPiece(s: string, m: nat)
    ensures Chunk(s, m).0 == FirstPiece(Normalise(s), m)
    ensures Normalise(s) == Chunk(s, m).0 + Normalise(s[Chunk(s, m).1..])
  {
    ChunkTextIsFirstPiece(s, m);
    ChunkLeavesRest(s, m);
  }

  /** The result is empty only at the end of the stream, holds an LF only as its last character,
      and is shorter than the buffer allows only if it ends in an LF or with the stream. */
  lemma {:induction false} ChunkShape(s: string, m: nat)
    ensures var (t, k) := Chunk(s, m);
      && (m > 0 ==> (t == "" <==> s == ""))
      && (forall i :: 0 <= i < |t| - 1 ==> t[i] != '\n')
      && (|t| < m ==> k == |s| || (t != "" && t[|t| - 1] == '\n'))
    decreases m
  {
    if m > 0 && s != "" && Next(s).0 != '\n' {
      ChunkShape(s[Next(s).1..], m - 1);
    }
  }

  // ---------------------------------------------------------------- all calls together

  /** The results of calling get_line until it returns 0. */
  function AllChunks(s: string, m: nat): seq<string>
    requires m > 0
    decreases |s|
  {
    var (t, k) := Chunk(s, m);
    if t == "" then [] else [t] + AllChunks(s[k..], m)
  }

  function Flatten(pieces: seq<string>): string {
    if pieces == [] then "" else pieces[0] + Flatten(pieces[1..])
  }

  /** Whatever the buffer size, the pieces make up exactly the normalised stream. */
  lemma {:induction false} ReaderNormalises(s: string, m: nat)
    requires m > 0
    ensures Flatten(AllChunks(s, m)) == Normalise(s)
    decreases |s|
  {
    var (t, k) := Chunk(s, m);
    ChunkIsFirstPiece(s, m);
    ChunkShape(s, m);
    if t != "" {
      ReaderNormalises(s[k..], m);
    }
  }

  /** What printf("%s") makes of the pieces: each up to its first NUL. */
  function Printed(pieces: seq<string>): string {
    if pieces == [] then "" else CString(pieces[0], 0) + Printed(pieces[1..])
  }

  lemma WholeCString(t: string)
    ensures |CString(t, 0)| <= |t| && (|CString(t, 0)| == |t| <==> NUL !in t)
    ensures NUL !in t ==> CString(t, 0) == t
  {
    CStringPrefix(t, 0);
    if NUL !in t {
      WholeString(t, 0);
    }
  }

  lemma {:induction false} PrintedWhole(pieces: seq<string>)
    ensures |Printed(pieces)| <= |Flatten(pieces)|
    ensures Printed(pieces) == Flatten(pieces) <==> NUL !in Flatten(pieces)
    ensures NUL in Flatten(pieces) ==> |Printed(pieces)| < |Flatten(pieces)|
  {
    if pieces != [] {
      WholeCString(pieces[0]);
      PrintedWhole(pieces[1..]);
    }
  }

  lemma {:induction false} NormaliseKeepsNul(s: string, i: nat)
    requires i <= |s|
    ensures NUL in NormaliseFrom(s, i) <==> NUL in s[i..]
    decreases |s| - i
  {
    if i < |s| {
      NormaliseKeepsNul(s, i + 1);
      assert s[i..] == [s[i]] + s[i + 1..];
    }
  }

  /** The lines of a stream are printed as its normalised text exactly if it holds no NUL. */
  lemma PrintedIsNormalised(s: string, m: nat)
    requires m > 0
    ensures Printed(AllChunks(s, m)) == Normalise(s) <==> NUL !in s
  {
    ReaderNormalises(s, m);
    PrintedWhole(AllChunks(s, m));
    NormaliseKeepsNul(s, 0);
    assert s[0..] == s;
  }

  lemma FirstChunk(s: string, m: nat)
    requires m > 0
    ensures var (t, k) := Chunk(s, m);
      && (t == "" <==> s == "")
      && Printed(AllChunks(s, m)) == if s == "" then "" else CString(t, 0) + Printed(AllChunks(s[k..], m))
  {
    ChunkShape(s, m);
    var (t, k) := Chunk(s, m);
    if s != "" {
      assert ([t] + AllChunks(s[k..], m))[1..] == AllChunks(s[k..], m);
    }
  }

  /** Reads and prints one line, with `rest` still to come; `more` says whether there was one. */
  method PrintLine(sock: Stream, line: array<char>, ghost rest: string)
    returns (more: bool, text: string, ghost rest': string)
    requires sock.Valid() && rest == sock.Rest() && line.Length >= 2
    modifies sock, line
    ensures sock.Valid() && rest' == sock.Rest() && more == (rest != "")
    ensures if more then |rest'| < |rest| else rest' == ""
    ensures var m := line.Length - 1; Printed(AllChunks(rest, m)) == text + Printed(AllChunks(rest', m))
  {
    ghost var m := line.Length - 1;
    ghost var (t, k) := Chunk(rest, m);
    FirstChunk(rest, m);
    var ret := GetLine(sock, line);
    rest' := rest[k..];
    assert rest' == sock.Rest();
    more, text := ret > 0, "";
    if more {
      CStringOfPrefix(t, line[..], 0);
      text := CString(line[..], 0);
    }
  }

  /** handler_request in its _DEBUG form: read lines until there are none and print each.  What is
      printed is the normalised stream exactly if no NUL arrives. */
  method PrintRequest(sock: Stream, size: nat) returns (shown: string)
    requires sock.Valid() && size >= 2
    modifies sock
    ensures shown == Printed(AllChunks(old(sock.Rest()), size - 1))
    ensures shown == Normalise(old(sock.Rest())) <==> NUL !in old(sock.Rest())
    ensures sock.Valid() && sock.Rest() == ""
  {
    var line := new char[size](_ => NUL);
    shown := "";
    ghost var rest := sock.Rest();
    PrintedIsNormalised(rest, size - 1);
    ghost var all := Printed(AllChunks(rest, size - 1));
    var more := true;
    while more
      invariant sock.Valid() && rest == sock.Rest() && (!more ==> rest == "")
      invariant shown + Printed(AllChunks(rest, size - 1)) == all
      decreases more, |rest|
    {
      ghost var before := shown;
      var text;
      more, text, rest := PrintLine(sock, line, rest);
      Associative(before, text, Printed(AllChunks(rest, size - 1)));
      shown := shown + text;
    }
  }
}
