/** The splitting loop that math_cgi.c and the database CGI programs share: it cuts
    k1=v1&k2=v2&... in place, by overwriting each '&' with NUL, and collects pointers to the text
    after each '='. */
module QueryString {
  import opened Text

  // ---------------------------------------------------------------- what the arguments are

  /** The text up to the next '&'. */
  function UpToAmp(s: string): string {
    if s == "" || s[0] == '&' then "" else [s[0]] + UpToAmp(s[1..])
  }

  /** One argument for each '=': the text from just after it up to the next '&' or the end. */
  function Arguments(s: string): seq<string> {
    if s == "" then []
    else (if s[0] == '=' then [UpToAmp(s[1..])] else []) + Arguments(s[1..])
  }

  /** The positions just after each '=' from position i on. */
  function Marks(s: string, i: nat): seq<int>
    decreases |s| - i
  {
    if i >= |s| then [] else (if s[i] == '=' then [i + 1] else []) + Marks(s, i + 1)
  }

  function Replaced(s: string): string {
    seq(|s|, i requires 0 <= i < |s| => if s[i] == '&' then NUL else s[i])
  }

  // ---------------------------------------------------------------- the loop

  const NULL := -1

  /** The buffer when the loop has come to position i of the string s. */
  ghost function CutTo(s: string, buf: string, i: nat): (r: string)
    requires i <= |s| <= |buf|
    ensures |r| == |buf|
  {
    Replaced(s)[..i] + buf[i..]
  }

  lemma CutStep(s: string, buf: string, i: nat)
    requires i < |s| <= |buf| && s == buf[..|s|]
    ensures CutTo(s, buf, i)[i] == s[i]
    ensures CutTo(s, buf, i + 1) == if s[i] == '&' then CutTo(s, buf, i)[i := NUL] else CutTo(s, buf, i)
  {
    assert buf[i] == buf[..|s|][i];
  }

  /** The marks found up to position i. */
  ghost predicate Marked(s: string, i: nat, marks: seq<int>) {
    marks + Marks(s, i) == Marks(s, 0)
  }

  lemma MarkStep(s: string, i: nat, marks: seq<int>)
    requires i < |s| && Marked(s, i, marks)
    ensures s[i] == '=' ==> Marked(s, i + 1, marks + [i + 1]) && |marks| < |Marks(s, 0)|
    ensures s[i] != '=' ==> Marked(s, i + 1, marks)
  {
    assert marks + ([i + 1] + Marks(s, i + 1)) == (marks + [i + 1]) + Marks(s, i + 1);
    assert [] + Marks(s, i + 1) == Marks(s, i + 1);
  }

  lemma MarksDone(s: string, marks: seq<int>)
    requires Marked(s, |s|, marks)
    ensures marks == Marks(s, 0)
  {}

  lemma CutStarts(s: string, buf: string)
    requires |s| <= |buf|
    ensures buf == CutTo(s, buf, 0) && Marked(s, 0, [])
  {
    assert [] + Marks(s, 0) == Marks(s, 0);
  }

  /** The loop ends exactly at the end of the string. */
  lemma CutEnds(s: string, buf: string, i: nat, cut: string)
    requires i <= |s| < |buf| && s == buf[..|s|] && NUL !in s && buf[|s|] == NUL
    requires cut == CutTo(s, buf, i)
    ensures cut[i] == NUL <==> i == |s|
    ensures i == |s| ==> cut[..|s|] == Replaced(s) && cut[|s|..] == buf[|s|..]
  {
    if i < |s| {
      CutStep(s, buf, i);
    }
  }

  /** One turn of the loop at position `start` of the string s that buf0 began with. */
  method Turn(buf: array<char>, argv: array<int>, start: nat, i: nat, ghost s: string, ghost buf0: string)
    returns (start': nat, i': nat)
    requires start < |s| < buf.Length == |buf0| && s == buf0[..|s|] && i < argv.Length
    requires buf[..] == CutTo(s, buf0, start) && Marked(s, start, argv[..i])
    requires |Marks(s, 0)| < argv.Length
    modifies buf, argv
    ensures start' == start + 1 && i' < argv.Length
    ensures buf[..] == CutTo(s, buf0, start') && Marked(s, start', argv[..i'])
  {
    ghost var marks := argv[..i];
    assert buf[start] == buf[..][start];
    CutStep(s, buf0, start);
    MarkStep(s, start, marks);
    start', i' := start + 1, i;
    if buf[start] == '=' {
      argv[i] := start';
      i' := i + 1;
      assert argv[..i'] == marks + [start'];
    } else if buf[start] == '&' {
      buf[start] := NUL;
    }
  }

  /** The loop of mymath on the string at the start of buf; argv holds positions for pointers.  The
      source leaves it to its callers that the pointers fit. */
  method Split(buf: array<char>, argv: array<int>) returns (n: nat)
    requires exists k :: 0 <= k < buf.Length && buf[k] == NUL
    requires |Marks(CString(buf[..], 0), 0)| < argv.Length
    modifies buf, argv
    ensures var s := CString(old(buf[..]), 0);
      && |s| < buf.Length
      && buf[..|s|] == Replaced(s) && buf[|s|..] == old(buf[..])[|s|..]
      && n == |Marks(s, 0)| && argv[..n] == Marks(s, 0) && argv[n] == NULL
  {
    ghost var b0 := buf[..];
    ghost var s := CString(b0, 0);
    CStringPrefix(b0, 0);
    CutStarts(s, b0);
    n := 0;
    var start := 0;
    while buf[start] != NUL
      invariant 0 <= start <= |s| < buf.Length && n < argv.Length
      invariant buf[..] == CutTo(s, b0, start) && Marked(s, start, argv[..n])
      decreases |s| - start
    {
      CutEnds(s, b0, start, buf[..]);
      start, n := Turn(buf, argv, start, n, s, b0);
    }
    CutEnds(s, b0, start, buf[..]);
    MarksDone(s, argv[..n]);
    ghost var marks := argv[..n];
    argv[n] := NULL;
    assert argv[..n] == marks;
  }

  // ---------------------------------------------------------------- what the pointers point to

  /** From a position in s the cut string reads up to the next '&' of the original. */
  lemma {:induction false} CutReadsUpToAmp(s: string, buf: string, p: nat)
    requires p <= |s| < |buf| && NUL !in s && buf[..|s|] == Replaced(s) && buf[|s|] == NUL
    ensures CString(buf, p) == UpToAmp(s[p..])
    decreases |s| - p
  {
    if p < |s| {
      assert buf[p] == buf[..|s|][p];
      assert s[p..][1..] == s[p + 1..];
      CutReadsUpToAmp(s, buf, p + 1);
    }
  }

  lemma {:induction false} PointersFrom(s: string, buf: string, i: nat)
    requires i <= |s| < |buf| && NUL !in s && buf[..|s|] == Replaced(s) && buf[|s|] == NUL
    ensures var ms, args := Marks(s, i), Arguments(s[i..]);
      && |ms| == |args|
      && forall k :: 0 <= k < |ms| ==> 0 <= ms[k] <= |s| && CString(buf, ms[k]) == args[k]
    decreases |s| - i
  {
    if i < |s| {
      assert s[i..][1..] == s[i + 1..];
      PointersFrom(s, buf, i + 1);
      CutReadsUpToAmp(s, buf, i + 1);
    }
  }

  /** After the loop the i-th pointer is to the i-th argument of the original string. */
  lemma PointersAreArguments(s: string, buf: string)
    requires |s| < |buf| && NUL !in s && buf[..|s|] == Replaced(s) && buf[|s|] == NUL
    ensures var ms := Marks(s, 0);
      && |ms| == |Arguments(s)|
      && forall k :: 0 <= k < |ms| ==> 0 <= ms[k] <= |s| && CString(buf, ms[k]) == Arguments(s)[k]
  {
    PointersFrom(s, buf, 0);
    assert s[0..] == s;
  }

  // ---------------------------------------------------------------- round trip

  function Encode(pairs: seq<(string, string)>): string {
    if pairs == [] then ""
    else pairs[0].0 + "=" + pairs[0].1 + (if |pairs| == 1 then "" else "&" + Encode(pairs[1..]))
  }

  function Values(pairs: seq<(string, string)>): seq<string> {
    if pairs == [] then [] else [pairs[0].1] + Values(pairs[1..])
  }

  predicate Without(pairs: seq<(string, string)>, c: char) {
    forall i :: 0 <= i < |pairs| ==> c !in pairs[i].0 && c !in pairs[i].1
  }

  predicate WholeValues(pairs: seq<(string, string)>) {
    forall i :: 0 <= i < |pairs| ==> '&' !in pairs[i].1
  }

  lemma {:induction false} SkipPlain(k: string, rest: string)
    requires '=' !in k
    ensures Arguments(k + rest) == Arguments(rest)
  {
    if k == "" {
      assert k + rest == rest;
    } else {
      assert (k + rest)[1..] == k[1..] + rest;
      SkipPlain(k[1..], rest);
    }
  }

  /** A value ends where it should exactly if it contains no '&'. */
  lemma {:induction false} ValueEnds(v: string, rest: string)
    requires rest == "" || rest[0] == '&'
    ensures UpToAmp(v + rest) == v <==> '&' !in v
  {
    if v == "" {
      assert v + rest == rest;
    } else {
      assert (v + rest)[1..] == v[1..] + rest && v == [v[0]] + v[1..];
      ValueEnds(v[1..], rest);
    }
  }

  lemma OnePair(k: string, v: string, rest: string)
    requires '=' !in k && '=' !in v
    ensures Arguments(k + ("=" + (v + rest))) == [UpToAmp(v + rest)] + Arguments(rest)
  {
    SkipPlain(k, "=" + (v + rest));
    assert ("=" + (v + rest))[1..] == v + rest;
    SkipPlain(v, rest);
  }

  lemma HeadAndTail(x: string, xs: seq<string>, y: string, ys: seq<string>)
    ensures [x] + xs == [y] + ys <==> x == y && xs == ys
  {
    assert ([x] + xs)[1..] == xs && ([y] + ys)[1..] == ys;
    assert ([x] + xs)[0] == x && ([y] + ys)[0] == y;
  }

  /** What follows the first pair. */
  function AfterFirst(pairs: seq<(string, string)>): string
    requires pairs != []
  {
    if |pairs| == 1 then "" else "&" + Encode(pairs[1..])
  }

  lemma EncodeSplits(pairs: seq<(string, string)>)
    requires pairs != []
    ensures Encode(pairs) == pairs[0].0 + ("=" + (pairs[0].1 + AfterFirst(pairs)))
  {}

  lemma ArgumentsAfterFirst(pairs: seq<(string, string)>)
    requires pairs != []
    ensures Arguments(AfterFirst(pairs)) == Arguments(Encode(pairs[1..]))
  {
    if |pairs| > 1 {
      SkipPlain("&", Encode(pairs[1..]));
    }
  }

  /** The argument that the first pair becomes. */
  function FirstArgument(pairs: seq<(string, string)>): string
    requires pairs != []
  {
    UpToAmp(pairs[0].1 + AfterFirst(pairs))
  }

  lemma FirstPair(pairs: seq<(string, string)>)
    requires pairs != [] && Without(pairs, '=')
    ensures Arguments(Encode(pairs)) == [FirstArgument(pairs)] + Arguments(Encode(pairs[1..]))
    ensures FirstArgument(pairs) == pairs[0].1 <==> '&' !in pairs[0].1
  {
    var (k, v) := pairs[0];
    EncodeSplits(pairs);
    OnePair(k, v, AfterFirst(pairs));
    ArgumentsAfterFirst(pairs);
    ValueEnds(v, AfterFirst(pairs));
  }

  lemma WholeSplit(pairs: seq<(string, string)>)
    requires pairs != []
    ensures WholeValues(pairs) <==> '&' !in pairs[0].1 && WholeValues(pairs[1..])
  {
    assert pairs == [pairs[0]] + pairs[1..];
  }

  lemma {:induction false} ValuesWithoutEquals(pairs: seq<(string, string)>)
    requires Without(pairs, '=')
    ensures Arguments(Encode(pairs)) == Values(pairs) <==> WholeValues(pairs)
  {
    if pairs != [] {
      FirstPair(pairs);
      WholeSplit(pairs);
      HeadAndTail(FirstArgument(pairs), Arguments(Encode(pairs[1..])), pairs[0].1, Values(pairs[1..]));
      ValuesWithoutEquals(pairs[1..]);
    }
  }

  function CountEquals(s: string): nat {
    if s == "" then 0 else (if s[0] == '=' then 1 else 0) + CountEquals(s[1..])
  }

  lemma {:induction false} CountConcat(a: string, b: string)
    ensures CountEquals(a + b) == CountEquals(a) + CountEquals(b)
  {
    if a == "" {
      assert a + b == b;
    } else {
      assert (a + b)[1..] == a[1..] + b;
      CountConcat(a[1..], b);
    }
  }

  lemma {:induction false} OneArgumentPerEquals(s: string)
    ensures |Arguments(s)| == CountEquals(s)
  {
    if s != "" {
      OneArgumentPerEquals(s[1..]);
    }
  }

  lemma OccurrencesOfMore(c: char, s: string)
    ensures multiset([c] + s)['='] == (if c == '=' then 1 else 0) + multiset(s)['=']
  {
    assert multiset([c] + s) == multiset{c} + multiset(s);
  }

  lemma {:induction false} CountIsOccurrences(s: string)
    ensures CountEquals(s) == multiset(s)['=']
  {
    if s != "" {
      CountIsOccurrences(s[1..]);
      OccurrencesOfMore(s[0], s[1..]);
      assert s == [s[0]] + s[1..];
    }
  }

  /** The argument for a '=' is the text from just after it to the next '&' or the end. */
  lemma {:induction false} ArgumentAt(before: string, v: string, rest: string)
    requires '&' !in v && (rest == "" || rest[0] == '&')
    ensures var s, k := before + ("=" + (v + rest)), CountEquals(before);
      k < |Arguments(s)| && Arguments(s)[k] == v
  {
    var s := before + ("=" + (v + rest));
    if before == "" {
      assert s == "=" + (v + rest) && s[1..] == v + rest;
      ValueEnds(v, rest);
    } else {
      assert s[1..] == before[1..] + ("=" + (v + rest));
      ArgumentAt(before[1..], v, rest);
    }
  }

  lemma {:induction false} CountZero(s: string)
    ensures CountEquals(s) == 0 <==> '=' !in s
  {
    if s != "" {
      assert s == [s[0]] + s[1..];
      CountZero(s[1..]);
    }
  }

  lemma {:induction false} CountEncoded(pairs: seq<(string, string)>)
    ensures CountEquals(Encode(pairs)) >= |pairs| == |Values(pairs)|
    ensures CountEquals(Encode(pairs)) == |pairs| ==> Without(pairs, '=')
  {
    if pairs != [] {
      var (k, v) := pairs[0];
      var rest := if |pairs| == 1 then "" else "&" + Encode(pairs[1..]);
      assert Encode(pairs) == k + ("=" + (v + rest));
      CountConcat(k, "=" + (v + rest));
      CountConcat("=", v + rest);
      CountConcat(v, rest);
      CountConcat("&", Encode(pairs[1..]));
      CountZero(k);
      CountZero(v);
      CountEncoded(pairs[1..]);
    }
  }

  /** Parsing k1=v1&...&kn=vn gives back v1..vn, empty values included, exactly if no key and no
      value contains a '=' and no value an '&'.  An '&' in a key does no harm. */
  lemma RoundTrip(pairs: seq<(string, string)>)
    ensures Arguments(Encode(pairs)) == Values(pairs) <==> Without(pairs, '=') && WholeValues(pairs)
  {
    OneArgumentPerEquals(Encode(pairs));
    CountEncoded(pairs);
    if Without(pairs, '=') {
      ValuesWithoutEquals(pairs);
    }
  }
}
