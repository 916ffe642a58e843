/** The C string functions that the web server and its CGI programs rely on. */
module Text {

  const NUL := '\0'

  predicate IsSpace(c: char) {
    c == ' ' || (9 <= c as int <= 13)
  }

  /** The six characters of isspace in the C locale. */
  lemma IsSpaceExact(c: char)
    ensures IsSpace(c) <==> c == ' ' || c == '\t' || c == '\n' || c == '\U{B}' || c == '\U{C}' || c == '\r'
  {
    assert '\t' as int == 9 && '\n' as int == 10 && '\r' as int == 13;
    assert '\U{B}' as int == 11 && '\U{C}' as int == 12;
  }

  predicate IsDigit(c: char) { '0' <= c <= '9' }

  function Lower(c: char): char {
    if 'A' <= c <= 'Z' then ((c as int) + 32) as char else c
  }

  /** The same character, or the same letter in the other case. */
  predicate SameLetter(a: char, b: char) {
    a == b || ('A' <= a <= 'Z' && b as int == a as int + 32) || ('A' <= b <= 'Z' && a as int == b as int + 32)
  }

  lemma SameLetterExact(a: char, b: char)
    ensures Lower(a) == Lower(b) <==> SameLetter(a, b)
  {
    assert 'A' <= a <= 'Z' ==> Lower(a) as int == a as int + 32;
    assert 'A' <= b <= 'Z' ==> Lower(b) as int == b as int + 32;
  }

  /** strcasecmp(a, b) == 0 for strings without NUL. */
  predicate EqualIgnoringCase(a: string, b: string) {
    |a| == |b| && forall i :: 0 <= i < |a| ==> Lower(a[i]) == Lower(b[i])
  }

  /** strncasecmp(s, prefix, |prefix|) == 0. */
  predicate StartsIgnoringCase(s: string, prefix: string) {
    |s| >= |prefix| && EqualIgnoringCase(s[..|prefix|], prefix)
  }

  /** The methods of a request, in any case. */
  lemma MethodsExact(m: string)
    ensures EqualIgnoringCase(m, "GET") <==> |m| == 3 && m[0] in "Gg" && m[1] in "Ee" && m[2] in "Tt"
    ensures EqualIgnoringCase(m, "POST") <==> |m| == 4 && m[0] in "Pp" && m[1] in "Oo" && m[2] in "Ss" && m[3] in "Tt"
  {
    if |m| == 3 {
      SameLetterExact(m[0], 'G'); SameLetterExact(m[1], 'E'); SameLetterExact(m[2], 'T');
    } else if |m| == 4 {
      SameLetterExact(m[0], 'P'); SameLetterExact(m[1], 'O'); SameLetterExact(m[2], 'S'); SameLetterExact(m[3], 'T');
    }
  }

  // ---------------------------------------------------------------- strings that end with NUL

  /** The characters of buf from p up to the first NUL, as the str functions see them. */
  function CString(buf: string, p: nat): string
    decreases |buf| - p
  {
    if p >= |buf| || buf[p] == NUL then "" else [buf[p]] + CString(buf, p + 1)
  }

  /** The string ends at the first NUL, if there is one. */
  lemma {:induction false} CStringPrefix(buf: string, p: nat)
    requires p <= |buf|
    ensures var s := CString(buf, p);
      && p + |s| <= |buf| && s == buf[p..p + |s|] && NUL !in s
      && (p + |s| < |buf| ==> buf[p + |s|] == NUL)
    decreases |buf| - p
  {
    if p < |buf| && buf[p] != NUL {
      CStringPrefix(buf, p + 1);
    }
  }

  lemma {:induction false} CStringOfPrefix(a: string, b: string, p: nat)
    requires p <= |a| < |b| && b[..|a|] == a && b[|a|] == NUL
    ensures CString(b, p) == CString(a, p)
    decreases |a| - p
  {
    if p < |a| {
      assert b[p] == b[..|a|][p];
      CStringOfPrefix(a, b, p + 1);
    }
  }

  lemma {:induction false} WholeString(s: string, p: nat)
    requires NUL !in s && p <= |s|
    ensures CString(s, p) == s[p..]
    decreases |s| - p
  {
    if p < |s| {
      WholeString(s, p + 1);
    }
  }

  // ---------------------------------------------------------------- atoi and %d

  function SkipSpace(s: string): string {
    if s != "" && IsSpace(s[0]) then SkipSpace(s[1..]) else s
  }

  function DigitValue(c: char): int { c as int - '0' as int }

  /** The leading digits of s, appended to the number read so far. */
  function ReadDigits(s: string, sofar: int): int {
    if s != "" && IsDigit(s[0]) then ReadDigits(s[1..], 10 * sofar + DigitValue(s[0])) else sofar
  }

  /** atoi on values that an int can hold. */
  function Atoi(s: string): int {
    var t := SkipSpace(s);
    if t != "" && t[0] == '-' then -ReadDigits(t[1..], 0)
    else if t != "" && t[0] == '+' then ReadDigits(t[1..], 0)
    else ReadDigits(t, 0)
  }

  function Digit(d: int): char
    requires 0 <= d < 10
  {
    (d + '0' as int) as char
  }

  /** A number as printf's %d writes it. */
  function Decimal(n: int): string
    decreases if n < 0 then 1 - n else n
  {
    if n < 0 then "-" + Decimal(-n)
    else if n < 10 then [Digit(n)]
    else Decimal(n / 10) + [Digit(n % 10)]
  }

  predicate NoDigitFirst(s: string) { s == "" || !IsDigit(s[0]) }

  /** Reading n's digits appends them to the number read so far. */
  lemma {:induction false} ReadDecimal(n: nat, rest: string)
    ensures ReadDigits(Decimal(n) + rest, 0) == ReadDigits(rest, n)
    ensures Decimal(n) != "" && IsDigit(Decimal(n)[0])
  {
    if n < 10 {
      assert ([Digit(n)] + rest)[1..] == rest;
    } else {
      ReadDecimal(n / 10, [Digit(n % 10)] + rest);
      assert Decimal(n) + rest == Decimal(n / 10) + ([Digit(n % 10)] + rest);
      assert ([Digit(n % 10)] + rest)[1..] == rest;
    }
  }

  lemma {:induction false} SpacesSkipped(spaces: string, rest: string)
    requires forall i :: 0 <= i < |spaces| ==> IsSpace(spaces[i])
    ensures SkipSpace(spaces + rest) == SkipSpace(rest)
  {
    if spaces == "" {
      assert spaces + rest == rest;
    } else {
      assert (spaces + rest)[1..] == spaces[1..] + rest;
      SpacesSkipped(spaces[1..], rest);
    }
  }

  lemma AtoiWithoutSpaces(n: int, rest: string)
    requires NoDigitFirst(rest)
    ensures Atoi(Decimal(n) + rest) == n && SkipSpace(Decimal(n) + rest) == Decimal(n) + rest
  {
    if n < 0 {
      ReadDecimal(-n, rest);
      assert (Decimal(n) + rest)[1..] == Decimal(-n) + rest;
    } else {
      ReadDecimal(n, rest);
      assert IsDigit((Decimal(n) + rest)[0]);
    }
  }

  /** atoi reads back what %d wrote, after any white space and up to the first other character. */
  lemma AtoiOfDecimal(spaces: string, n: int, rest: string)
    requires forall i :: 0 <= i < |spaces| ==> IsSpace(spaces[i])
    requires NoDigitFirst(rest)
    ensures Atoi(spaces + (Decimal(n) + rest)) == n
  {
    SpacesSkipped(spaces, Decimal(n) + rest);
    AtoiWithoutSpaces(n, rest);
  }

  /** A plus sign is allowed, and what is no number counts as 0. */
  lemma AtoiOfOther(n: nat, rest: string)
    requires NoDigitFirst(rest)
    ensures Atoi("+" + (Decimal(n) + rest)) == n
    ensures rest == "" || (!IsSpace(rest[0]) && rest[0] != '-' && rest[0] != '+') ==> Atoi(rest) == 0
  {
    assert ("+" + (Decimal(n) + rest))[1..] == Decimal(n) + rest;
    ReadDecimal(n, rest);
  }

  /** The decimal system: the last digit is the remainder modulo 10, and the digits before it are
      those of the quotient. */
  lemma DecimalDigits(n: nat, d: nat)
    requires d < 10
    ensures Decimal(d) == ["0123456789"[d]]
    ensures n > 0 ==> Decimal(10 * n + d) == Decimal(n) + ["0123456789"[d]]
    ensures n > 0 ==> Decimal(0 - n) == "-" + Decimal(n)
  {
    assert (10 * n + d) / 10 == n && (10 * n + d) % 10 == d;
  }
}
