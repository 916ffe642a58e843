/** The byte order functions of byte_order_generic.h and the two variants of skip_trailing_space of
    m_string.h: one steps back over aligned machine words, one over 8 bytes at a time.  Both return
    what stepping back one space at a time returns. */
module TrailingSpace {
  import opened Bytes

  const SPACE: byte := 0x20

  // ---------------------------------------------------------------- uint8korr and int8store

  function Uint4korr(b: seq<byte>): (r: int)
    requires |b| == 4
    ensures 0 <= r < 0x1_0000_0000
  {
    b[0] as int + 0x100 * b[1] as int + 0x1_0000 * b[2] as int + 0x100_0000 * b[3] as int
  }

  function Uint8korr(b: seq<byte>): (r: int)
    requires |b| == 8
    ensures 0 <= r < 0x1_0000_0000_0000_0000
  {
    Uint4korr(b[..4]) + Uint4korr(b[4..]) * 0x1_0000_0000
  }

  /** The bytes that int4store and int8store write; (uchar) keeps the low 8 bits. */
  function Bytes4(v: int): (b: seq<byte>)
    ensures |b| == 4
  {
    [v % 0x100, v / 0x100 % 0x100, v / 0x1_0000 % 0x100, v / 0x100_0000 % 0x100]
  }

  function Bytes8(v: int): (b: seq<byte>)
    ensures |b| == 8
  {
    Bytes4(v % 0x1_0000_0000) + Bytes4(v / 0x1_0000_0000)
  }

  method Int4Store(t: array<byte>, at: nat, v: int)
    requires at + 4 <= t.Length
    modifies t
    ensures t[..] == old(t[..at]) + Bytes4(v) + old(t[at + 4..])
  {
    t[at] := v % 0x100;
    t[at + 1] := v / 0x100 % 0x100;
    t[at + 2] := v / 0x1_0000 % 0x100;
    t[at + 3] := v / 0x100_0000 % 0x100;
  }

  /** Dividing by 2^8, 2^16 and 2^24. */
  lemma Shifts(v: int, hi: int, lo: int)
    ensures v == 0x100 * hi + lo && 0 <= lo < 0x100 ==> v / 0x100 == hi && v % 0x100 == lo
    ensures v == 0x1_0000 * hi + lo && 0 <= lo < 0x1_0000 ==> v / 0x1_0000 == hi
    ensures v == 0x100_0000 * hi + lo && 0 <= lo < 0x100_0000 ==> v / 0x100_0000 == hi
  {}

  /** A number below 2^32 and its four bytes determine each other. */
  lemma FourBytes(v: int, b0: byte, b1: byte, b2: byte, b3: byte)
    requires v == b0 as int + 0x100 * b1 as int + 0x1_0000 * b2 as int + 0x100_0000 * b3 as int
    ensures Bytes4(v) == [b0, b1, b2, b3]
  {
    Shifts(v, b1 as int + 0x100 * b2 as int + 0x1_0000 * b3 as int, b0);
    Shifts(v, b2 as int + 0x100 * b3 as int, b0 as int + 0x100 * b1 as int);
    Shifts(v, b3, b0 as int + 0x100 * b1 as int + 0x1_0000 * b2 as int);
    Shifts(v / 0x100, b2 as int + 0x100 * b3 as int, b1);
    Shifts(v / 0x1_0000, b3, b2);
  }

  lemma Load4OfStore(v: int)
    requires 0 <= v < 0x1_0000_0000
    ensures Uint4korr(Bytes4(v)) == v
  {
    var q1 := v / 0x100;
    var q2 := q1 / 0x100;
    var q3 := q2 / 0x100;
    FourBytes(v, v % 0x100, q1 % 0x100, q2 % 0x100, q3);
  }

  /** Loading what was stored gives the value back ... */
  lemma LoadOfStore(v: int)
    requires 0 <= v < 0x1_0000_0000_0000_0000
    ensures Uint8korr(Bytes8(v)) == v
  {
    Load4OfStore(v % 0x1_0000_0000);
    Load4OfStore(v / 0x1_0000_0000);
    assert Bytes8(v)[..4] == Bytes4(v % 0x1_0000_0000) && Bytes8(v)[4..] == Bytes4(v / 0x1_0000_0000);
  }

  method Int8Store(t: array<byte>, v: int)
    requires 8 <= t.Length && 0 <= v < 0x1_0000_0000_0000_0000
    modifies t
    ensures t[..8] == Bytes8(v) && t[8..] == old(t[8..])
    ensures Uint8korr(t[..8]) == v
  {
    var defTemp, defTemp2 := v % 0x1_0000_0000, v / 0x1_0000_0000;
    Int4Store(t, 0, defTemp);
    ghost var after := t[..];
    Int4Store(t, 4, defTemp2);
    assert t[..4] == after[..4] == Bytes4(defTemp);
    assert t[..8] == t[..4] + t[4..8];
    LoadOfStore(v);
  }

  lemma Store4OfLoad(b: seq<byte>)
    requires |b| == 4
    ensures Bytes4(Uint4korr(b)) == b
  {
    FourBytes(Uint4korr(b), b[0], b[1], b[2], b[3]);
  }

  /** ... and storing what was loaded gives the bytes back. */
  lemma StoreOfLoad(b: seq<byte>)
    requires |b| == 8
    ensures Bytes8(Uint8korr(b)) == b
  {
    Store4OfLoad(b[..4]);
    Store4OfLoad(b[4..]);
    var v := Uint8korr(b);
    assert v % 0x1_0000_0000 == Uint4korr(b[..4]) && v / 0x1_0000_0000 == Uint4korr(b[4..]);
    assert b == b[..4] + b[4..];
  }

  /** uint8korr by the values of the places: the low byte comes first. */
  lemma LowByteFirst(b: seq<byte>)
    requires |b| == 8
    ensures Uint8korr(b) ==
            b[0] as int + 0x100 * b[1] as int + 0x1_0000 * b[2] as int + 0x100_0000 * b[3] as int
            + 0x1_0000_0000 * b[4] as int + 0x100_0000_0000 * b[5] as int
            + 0x1_0000_0000_0000 * b[6] as int + 0x100_0000_0000_0000 * b[7] as int
  {}

  /** The bytes of int4store, low byte first. */
  lemma LowByteStored(v: int)
    requires 0 <= v < 0x1_0000_0000
    ensures var b := Bytes4(v);
      v == b[0] as int + 0x100 * b[1] as int + 0x1_0000 * b[2] as int + 0x100_0000 * b[3] as int
  {
    Load4OfStore(v);
  }

  ghost predicate AllSpaces(b: seq<byte>) {
    forall i :: 0 <= i < |b| ==> b[i] == SPACE
  }

  /** The comparison of the 8-byte scan is exact. */
  lemma KorrIsSpaces(b: seq<byte>)
    requires |b| == 8
    ensures Uint8korr(b) == 0x2020_2020_2020_2020 <==> AllSpaces(b)
  {
    var spaces: seq<byte> := [SPACE, SPACE, SPACE, SPACE, SPACE, SPACE, SPACE, SPACE];
    assert spaces[..4] == spaces[4..] == [SPACE, SPACE, SPACE, SPACE];
    assert Uint8korr(spaces) == 0x2020_2020_2020_2020;
    StoreOfLoad(b);
    StoreOfLoad(spaces);
    assert AllSpaces(b) <==> b == spaces;
  }

  // ---------------------------------------------------------------- the simple scan

  /** Stepping back one space at a time. */
  function Trimmed(s: seq<byte>): (end: nat)
    ensures end <= |s|
  {
    if s != [] && s[|s| - 1] == SPACE then Trimmed(s[..|s| - 1]) else |s|
  }

  /** What comes out is the only place with nothing but spaces after it and no space before it. */
  lemma {:induction false} TrimmedIsUnique(s: seq<byte>, end: nat)
    requires end <= |s|
    ensures end == Trimmed(s) <==> AllSpaces(s[end..]) && (end > 0 ==> s[end - 1] != SPACE)
  {
    if s != [] && s[|s| - 1] == SPACE {
      if end < |s| {
        var t := s[..|s| - 1];
        TrimmedIsUnique(t, end);
        assert s[end..] == t[end..] + [SPACE];
      }
    } else if end < |s| {
      assert s[end..][|s| - 1 - end] == s[|s| - 1];
    }
  }

  /** A tail of spaces may be skipped at once. */
  lemma {:induction false} SkipSpaces(s: seq<byte>, end: nat)
    requires end <= |s| && AllSpaces(s[end..])
    ensures Trimmed(s) == Trimmed(s[..end])
  {
    if end == |s| {
      assert s[..end] == s;
    } else {
      var t := s[..|s| - 1];
      assert s[end..][|s| - 1 - end] == s[|s| - 1];
      forall i | 0 <= i < |t| - end ensures t[end..][i] == SPACE {
        assert t[end..][i] == s[end..][i];
      }
      SkipSpaces(t, end);
      assert t[..end] == s[..end];
    }
  }

  /** The last loop of both variants. */
  method StepBack(s: array<byte>, from: nat) returns (end: nat)
    requires from <= s.Length
    ensures end == Trimmed(s[..from])
  {
    end := from;
    while end > 0 && s[end - 1] == SPACE
      invariant end <= from && Trimmed(s[..from]) == Trimmed(s[..end])
    {
      assert s[..end][..end - 1] == s[..end - 1];
      end := end - 1;
    }
  }

  // ---------------------------------------------------------------- 8 bytes at a time

  method SkipTrailingSpace(s: array<byte>) returns (end: nat)
    ensures end == Trimmed(s[..])
  {
    end := s.Length;
    assert s[..end] == s[..];
    while end >= 8
      invariant end <= s.Length && Trimmed(s[..]) == Trimmed(s[..end])
    {
      KorrIsSpaces(s[end - 8..end]);
      if Uint8korr(s[end - 8..end]) != 0x2020_2020_2020_2020 {
        break;
      }
      assert s[..end][end - 8..] == s[end - 8..end] && s[..end][..end - 8] == s[..end - 8];
      SkipSpaces(s[..end], end - 8);
      end := end - 8;
    }
    end := StepBack(s, end);
  }

  // ---------------------------------------------------------------- aligned words

  /** An int of the given bytes on a big-endian machine. */
  function Word(b: seq<byte>): nat {
    if b == [] then 0 else Word(b[..|b| - 1]) * 0x100 + b[|b| - 1]
  }

  function Spaces(n: nat): seq<byte> { seq(n, _ => SPACE) }

  lemma {:induction false} WordIsInjective(a: seq<byte>, b: seq<byte>)
    requires |a| == |b| && Word(a) == Word(b)
    ensures a == b
  {
    if a != [] {
      var x, y := a[|a| - 1], b[|b| - 1];
      WordIsInjective(a[..|a| - 1], b[..|b| - 1]);
      assert a == a[..|a| - 1] + [x] && b == b[..|b| - 1] + [y];
    }
  }

  lemma WordOfSpaces(n: nat)
    requires n > 0
    ensures Word(Spaces(n)) == Word(Spaces(n - 1)) * 0x100 + 0x20
  {
    assert Spaces(n)[..n - 1] == Spaces(n - 1);
  }

  lemma SpaceWords()
    ensures Word(Spaces(4)) == 0x2020_2020 && Word(Spaces(8)) == 0x2020_2020_2020_2020
  {
    WordOfSpaces(1); WordOfSpaces(2); WordOfSpaces(3); WordOfSpaces(4);
    WordOfSpaces(5); WordOfSpaces(6); WordOfSpaces(7); WordOfSpaces(8);
  }

  lemma WordIsSpaces(b: seq<byte>)
    ensures Word(b) == Word(Spaces(|b|)) <==> AllSpaces(b)
  {
    if Word(b) == Word(Spaces(|b|)) {
      WordIsInjective(b, Spaces(|b|));
    }
    if AllSpaces(b) {
      assert b == Spaces(|b|);
    }
  }

  predicate Aligned(addr: nat, w: nat) {
    if w == 4 then addr % 4 == 0 else addr % 8 == 0
  }

  /** addr / w * w */
  function Down(addr: nat, w: nat): (r: nat)
    requires w == 4 || w == 8
    ensures Aligned(r, w) && addr - w < r <= addr
  {
    addr / w * w
  }

  lemma WordFits4(low: nat, high: nat)
    requires low % 4 == 0 && high % 4 == 0 && low < high
    ensures low <= high - 4 && (high - 4) % 4 == 0
  {}

  lemma WordFits8(low: nat, high: nat)
    requires low % 8 == 0 && high % 8 == 0 && low < high
    ensures low <= high - 8 && (high - 8) % 8 == 0
  {}

  /** Below an aligned address there is room for a word above any smaller aligned one. */
  lemma WordFits(low: nat, high: nat, w: nat)
    requires (w == 4 || w == 8) && Aligned(low, w) && Aligned(high, w) && low < high
    ensures low <= high - w && Aligned(high - w, w)
  {
    if w == 4 {
      WordFits4(low, high);
    } else {
      WordFits8(low, high);
    }
  }

  /** ((unsigned *)end)[-1] for a string that lies at address ptr; undefined unless the word is
      aligned and inside the string. */
  method LoadInt(s: array<byte>, ptr: nat, end: nat, w: nat) returns (v: nat)
    requires w == 4 || w == 8
    requires Aligned(end, w) && ptr <= end - w && end <= ptr + s.Length
    ensures v == Word(s[end - w - ptr..end - ptr])
  {
    v := Word(s[end - w - ptr..end - ptr]);
  }

  ghost function Last(loads: seq<nat>, from: nat): nat {
    if loads == [] then from else loads[|loads| - 1]
  }

  /** The loads are one below the other from `from` on, aligned and inside the string of the given
      length at ptr. */
  ghost predicate GoodLoads(loads: seq<nat>, from: nat, ptr: nat, length: nat, w: nat) {
    loads == [] ||
    var before, load := loads[..|loads| - 1], loads[|loads| - 1];
    && GoodLoads(before, from, ptr, length, w) && load + w == Last(before, from)
    && Aligned(load, w) && ptr <= load && load + w <= ptr + length
  }

  lemma OneMoreLoad(loads: seq<nat>, from: nat, ptr: nat, length: nat, w: nat, load: nat)
    requires GoodLoads(loads, from, ptr, length, w) && load + w == Last(loads, from)
    requires Aligned(load, w) && ptr <= load && load + w <= ptr + length
    ensures GoodLoads(loads + [load], from, ptr, length, w) && Last(loads + [load], from) == load
  {
    assert (loads + [load])[..|loads|] == loads;
  }

  ghost predicate Blank(s: seq<byte>, low: nat, high: nat)
    requires low <= high <= |s|
  {
    forall k :: low <= k < high ==> s[k] == SPACE
  }

  lemma SkipBlank(s: seq<byte>, end: nat)
    requires end <= |s| && Blank(s, end, |s|)
    ensures Trimmed(s) == Trimmed(s[..end])
  {
    SkipSpaces(s, end);
  }

  /** The loop that steps back to an aligned address. */
  method StepBackTo(s: array<byte>, low: nat) returns (end: nat)
    requires low <= s.Length
    ensures low <= end <= s.Length && Blank(s[..], end, s.Length)
    ensures end == low || s[end - 1] != SPACE
  {
    end := s.Length;
    while end > low && s[end - 1] == SPACE
      invariant low <= end <= s.Length && Blank(s[..], end, s.Length)
    {
      end := end - 1;
    }
  }

  /** One turn of the word loop: is the word below `end` all spaces? */
  method SpaceWord(s: array<byte>, ptr: nat, w: nat, end: nat, startWords: nat, spaceInt: nat) returns (yes: bool)
    requires (w == 4 || w == 8) && spaceInt == Word(Spaces(w))
    requires Aligned(end, w) && Aligned(startWords, w) && ptr <= startWords < end <= ptr + s.Length
    ensures startWords <= end - w && Aligned(end - w, w)
    ensures yes <==> Blank(s[..], end - w - ptr, end - ptr)
  {
    WordFits(startWords, end, w);
    ghost var k := end - ptr;
    var v := LoadInt(s, ptr, end, w);
    WordIsSpaces(s[k - w..k]);
    assert AllSpaces(s[k - w..k]) <==> Blank(s[..], k - w, k) by {
      assert forall i :: k - w <= i < k ==> s[i] == s[k - w..k][i - (k - w)];
    }
    yes := v == spaceInt;
  }

  /** The word loop has come from `from` down to `end`. */
  ghost predicate CameTo(
    end: nat, loads: seq<nat>, from: nat, startWords: nat, ptr: nat, s: seq<byte>, w: nat)
  {
    && ptr <= startWords <= end <= from <= ptr + |s| && Aligned(end, w)
    && Blank(s, end - ptr, from - ptr) && end == Last(loads, from)
    && GoodLoads(loads, from, ptr, |s|, w)
  }

  lemma NextWord(end: nat, loads: seq<nat>, from: nat, startWords: nat, ptr: nat, s: seq<byte>, w: nat)
    requires CameTo(end, loads, from, startWords, ptr, s, w)
    requires startWords <= end - w && Aligned(end - w, w)
    ensures GoodLoads(loads + [end - w], from, ptr, |s|, w) && Last(loads + [end - w], from) == end - w
    ensures Blank(s, end - w - ptr, end - ptr) ==>
              CameTo(end - w, loads + [end - w], from, startWords, ptr, s, w)
  {
    OneMoreLoad(loads, from, ptr, |s|, w, end - w);
  }

  /** The word loop between two aligned addresses.  It loads the words below `from` one after the
      other, down to startWords or to the first that is not all spaces. */
  method SkipWords(s: array<byte>, ptr: nat, w: nat, from: nat, startWords: nat, spaceInt: nat)
    returns (end: nat, ghost loads: seq<nat>)
    requires (w == 4 || w == 8) && spaceInt == Word(Spaces(w))
    requires Aligned(from, w) && Aligned(startWords, w) && ptr <= startWords < from <= ptr + s.Length
    ensures startWords <= end <= from && Blank(s[..], end - ptr, from - ptr)
    ensures GoodLoads(loads, from, ptr, s.Length, w)
    ensures Last(loads, from) == if end == startWords then end else end - w
  {
    end, loads := from, [];
    ghost var text := s[..];
    while end > startWords
      invariant text == s[..] && CameTo(end, loads, from, startWords, ptr, text, w)
    {
      var yes := SpaceWord(s, ptr, w, end, startWords, spaceInt);
      NextWord(end, loads, from, startWords, ptr, text, w);
      loads := loads + [end - w];
      if !yes {
        break;
      }
      end := end - w;
    }
  }

  lemma RoomForWords(ptr: nat, length: nat, w: nat)
    requires (w == 4 || w == 8) && length > 20
    ensures ptr < Down(ptr + length, w) <= ptr + length && ptr <= Down(ptr + w - 1, w)
  {}

  /** The part for strings of more than 20 bytes: back to an aligned address, and on word by word. */
  method SkipBlankWords(s: array<byte>, ptr: nat, w: nat) returns (end: nat, ghost loads: seq<nat>)
    requires (w == 4 || w == 8) && s.Length > 20
    ensures ptr <= end <= ptr + s.Length && Blank(s[..], end - ptr, s.Length)
    ensures GoodLoads(loads, Down(ptr + s.Length, w), ptr, s.Length, w)
  {
    var spaceInt := if w == 4 then 0x2020_2020 else 0x2020_2020_2020_2020;
    SpaceWords();
    RoomForWords(ptr, s.Length, w);
    var endWords, startWords := Down(ptr + s.Length, w), Down(ptr + w - 1, w);
    var e := StepBackTo(s, endWords - ptr);
    end, loads := ptr + e, [];
    if s[e - 1] == SPACE && startWords < endWords {
      end, loads := SkipWords(s, ptr, w, end, startWords, spaceInt);
    }
  }

  /** The variant for machines that need aligned words, with SIZEOF_INT = w and the string at
      address ptr; pointers are addresses. */
  method SkipTrailingSpaceAligned(s: array<byte>, ptr: nat, w: nat) returns (end: nat, ghost loads: seq<nat>)
    requires w == 4 || w == 8
    ensures end == ptr + Trimmed(s[..])
    ensures GoodLoads(loads, Down(ptr + s.Length, w), ptr, s.Length, w)
  {
    end, loads := ptr + s.Length, [];
    if s.Length > 20 {
      end, loads := SkipBlankWords(s, ptr, w);
    }
    SkipBlank(s[..], end - ptr);
    assert s[..][..end - ptr] == s[..end - ptr];
    var e := StepBack(s, end - ptr);
    end := ptr + e;
  }
}
