/** The Internet checksum of ping.c (RFC 1071) and the Echo message it protects (RFC 792).

    icmp_cksum adds up 16-bit words in a signed int and folds the carries at the end; RFC 1071
    defines the checksum by an addition that brings every carry back at once.  The theorems say
    that the two agree for every length, that a stored checksum verifies, what verification
    detects, and that neither byte order nor word order matters. */
module Checksum {
  import opened Bytes

  newtype int32 = x: int | -0x8000_0000 <= x < 0x8000_0000
  newtype uint16 = x: int | 0 <= x < 0x1_0000

  /** How the host loads a 16-bit word. */
  datatype Endian = Little | Big

  function Load(order: Endian, first: byte, second: byte): (w: uint16) {
    match order
    case Little => first as uint16 + 256 * second as uint16
    case Big => 256 * first as uint16 + second as uint16
  }

  /** The bytes of a word as the host stores it. */
  function Store(order: Endian, w: uint16): (bs: (byte, byte))
    ensures Load(order, bs.0, bs.1) == w
  {
    var low, high := (w % 256) as int, (w / 256) as int;
    match order
    case Little => (low, high)
    case Big => (high, low)
  }

  lemma LoadOrders(first: byte, second: byte)
    ensures Load(Little, first, second) as int == first + 0x100 * second
    ensures Load(Big, first, second) as int == 0x100 * first + second
  {}

  /** What icmp_cksum sums: the 16-bit words, and the last byte of an odd length in the high half. */
  function Words(order: Endian, data: seq<byte>): seq<uint16> {
    if |data| == 0 then []
    else if |data| == 1 then [256 * data[0] as uint16]
    else [Load(order, data[0], data[1])] + Words(order, data[2..])
  }

  function Sum(ws: seq<uint16>): nat {
    if ws == [] then 0 else ws[0] as nat + Sum(ws[1..])
  }

  // ---------------------------------------------------------------- one's complement addition

  /** Addition with the carry brought back into the low bit. */
  function AddCarry(a: uint16, b: uint16): uint16 {
    var s := a as int + b as int;
    if s > 0xffff then (s - 0xffff) as uint16 else s as uint16
  }

  /** The one's complement sum of RFC 1071, section 1. */
  function OnesSum(ws: seq<uint16>): uint16 {
    if ws == [] then 0 else AddCarry(ws[0], OnesSum(ws[1..]))
  }

  function Complement(w: uint16): uint16 { 0xffff - w }

  /** The checksum as RFC 1071 defines it. */
  function Rfc1071(ws: seq<uint16>): uint16 { Complement(OnesSum(ws)) }

  /** w represents s modulo 0xffff, and is 0 only for 0. */
  predicate Represents(w: int, s: int) {
    && 0 <= w <= 0xffff
    && (s - w) % 0xffff == 0
    && (w == 0 <==> s == 0)
  }

  lemma RepresentsBy(w: int, s: int, k: int)
    requires s == w + 0xffff * k && 0 <= w <= 0xffff && (w == 0 <==> s == 0)
    ensures Represents(w, s)
  {}

  /** There is only one such word. */
  lemma RepresentsOne(v: int, w: int, s: int)
    requires Represents(v, s) && Represents(w, s)
    ensures v == w
  {
    var i, j := (s - v) / 0xffff, (s - w) / 0xffff;
    assert s - v == 0xffff * i && s - w == 0xffff * j;
  }

  /** The number of carries brought back. */
  ghost function Carries(ws: seq<uint16>): nat {
    if ws == [] then 0
    else Carries(ws[1..]) + if ws[0] as int + OnesSum(ws[1..]) as int > 0xffff then 1 else 0
  }

  lemma {:induction false} SumIsOnesSumAndCarries(ws: seq<uint16>)
    ensures Sum(ws) == OnesSum(ws) as int + 0xffff * Carries(ws)
    ensures OnesSum(ws) == 0 <==> Sum(ws) == 0
  {
    if ws != [] {
      SumIsOnesSumAndCarries(ws[1..]);
    }
  }

  /** The one's complement sum is the sum modulo 0xffff, and 0 only if every word is 0. */
  lemma OnesSumRepresents(ws: seq<uint16>)
    ensures Represents(OnesSum(ws) as int, Sum(ws))
  {
    SumIsOnesSumAndCarries(ws);
    RepresentsBy(OnesSum(ws) as int, Sum(ws), Carries(ws));
  }

  // ---------------------------------------------------------------- icmp_cksum

  /** The two folding lines of icmp_cksum. */
  function Folded(sum: nat): nat {
    var once := sum / 0x1_0000 + sum % 0x1_0000;
    once + once / 0x1_0000
  }

  /** Below 2^31 two folds suffice. */
  lemma FoldedRepresents(s: nat)
    requires s < 0x8000_0000
    ensures Represents(Folded(s) % 0x1_0000, s)
  {
    var hi, lo := s / 0x1_0000, s % 0x1_0000;
    if hi + lo < 0x1_0000 {
      assert Folded(s) == hi + lo;
      RepresentsBy(hi + lo, s, hi);
    } else {
      assert Folded(s) == 0x1_0000 + (hi + lo - 0xffff);
      RepresentsBy(hi + lo - 0xffff, s, hi + 1);
    }
  }

  /** Hence folding a sum that icmp_cksum can reach gives the one's complement sum. */
  lemma FoldedIsOnesSum(ws: seq<uint16>)
    requires Sum(ws) < 0x8000_0000
    ensures Folded(Sum(ws)) % 0x1_0000 == OnesSum(ws) as int
  {
    OnesSumRepresents(ws);
    FoldedRepresents(Sum(ws));
    RepresentsOne(Folded(Sum(ws)) % 0x1_0000, OnesSum(ws) as int, Sum(ws));
  }

  lemma WordsOfTwo(order: Endian, data: seq<byte>)
    requires |data| >= 2
    ensures Words(order, data) == [Load(order, data[0], data[1])] + Words(order, data[2..])
  {}

  lemma {:induction false} WordsConcat(order: Endian, a: seq<byte>, b: seq<byte>)
    requires |a| % 2 == 0
    ensures Words(order, a + b) == Words(order, a) + Words(order, b)
  {
    if a == [] {
      assert a + b == b;
    } else {
      assert (a + b)[2..] == a[2..] + b;
      WordsConcat(order, a[2..], b);
      WordsOfTwo(order, a + b);
      WordsOfTwo(order, a);
    }
  }

  lemma WordsOfPrefix(order: Endian, data: seq<byte>, k: nat)
    requires k % 2 == 0 && k <= |data|
    ensures Words(order, data) == Words(order, data[..k]) + Words(order, data[k..])
  {
    assert data == data[..k] + data[k..];
    WordsConcat(order, data[..k], data[k..]);
  }

  lemma {:induction false} SumConcat(a: seq<uint16>, b: seq<uint16>)
    ensures Sum(a + b) == Sum(a) + Sum(b)
  {
    if a == [] {
      assert a + b == b;
    } else {
      SumConcat(a[1..], b);
      assert (a + b)[1..] == a[1..] + b;
    }
  }

  /** What one turn of the summing loop adds. */
  lemma SumOfNextWord(order: Endian, data: seq<byte>, p: nat)
    requires p % 2 == 0 && p + 2 <= |data|
    ensures Sum(Words(order, data[..p + 2])) ==
            Sum(Words(order, data[..p])) + Load(order, data[p], data[p + 1]) as int
  {
    var w := Load(order, data[p], data[p + 1]);
    WordsOfPrefix(order, data[..p + 2], p);
    assert data[..p + 2][..p] == data[..p] && data[..p + 2][p..] == [data[p], data[p + 1]];
    assert Words(order, [data[p], data[p + 1]]) == [w] by {
      assert [data[p], data[p + 1]][2..] == [];
    }
    SumConcat(Words(order, data[..p]), [w]);
  }

  lemma SumOfLastByte(order: Endian, data: seq<byte>)
    requires |data| % 2 == 1
    ensures Sum(Words(order, data)) == Sum(Words(order, data[..|data| - 1])) + 256 * (data[|data| - 1] as int)
  {
    var p := |data| - 1;
    WordsOfPrefix(order, data, p);
    SumConcat(Words(order, data[..p]), [256 * data[p] as uint16]);
  }

  lemma Halves(x: int, q: int, r: int)
    requires x == 2 * q + r && 0 <= r < 2
    ensures x % 2 == r
  {}

  lemma ParityOfLow(len: int)
    ensures len % 2 == len % 0x1_0000 % 2
  {
    var n, q := len % 0x1_0000, len / 0x1_0000;
    Halves(len, 0x8000 * q + n / 2, n % 2);
  }

  lemma LowBits(x: int, q: int, r: int)
    requires x == 0x1_0000 * q + r && 0 <= r < 0x1_0000
    ensures x % 0x1_0000 == r
  {}

  /** The loop over the whole words; the type of `sum` is the proof that it never overflows. */
  method SumWords(order: Endian, data: array<byte>, len: int) returns (sum: int32, p: nat)
    requires len % 0x1_0000 <= data.Length
    ensures p == len % 0x1_0000 - len % 0x1_0000 % 2
    ensures sum as int == Sum(Words(order, data[..p])) && 0 <= sum as int <= 0x7fff * 0xffff
  {
    ghost var n, q, k := len % 0x1_0000, len / 0x1_0000, 0;
    ghost var all := data[..n];
    p, sum := 0, 0;
    var rest := len;
    LowBits(rest, q, n);
    while rest % 0x1_0000 >= 2
      invariant p == 2 * k && p <= n && rest == 0x1_0000 * q + (n - p) && rest % 0x1_0000 == n - p
      invariant sum as int == Sum(Words(order, all[..p])) && 0 <= sum as int <= 0xffff * k
      decreases n - p
    {
      SumOfNextWord(order, all, p);
      sum := sum + Load(order, data[p], data[p + 1]) as int32;
      p, rest, k := p + 2, rest - 2, k + 1;
      LowBits(rest, q, n - p);
    }
    Halves(n, k, n - p);
    assert all[..p] == data[..p];
  }

  /** The summing part of icmp_cksum. */
  method WordSum(order: Endian, data: array<byte>, len: int) returns (sum: int32)
    requires len % 0x1_0000 <= data.Length
    ensures sum as int == Sum(Words(order, data[..len % 0x1_0000]))
    ensures 0 <= sum as int <= 0x7fff * 0xffff + 0xff00
  {
    ghost var all := data[..len % 0x1_0000];
    var old_ := len % 2;
    var p;
    sum, p := SumWords(order, data, len);
    ParityOfLow(len);
    if old_ != 0 {
      SumOfLastByte(order, all);
      assert all[..p] == data[..p] && all[p] == data[p];
      var tmp: uint16 := 256 * data[p] as uint16;
      sum := sum + tmp as int32;
    }
  }

  /** The checksum of the first len bytes.  `len & 0xfffe` is 0 as soon as the low 16 bits of len
      are below 2, so only len % 0x10000 bytes are summed. */
  method IcmpCksum(order: Endian, data: array<byte>, len: int) returns (cksum: uint16)
    requires len % 0x1_0000 <= data.Length
    ensures cksum == Rfc1071(Words(order, data[..len % 0x1_0000]))
  {
    var sum := WordSum(order, data, len);
    FoldedIsOnesSum(Words(order, data[..len % 0x1_0000]));
    sum := sum / 0x1_0000 + sum % 0x1_0000;
    sum := sum + sum / 0x1_0000;
    return 0xffff - (sum % 0x1_0000) as uint16;
  }

  // ---------------------------------------------------------------- a stored checksum verifies

  predicate Verifies(order: Endian, data: seq<byte>) { Rfc1071(Words(order, data)) == 0 }

  function SetWord(order: Endian, data: seq<byte>, at: nat, w: uint16): (r: seq<byte>)
    requires at + 2 <= |data|
    ensures |r| == |data|
  {
    data[at := Store(order, w).0][at + 1 := Store(order, w).1]
  }

  lemma WordsOfHeader(order: Endian, data: seq<byte>)
    requires |data| >= 4
    ensures Words(order, data) ==
            [Load(order, data[0], data[1]), Load(order, data[2], data[3])] + Words(order, data[4..])
  {
    assert data[2..][2..] == data[4..];
  }

  lemma HeaderSum(w: uint16, c: uint16, rest: seq<uint16>)
    ensures Sum([w, c] + rest) == w as int + c as int + Sum(rest)
  {
    assert ([w, c] + rest)[1..] == [c] + rest;
    assert ([c] + rest)[1..] == rest;
  }

  /** Clearing the checksum field, storing the checksum there and summing again gives 0, for even
      and for odd lengths. */
  lemma StoredChecksumVerifies(order: Endian, data: seq<byte>)
    requires |data| >= 4
    ensures var cleared := SetWord(order, data, 2, 0);
      Verifies(order, SetWord(order, cleared, 2, Rfc1071(Words(order, cleared))))
  {
    var cleared := SetWord(order, data, 2, 0);
    var c := Rfc1071(Words(order, cleared));
    var stamped := SetWord(order, cleared, 2, c);
    WordsOfHeader(order, cleared);
    WordsOfHeader(order, stamped);
    assert cleared[4..] == stamped[4..];
    var w, rest := Load(order, data[0], data[1]), Words(order, data[4..]);
    assert cleared[4..] == data[4..];
    HeaderSum(w, 0, rest);
    HeaderSum(w, c, rest);
    SumIsOnesSumAndCarries([w, 0] + rest);
    RepresentsBy(0xffff, Sum([w, c] + rest), Carries([w, 0] + rest));
    OnesSumRepresents([w, c] + rest);
    RepresentsOne(0xffff, OnesSum([w, c] + rest) as int, Sum([w, c] + rest));
  }

  lemma {:induction false} SumAfterUpdate(ws: seq<uint16>, i: nat, w: uint16)
    requires i < |ws|
    ensures Sum(ws[i := w]) == Sum(ws) - ws[i] as int + w as int
  {
    if i == 0 {
      assert ws[0 := w][1..] == ws[1..];
    } else {
      assert ws[i := w][1..] == ws[1..][i - 1 := w];
      SumAfterUpdate(ws[1..], i - 1, w);
    }
  }

  lemma VerifiesResidue(ws: seq<uint16>)
    ensures Rfc1071(ws) == 0 <==> Sum(ws) > 0 && Sum(ws) % 0xffff == 0
  {
    SumIsOnesSumAndCarries(ws);
  }

  /** A verifying message stops verifying when one word changes, unless the change is between the
      two representations of zero; exactly then it goes unnoticed. */
  lemma WordChangeDetected(ws: seq<uint16>, i: nat, w: uint16)
    requires i < |ws| && Rfc1071(ws) == 0
    ensures Rfc1071(ws[i := w]) == 0 <==>
            w == ws[i] || (ws[i] == 0 && w == 0xffff) || (ws[i] == 0xffff && w == 0 && Sum(ws) > 0xffff)
  {
    SumAfterUpdate(ws, i, w);
    VerifiesResidue(ws);
    VerifiesResidue(ws[i := w]);
    var k := Sum(ws) / 0xffff;
    var d := w as int - ws[i] as int;
    assert Sum(ws) == 0xffff * k;
    assert Sum(ws[i := w]) == 0xffff * k + d;
  }

  // ---------------------------------------------------------------- word order and byte order

  lemma MatchFirst<T>(vs: seq<T>, ws: seq<T>) returns (i: nat)
    requires vs != [] && multiset(vs) == multiset(ws)
    ensures i < |ws| && ws[i] == vs[0]
    ensures multiset(vs[1..]) == multiset(ws[..i] + ws[i + 1..])
  {
    assert vs[0] in multiset(ws);
    i :| 0 <= i < |ws| && ws[i] == vs[0];
    assert vs == [vs[0]] + vs[1..];
    assert ws == ws[..i] + ([ws[i]] + ws[i + 1..]);
    var rest := ws[..i] + ws[i + 1..];
    assert multiset(ws) == multiset{ws[i]} + multiset(rest) by {
      assert multiset(rest) == multiset(ws[..i]) + multiset(ws[i + 1..]);
      assert multiset(ws) == multiset(ws[..i]) + (multiset{ws[i]} + multiset(ws[i + 1..]));
    }
    assert multiset(vs) == multiset{vs[0]} + multiset(vs[1..]);
    assert multiset(rest) == multiset(ws) - multiset{ws[i]};
    assert multiset(vs[1..]) == multiset(vs) - multiset{vs[0]};
  }

  lemma SumWithout(ws: seq<uint16>, i: nat)
    requires i < |ws|
    ensures Sum(ws) == ws[i] as int + Sum(ws[..i] + ws[i + 1..])
  {
    assert ws == ws[..i] + ws[i..];
    SumConcat(ws[..i], ws[i..]);
    SumConcat(ws[..i], ws[i + 1..]);
  }

  lemma {:induction false} SumOfPermutation(vs: seq<uint16>, ws: seq<uint16>)
    requires multiset(vs) == multiset(ws)
    ensures Sum(vs) == Sum(ws)
  {
    if vs == [] {
      assert |multiset(ws)| == 0;
    } else {
      var i := MatchFirst(vs, ws);
      SumOfPermutation(vs[1..], ws[..i] + ws[i + 1..]);
      SumWithout(ws, i);
    }
  }

  /** RFC 1071, section 2 (A): the words may be summed in any order. */
  lemma WordOrderIndependent(vs: seq<uint16>, ws: seq<uint16>)
    requires multiset(vs) == multiset(ws)
    ensures Rfc1071(vs) == Rfc1071(ws)
  {
    SumOfPermutation(vs, ws);
    OnesSumRepresents(vs);
    OnesSumRepresents(ws);
    RepresentsOne(OnesSum(vs) as int, OnesSum(ws) as int, Sum(vs));
  }

  /** The bytes that carry weight 256 on a little-endian host. */
  ghost function HighBytes(data: seq<byte>): nat {
    if |data| < 2 then 0 else data[1] + HighBytes(data[2..])
  }

  ghost function OddByte(data: seq<byte>): byte {
    if |data| % 2 == 0 then 0 else data[|data| - 1]
  }

  lemma {:induction false} SumsOfBothOrders(data: seq<byte>)
    ensures 256 * Sum(Words(Little, data)) ==
            Sum(Words(Big, data)) + 0xffff * HighBytes(data) + 0xff00 * OddByte(data) as int
    ensures Sum(Words(Little, data)) == 0 <==> Sum(Words(Big, data)) == 0
  {
    if |data| >= 2 {
      SumsOfBothOrders(data[2..]);
    }
  }

  lemma ComplementHalves(w: uint16)
    ensures Complement(w) % 256 == 255 - w % 256 && Complement(w) / 256 == 255 - w / 256
  {
    var q, r := w as int / 256, w as int % 256;
    assert Complement(w) as int == 256 * (255 - q) + (255 - r);
  }

  lemma SwappedComplement(l: uint16, b: uint16)
    ensures Store(Little, Complement(l)) == Store(Big, Complement(b)) <==> Store(Little, l) == Store(Big, b)
  {
    ComplementHalves(l);
    ComplementHalves(b);
  }

  lemma StoredSwapped(l: uint16, b: uint16)
    ensures Store(Little, l) == Store(Big, b) <==> b == 256 * (l % 256) + l / 256
  {}

  lemma OnlyZero(b: int, v: int, m: int, x: byte)
    requires 0 <= b <= 0xffff && 0 <= v <= 0xffff && (b == 0 <==> v == 0)
    requires b == v + 0xffff * m + 255 * x
    ensures b == v <==> x == 0
  {}

  lemma SwappedResidue(l: uint16, b: uint16, k: int, x: byte)
    requires 256 * l as int == b as int + 0xffff * k - 255 * x
    requires l == 0 <==> b == 0
    ensures Store(Little, l) == Store(Big, b) <==> x == 0
  {
    var low, high := (l % 256) as int, (l / 256) as int;
    StoredSwapped(l, b);
    OnlyZero(b as int, 256 * low + high, high - k, x);
  }

  /** RFC 1071, section 2 (B): hosts of both byte orders store the same two checksum bytes,
      exactly if the length is even or the last byte is 0. */
  lemma ByteOrderIndependent(data: seq<byte>)
    ensures Store(Little, Rfc1071(Words(Little, data))) == Store(Big, Rfc1071(Words(Big, data)))
            <==> OddByte(data) == 0
  {
    var l, b := OnesSum(Words(Little, data)), OnesSum(Words(Big, data));
    var x := OddByte(data) as int;
    SumsOfBothOrders(data);
    SumIsOnesSumAndCarries(Words(Little, data));
    SumIsOnesSumAndCarries(Words(Big, data));
    SwappedComplement(l, b);
    var k := Carries(Words(Big, data)) + HighBytes(data) + x - 256 * Carries(Words(Little, data));
    assert 256 * l as int == b as int + 0xffff * k - 255 * x;
    SwappedResidue(l, b, k, x);
  }

  // ---------------------------------------------------------------- a worked example

  lemma OnesSumOfOne(w: uint16)
    ensures OnesSum([w]) == w
  {
    assert [w][1..] == [];
  }

  lemma OnesSumOfTwo(v: uint16, w: uint16)
    ensures OnesSum([v, w]) == AddCarry(v, w)
  {
    assert [v, w][1..] == [w];
    OnesSumOfOne(w);
  }

  lemma SumOfFour(a: uint16, b: uint16, c: uint16, d: uint16)
    ensures OnesSum([a, b, c, d]) == AddCarry(a, AddCarry(b, AddCarry(c, d)))
  {
    assert [a, b, c, d][1..] == [b, c, d] && [b, c, d][1..] == [c, d];
    OnesSumOfTwo(c, d);
  }

  /** The example of RFC 1071, section 3: the bytes 00 01 f2 03 f4 f5 f6 f7 add up to ddf2. */
  lemma Rfc1071Example()
    ensures var data: seq<byte> := [0x00, 0x01, 0xf2, 0x03, 0xf4, 0xf5, 0xf6, 0xf7];
      Rfc1071(Words(Big, data)) == 0xffff - 0xddf2
  {
    var data: seq<byte> := [0x00, 0x01, 0xf2, 0x03, 0xf4, 0xf5, 0xf6, 0xf7];
    assert data[2..] == [0xf2, 0x03, 0xf4, 0xf5, 0xf6, 0xf7] && data[2..][2..] == [0xf4, 0xf5, 0xf6, 0xf7];
    assert data[2..][2..][2..] == [0xf6, 0xf7] && data[2..][2..][2..][2..] == [];
    assert Words(Big, [0xf6, 0xf7]) == [0xf6f7];
    assert Words(Big, data[2..][2..]) == [0xf4f5, 0xf6f7];
    assert Words(Big, data[2..]) == [0xf203, 0xf4f5, 0xf6f7];
    assert Words(Big, data) == [0x0001, 0xf203, 0xf4f5, 0xf6f7];
    SumOfFour(0x0001, 0xf203, 0xf4f5, 0xf6f7);
  }

  // ---------------------------------------------------------------- icmp_pack

  const ICMP_ECHO: byte := 8
  const BUFFSIZE := 72

  /** The bytes of an Echo message before the checksum is filled in. */
  ghost predicate Message(order: Endian, buf: seq<byte>, seqNo: int, pid: int, length: nat) {
    && |buf| >= 8 + length
    && buf[0] == ICMP_ECHO && buf[1] == 0
    && (buf[4], buf[5]) == Store(order, (pid % 0x1_0000) as uint16)
    && (buf[6], buf[7]) == Store(order, (seqNo % 0x1_0000) as uint16)
    && forall k :: 8 <= k < 8 + length ==> buf[k] == k - 8
  }

  method WriteMessage(order: Endian, buf: array<byte>, seqNo: int, pid: int, length: int)
    requires 0 <= length <= 255 && 8 + length <= buf.Length
    modifies buf
    ensures Message(order, buf[..], seqNo, pid, length) && buf[2] == buf[3] == 0
    ensures buf[8 + length..] == old(buf[8 + length..])
  {
    var sq, id := Store(order, (seqNo % 0x1_0000) as uint16), Store(order, (pid % 0x1_0000) as uint16);
    buf[0], buf[1], buf[2], buf[3] := ICMP_ECHO, 0, 0, 0;
    buf[6], buf[7] := sq.0, sq.1;
    buf[4], buf[5] := id.0, id.1;
    var i: byte := 0;
    while i < length
      invariant i <= length
      invariant buf[..8] == [ICMP_ECHO, 0, 0, 0, id.0, id.1, sq.0, sq.1]
      invariant forall k :: 8 <= k < 8 + i ==> buf[k] == k - 8
      invariant buf[8 + length..] == old(buf[8 + length..])
    {
      buf[8 + i] := i;
      i := (i + 1) % 256;
    }
    assert forall k :: 0 <= k < 8 ==> buf[k] == buf[..8][k];
  }

  lemma WordsOfShort(order: Endian, data: seq<byte>)
    ensures |data| == 0 ==> Words(order, data) == []
    ensures |data| == 1 ==> Words(order, data) == [256 * data[0] as uint16]
    ensures |data| == 2 ==> Words(order, data) == [Load(order, data[0], data[1])]
    ensures |data| == 3 ==> Words(order, data) == [Load(order, data[0], data[1]), 256 * data[2] as uint16]
  {
    if |data| == 2 {
      assert data[2..] == [];
    } else if |data| == 3 {
      assert data[2..] == [data[2]];
      assert Words(order, [data[2]]) == [256 * data[2] as uint16];
    }
  }

  /** A message too short to hold its checksum does not verify. */
  lemma ShortPacket(order: Endian, cleared: seq<byte>, data: seq<byte>)
    requires |cleared| == |data| < 4
    requires forall k :: 0 <= k < |data| ==> cleared[k] == [ICMP_ECHO, 0, 0][k]
    requires |data| >= 1 ==> data[0] == ICMP_ECHO
    requires |data| >= 2 ==> data[1] == 0
    requires |data| == 3 ==> data[2] == Store(order, Rfc1071(Words(order, cleared))).0
    ensures !Verifies(order, data)
  {
    WordsOfShort(order, data);
    WordsOfShort(order, cleared);
    var w := Load(order, ICMP_ECHO, 0);
    if |data| == 3 {
      OnesSumOfTwo(w, 256 * data[2] as uint16);
      OnesSumOfTwo(w, 0);
    } else if |data| == 2 {
      OnesSumOfOne(w);
    } else if |data| == 1 {
      OnesSumOfOne(256 * ICMP_ECHO as uint16);
    }
  }

  /** Lays an Echo message out in buf.  The data loop counts in an unsigned char, so a length above
      255 would never end; it writes `length` bytes after the 8 header bytes. */
  method IcmpPack(order: Endian, buf: array<byte>, seqNo: int, pid: int, length: int)
    requires 0 <= length <= 255 && 8 + length <= buf.Length
    modifies buf
    ensures Message(order, buf[..], seqNo, pid, length)
    ensures buf[8 + length..] == old(buf[8 + length..])
    ensures buf[0] == 8 && buf[1] == 0
    ensures Load(order, buf[4], buf[5]) as int == pid % 0x1_0000
    ensures Load(order, buf[6], buf[7]) as int == seqNo % 0x1_0000
    ensures forall k :: 8 <= k < 8 + length ==> buf[k] == k - 8
    ensures Verifies(order, buf[..length]) <==> length >= 4
  {
    WriteMessage(order, buf, seqNo, pid, length);
    ghost var cleared := buf[..length];
    var cksum := IcmpCksum(order, buf, length);
    assert cleared == buf[..length % 0x1_0000];
    var bytes := Store(order, cksum);
    buf[2], buf[3] := bytes.0, bytes.1;
    if length >= 4 {
      StoredChecksumVerifies(order, cleared);
      assert SetWord(order, cleared, 2, 0) == cleared;
      assert buf[..length] == SetWord(order, cleared, 2, cksum);
    } else {
      ShortPacket(order, cleared, buf[..length]);
    }
  }
}
