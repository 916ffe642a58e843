/** The array sort of shellsort.sh: insertion passes with the gaps n/3+1, (n/3+1)/3+1, ..., 1.

    A pass with gap g splits the array into g columns (the positions c, c+g, c+2g, ...) and
    sorts each of them.  The central theorem, PassKeepsGapOrder, says that such a pass leaves
    every order h that the array already had, whatever h and g are. */
module ShellSort {

  /** Positions that are h apart are in order. */
  ghost predicate GapSorted(s: seq<int>, h: int) {
    forall i, j :: 0 <= i < j < |s| && j - i == h ==> s[i] <= s[j]
  }

  ghost predicate Sorted(s: seq<int>) {
    forall i, j :: 0 <= i < j < |s| ==> s[i] <= s[j]
  }

  /** How many positions of c, c+g, c+2g, ... hold a value of at most v. */
  ghost function CountLe(s: seq<int>, g: int, c: nat, v: int): nat
    requires g >= 1
    decreases |s| - c
  {
    if c >= |s| then 0 else (if s[c] <= v then 1 else 0) + CountLe(s, g, c + g, v)
  }

  /** Every column holds the same values in both arrays, each as often as in the other. */
  ghost predicate SameColumns(s: seq<int>, t: seq<int>, g: int)
    requires g >= 1
  {
    |s| == |t| && forall c: nat, v :: c < g ==> CountLe(s, g, c, v) == CountLe(t, g, c, v)
  }

  /** The gaps of a run over n elements, in the order in which they are used. */
  ghost function Gaps(n: int): seq<int> {
    if n <= 1 then [] else [n / 3 + 1] + Gaps(n / 3 + 1)
  }

  // ---------------------------------------------------------------- columns

  /** k is one of c, c+g, c+2g, ... */
  ghost predicate InColumn(c: nat, g: int, k: int)
    requires g >= 1
    decreases k - c
  {
    c <= k && (c == k || InColumn(c + g, g, k))
  }

  /** The number of column entries before k. */
  ghost function Rank(c: nat, g: int, k: int): nat
    requires g >= 1 && InColumn(c, g, k)
    decreases k - c
  {
    if c == k then 0 else 1 + Rank(c + g, g, k)
  }

  /** The first position of the column of k. */
  ghost function Start(g: int, k: nat): (c: nat)
    requires g >= 1
    ensures c < g
  {
    if k < g then k else Start(g, k - g)
  }

  lemma {:induction false} ColumnShift(c: nat, g: int, k: int, d: nat)
    requires g >= 1
    ensures InColumn(c + d, g, k + d) == InColumn(c, g, k)
    ensures InColumn(c, g, k) ==> Rank(c + d, g, k + d) == Rank(c, g, k)
    decreases k - c
  {
    if c < k {
      ColumnShift(c + g, g, k, d);
    }
  }

  lemma {:induction false} StartInColumn(g: int, k: nat)
    requires g >= 1
    ensures InColumn(Start(g, k), g, k)
  {
    if k >= g {
      StartInColumn(g, k - g);
      ColumnShift(Start(g, k), g, k - g, g);
    }
  }

  /** Moving the start of a column by h lands in the column of any of its entries moved by h. */
  lemma {:induction false} StartOfShifted(g: int, i: nat, h: nat)
    requires g >= 1
    ensures Start(g, i + h) == Start(g, Start(g, i) + h)
  {
    if i >= g {
      StartOfShifted(g, i - g, h);
    }
  }

  lemma {:induction false} RankSplits(c: nat, g: int, m: int, k: int)
    requires g >= 1 && InColumn(c, g, m) && InColumn(m, g, k)
    ensures InColumn(c, g, k) && Rank(c, g, k) == Rank(c, g, m) + Rank(m, g, k)
    decreases m - c
  {
    if c != m {
      RankSplits(c + g, g, m, k);
    }
  }

  // ---------------------------------------------------------------- counting in a column

  lemma {:induction false} CountAfterUpdate(s: seq<int>, g: int, c: nat, v: int, k: nat, x: int)
    requires g >= 1 && k < |s|
    ensures CountLe(s[k := x], g, c, v) == CountLe(s, g, c, v) +
            if InColumn(c, g, k) then (if x <= v then 1 else 0) - (if s[k] <= v then 1 else 0) else 0
    decreases |s| - c
  {
    if c < |s| {
      CountAfterUpdate(s, g, c + g, v, k, x);
    }
  }

  /** At most m - c entries are lost by starting the count later in the column. */
  lemma {:induction false} CountFrom(s: seq<int>, g: int, c: nat, m: int, v: int)
    requires g >= 1 && InColumn(c, g, m)
    ensures CountLe(s, g, c, v) <= Rank(c, g, m) + CountLe(s, g, m, v)
    decreases m - c
  {
    if c != m {
      CountFrom(s, g, c + g, m, v);
    }
  }

  /** In an h-sorted array a column has at least as many small values as its shift by h. */
  lemma {:induction false} CountShifted(s: seq<int>, g: int, h: nat, c: nat, v: int)
    requires g >= 1 && h >= 1 && GapSorted(s, h)
    ensures CountLe(s, g, c + h, v) <= CountLe(s, g, c, v)
    decreases |s| - c
  {
    if c < |s| {
      CountShifted(s, g, h, c + g, v);
    }
  }

  lemma {:induction false} ColumnSorted(s: seq<int>, g: int, c: nat, k: int)
    requires g >= 1 && GapSorted(s, g) && InColumn(c, g, k) && k < |s|
    ensures s[c] <= s[k]
    decreases k - c
  {
    if c != k {
      ColumnSorted(s, g, c + g, k);
    }
  }

  /** In a sorted column the entry at k has its whole prefix below or equal to it ... */
  lemma {:induction false} RankIsReached(s: seq<int>, g: int, c: nat, k: int)
    requires g >= 1 && GapSorted(s, g) && InColumn(c, g, k) && k < |s|
    ensures CountLe(s, g, c, s[k]) >= Rank(c, g, k) + 1
    decreases k - c
  {
    ColumnSorted(s, g, c, k);
    if c != k {
      RankIsReached(s, g, c + g, k);
    }
  }

  lemma {:induction false} NothingBelow(s: seq<int>, g: int, c: nat, v: int)
    requires g >= 1 && GapSorted(s, g) && (c < |s| ==> v < s[c])
    ensures CountLe(s, g, c, v) == 0
    decreases |s| - c
  {
    if c < |s| {
      NothingBelow(s, g, c + g, v);
    }
  }

  /** ... and is itself at most v as soon as more than its prefix is. */
  lemma {:induction false} RankBounds(s: seq<int>, g: int, c: nat, k: int, v: int)
    requires g >= 1 && GapSorted(s, g) && InColumn(c, g, k) && k < |s|
    requires CountLe(s, g, c, v) >= Rank(c, g, k) + 1
    ensures s[k] <= v
    decreases k - c
  {
    if c == k {
      if v < s[c] {
        NothingBelow(s, g, c, v);
      }
    } else {
      RankBounds(s, g, c + g, k, v);
    }
  }

  // ---------------------------------------------------------------- the theorem

  /** Sorting every column of gap g keeps an order h that was there before. */
  lemma PassKeepsGapOrder(s: seq<int>, t: seq<int>, g: int, h: int)
    requires g >= 1 && h >= 1
    requires GapSorted(s, h)
    requires SameColumns(s, t, g) && GapSorted(t, g)
    ensures GapSorted(t, h)
  {
    forall i, j | 0 <= i < j < |t| && j - i == h ensures t[i] <= t[j] {
      var c, d, v := Start(g, i), Start(g, i + h), t[j];
      StartInColumn(g, i);
      ColumnShift(c, g, i, h);
      StartOfShifted(g, i, h);
      StartInColumn(g, c + h);
      RankSplits(d, g, c + h, j);
      calc {
        Rank(c, g, i) + 1 + Rank(d, g, c + h);
        Rank(d, g, j) + 1;
      <= { RankIsReached(t, g, d, j); }
        CountLe(t, g, d, v);
        CountLe(s, g, d, v);
      <= { CountFrom(s, g, d, c + h, v); }
        Rank(d, g, c + h) + CountLe(s, g, c + h, v);
      <= { CountShifted(s, g, h, c, v); }
        Rank(d, g, c + h) + CountLe(s, g, c, v);
        Rank(d, g, c + h) + CountLe(t, g, c, v);
      }
      RankBounds(t, g, c, i, v);
    }
  }

  /** A pass has only one possible outcome. */
  lemma PassIsDetermined(s: seq<int>, t: seq<int>, u: seq<int>, g: int)
    requires g >= 1
    requires SameColumns(s, t, g) && GapSorted(t, g)
    requires SameColumns(s, u, g) && GapSorted(u, g)
    ensures t == u
  {
    forall i | 0 <= i < |s| ensures t[i] == u[i] {
      var c := Start(g, i);
      StartInColumn(g, i);
      RankIsReached(t, g, c, i);
      RankBounds(u, g, c, i, t[i]);
      RankIsReached(u, g, c, i);
      RankBounds(t, g, c, i, u[i]);
    }
  }

  // ---------------------------------------------------------------- the code

  /** Exchanging two neighbours of a column leaves all columns with the values they had. */
  lemma SwapKeepsColumns(s: seq<int>, g: int, e: nat)
    requires g >= 1 && e + g < |s|
    ensures SameColumns(s, s[e := s[e + g]][e + g := s[e]], g)
  {
    forall c: nat, v | c < g
      ensures CountLe(s, g, c, v) == CountLe(s[e := s[e + g]][e + g := s[e]], g, c, v)
    {
      CountAfterUpdate(s, g, c, v, e, s[e + g]);
      CountAfterUpdate(s[e := s[e + g]], g, c, v, e + g, s[e]);
      ColumnShift(c, g, e, g);
    }
  }

  /** The first `limit` entries are in gap order, except that the entry at `hole` may be too small. */
  ghost predicate SortedButAt(s: seq<int>, gap: int, limit: int, hole: int)
    requires limit <= |s|
  {
    && (forall i, j :: 0 <= i < j < limit && j - i == gap && j != hole ==> s[i] <= s[j])
    && (forall i, j :: 0 <= i < j < limit && j - i == 2 * gap && i + gap == hole ==> s[i] <= s[j])
  }

  /** The first `limit` entries are in gap order. */
  ghost predicate SortedPrefix(s: seq<int>, gap: int, limit: int)
    requires limit <= |s|
  {
    forall i, j :: 0 <= i < j < limit && j - i == gap ==> s[i] <= s[j]
  }

  ghost function Swapped(s: seq<int>, e: int, f: int): seq<int>
    requires 0 <= e < |s| && 0 <= f < |s|
  {
    s[e := s[f]][f := s[e]]
  }

  /** What the shift loop keeps about the array with tmp in the hole. */
  ghost predicate Inserting(s: seq<int>, v: seq<int>, gap: int, limit: int, hole: int)
    requires gap >= 1
  {
    && limit <= |v|
    && SortedButAt(v, gap, limit, hole)
    && SameColumns(s, v, gap)
    && multiset(v) == multiset(s)
  }

  /** One turn of the shift loop. */
  lemma ShiftStep(s: seq<int>, v: seq<int>, gap: int, limit: int, end: int)
    requires gap >= 1 && 0 <= end && end + gap < limit
    requires Inserting(s, v, gap, limit, end + gap) && v[end] > v[end + gap]
    ensures Inserting(s, Swapped(v, end, end + gap), gap, limit, end)
  {
    SwapKeepsColumns(v, gap, end);
  }

  /** Copying an entry into the hole moves the hole. */
  lemma HoleMoves(a: seq<int>, tmp: int, end: nat, gap: nat)
    requires gap >= 1 && end + gap < |a|
    ensures Swapped(a[end + gap := tmp], end, end + gap) == a[end + gap := a[end]][end := tmp]
  {}

  lemma InsertStarts(s: seq<int>, gap: int, k: nat)
    requires gap >= 1 && k < |s| && SortedPrefix(s, gap, k)
    ensures Inserting(s, s, gap, k + 1, k)
  {}

  lemma InsertEnds(s: seq<int>, v: seq<int>, gap: int, limit: int, end: int)
    requires gap >= 1 && -gap <= end && end + gap < limit
    requires Inserting(s, v, gap, limit, end + gap)
    requires end >= 0 ==> v[end] <= v[end + gap]
    ensures SortedPrefix(v, gap, limit)
  {}

  /** One turn of the middle loop: the entry at i + gap is shifted down its column. */
  method Insert(arr: array<int>, gap: int, i: int)
    requires gap >= 1 && 0 <= i < arr.Length - gap
    requires SortedPrefix(arr[..], gap, i + gap)
    modifies arr
    ensures SortedPrefix(arr[..], gap, i + gap + 1)
    ensures SameColumns(old(arr[..]), arr[..], gap)
    ensures multiset(arr[..]) == multiset(old(arr[..]))
  {
    var end := i;
    var tmp := arr[gap + end];
    ghost var before, a, v := arr[..], arr[..], arr[..];   // v is a with tmp put into the hole at end + gap
    InsertStarts(v, gap, i + gap);
    while end >= 0
      invariant -gap <= end <= i
      invariant arr[..] == a && v == a[end + gap := tmp]
      invariant Inserting(before, v, gap, i + gap + 1, end + gap)
    {
      if arr[end] > tmp {
        HoleMoves(a, tmp, end, gap);
        ShiftStep(before, v, gap, i + gap + 1, end);
        arr[end + gap] := arr[end];
        a, v := a[end + gap := a[end]], Swapped(v, end, end + gap);
        end := end - gap;
      } else {
        break;
      }
    }
    arr[end + gap] := tmp;
    assert arr[..] == v;
    InsertEnds(before, v, gap, i + gap + 1, end);
  }

  /** One pass of the insertion loops. */
  method InsertionPass(arr: array<int>, gap: int)
    requires gap >= 1
    modifies arr
    ensures GapSorted(arr[..], gap)
    ensures SameColumns(old(arr[..]), arr[..], gap)
    ensures multiset(arr[..]) == multiset(old(arr[..]))
  {
    var i := 0;
    while i < arr.Length - gap
      invariant 0 <= i && (i == 0 || i <= arr.Length - gap)
      invariant i + gap <= arr.Length ==> SortedPrefix(arr[..], gap, i + gap)
      invariant SameColumns(old(arr[..]), arr[..], gap)
      invariant multiset(arr[..]) == multiset(old(arr[..]))
    {
      Insert(arr, gap, i);
      i := i + 1;
    }
  }

  /** trace[k] is the array after k passes with the given gaps: each pass permutes the columns of
      its gap, and leaves the array in the order of its gap and of every gap before it. */
  ghost predicate PassTrace(gaps: seq<int>, trace: seq<seq<int>>) {
    && |trace| == |gaps| + 1
    && (forall k :: 0 <= k < |gaps| ==> gaps[k] >= 1)
    && (forall k :: 0 <= k < |gaps| ==> SameColumns(trace[k], trace[k + 1], gaps[k]))
    && (forall k, m :: 0 <= k < m < |trace| ==> GapSorted(trace[m], gaps[k]))
  }

  lemma TraceExtends(gaps: seq<int>, trace: seq<seq<int>>, gap: int, s: seq<int>)
    requires PassTrace(gaps, trace) && gap >= 1
    requires SameColumns(trace[|gaps|], s, gap) && GapSorted(s, gap)
    ensures PassTrace(gaps + [gap], trace + [s])
  {
    var n := |gaps|;
    var gaps', trace' := gaps + [gap], trace + [s];
    forall k, m | 0 <= k < m < |trace'| ensures GapSorted(trace'[m], gaps'[k]) {
      if m == n + 1 && k < n {
        assert GapSorted(trace[n], gaps[k]);
        PassKeepsGapOrder(trace[n], s, gap, gaps[k]);
      }
    }
  }

  lemma {:induction false} AscendsFrom(s: seq<int>, i: nat, j: nat)
    requires GapSorted(s, 1) && i <= j < |s|
    ensures s[i] <= s[j]
  {
    if i < j {
      AscendsFrom(s, i, j - 1);
    }
  }

  /** The last gap, 1, makes the array sorted. */
  lemma OneSorted(s: seq<int>)
    requires GapSorted(s, 1)
    ensures Sorted(s)
  {
    forall i, j | 0 <= i < j < |s| ensures s[i] <= s[j] {
      AscendsFrom(s, i, j);
    }
  }

  /** How far a run over n elements has come: it has sorted with the gaps `done`, the last of them
      being `gap`, from the array `first` to the array s. */
  ghost predicate Reached(
    n: nat, gap: int, done: seq<int>, trace: seq<seq<int>>, first: seq<int>, s: seq<int>)
  {
    && Gaps(n) == done + Gaps(gap) && gap == (if done == [] then n else done[|done| - 1])
    && PassTrace(done, trace) && trace[0] == first && trace[|done|] == s
    && |s| == n && multiset(s) == multiset(first)
  }

  lemma RunStarts(s: seq<int>)
    ensures Reached(|s|, |s|, [], [s], s, s)
  {}

  lemma OneMorePass(
      n: nat, gap: int, done: seq<int>, trace: seq<seq<int>>, first: seq<int>, s: seq<int>, s': seq<int>)
    requires gap > 1 && Reached(n, gap, done, trace, first, s)
    requires SameColumns(s, s', gap / 3 + 1) && GapSorted(s', gap / 3 + 1) && multiset(s') == multiset(s)
    ensures Reached(n, gap / 3 + 1, done + [gap / 3 + 1], trace + [s'], first, s')
  {
    var g := gap / 3 + 1;
    assert done + ([g] + Gaps(g)) == (done + [g]) + Gaps(g);
    TraceExtends(done, trace, g, s');
    assert |s'| == |multiset(s')| == |s|;
  }

  /** A run has ended on gap 1, or had one element only: the array is sorted. */
  lemma RunEnds(n: nat, gap: int, done: seq<int>, trace: seq<seq<int>>, first: seq<int>, s: seq<int>)
    requires gap <= 1 && Reached(n, gap, done, trace, first, s)
    ensures Sorted(s) && PassTrace(Gaps(n), trace)
    ensures trace[0] == first && trace[|trace| - 1] == s && multiset(s) == multiset(first)
  {
    assert Gaps(n) == done;
    if done != [] {
      assert GapSorted(trace[|done|], done[|done| - 1]);
      OneSorted(s);
    }
  }

  /** The gaps: each is a third of the one before plus 1, rounded down, and the last is 1. */
  lemma {:induction false} GapSequence(n: int, k: nat)
    requires k < |Gaps(n)|
    ensures n > 1 && Gaps(n)[k] == (if k == 0 then n else Gaps(n)[k - 1]) / 3 + 1
    ensures Gaps(n)[k] == 1 <==> k == |Gaps(n)| - 1
    decreases n
  {
    var g := n / 3 + 1;
    assert Gaps(n) == [g] + Gaps(g);
    if k > 0 {
      GapSequence(g, k - 1);
    } else if g > 1 {
      assert |Gaps(g)| >= 1;
    }
  }

  /** In a trace, the array after any pass is in the order of every gap used so far. */
  lemma TraceInOrder(gaps: seq<int>, trace: seq<seq<int>>, k: nat, m: nat, i: nat, j: nat)
    requires PassTrace(gaps, trace) && k < m < |trace|
    requires i < j < |trace[m]| && j == i + gaps[k]
    ensures gaps[k] >= 1 && trace[m][i] <= trace[m][j]
  {
    assert GapSorted(trace[m], gaps[k]);
  }

  /** The function `shellsort` on the global array. */
  method Sort(arr: array<int>) returns (ghost trace: seq<seq<int>>)
    requires arr.Length >= 1
    modifies arr
    ensures Sorted(arr[..])
    ensures multiset(arr[..]) == multiset(old(arr[..]))
    ensures PassTrace(Gaps(arr.Length), trace)
    ensures trace[0] == old(arr[..]) && trace[|trace| - 1] == arr[..]
  {
    var gap := arr.Length;
    ghost var first, now, done: seq<int> := arr[..], arr[..], [];
    trace := [first];
    RunStarts(first);
    while gap > 1
      invariant 1 <= gap <= arr.Length && now == arr[..]
      invariant Reached(arr.Length, gap, done, trace, first, now)
      decreases gap
    {
      ghost var larger, before := gap, now;
      gap := gap / 3 + 1;
      InsertionPass(arr, gap);
      now := arr[..];
      OneMorePass(arr.Length, larger, done, trace, first, before, now);
      done, trace := done + [gap], trace + [now];
    }
    RunEnds(arr.Length, gap, done, trace, first, now);
  }

  /** The whole script.  On an empty line `shellsort ${arr} ${#arr[@]}` passes the length as the
      only argument, which becomes the first element; the gap is then empty and no pass runs. */
  method Script(words: seq<int>) returns (output: seq<int>)
    ensures multiset(output) == multiset(words) <==> words != []
    ensures Sorted(output)
    ensures words == [] ==> output == [0]
  {
    if |words| == 0 {
      return [0];
    }
    var arr := new int[|words|](k requires 0 <= k < |words| => words[k]);
    assert arr[..] == words;
    ghost var trace := Sort(arr);
    return arr[..];
  }
}
