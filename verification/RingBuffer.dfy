/** The producer and the consumer of mycp.c, which share buf[64] without a mutex.

    Every statement between the two semaphore operations of a thread is an atomic step of its
    own, so the threads interleave in every way the scheduler could choose.  The capacity is a
    parameter n > 0; the program has n = CAPACITY. */
module RingBuffer {

  const CAPACITY := 64

  /** The statement a thread executes next. */
  datatype ProducerPc = PWait | PRand | PStore | PPrint | PIncrement | PModulo | PPost | PSleep
  datatype ConsumerPc = CWait | CRead | CPrint | CIncrement | CModulo | CPost

  /** The shared variables, both threads' locals and what has happened so far: `drawn` lists the
      random values, `produced` and `consumed` the values stored to and read from buf, `shownP` and
      `shownC` the values the two threads have printed.  `fault` would say that a thread has used an
      index outside buf. */
  datatype State = State(
    buf: seq<int>, blacksem: int, datasem: int,
    ppc: ProducerPc, pstep: int, pdata: int,
    cpc: ConsumerPc, cstep: int, cdata: int,
    drawn: seq<int>, produced: seq<int>, consumed: seq<int>, shownP: seq<int>, shownC: seq<int>,
    fault: bool)

  /** The scheduler's choice.  `random` is what rand() returns if that is the statement. */
  datatype Turn = Producer(random: nat) | Consumer

  function Initial(n: nat): State {
    State(seq(n, _ => 0), n, 0, PWait, 0, 0, CWait, 0, 0, [], [], [], [], [], false)
  }

  predicate InBounds(s: State) {
    && (s.ppc.PStore? ==> 0 <= s.pstep < |s.buf|)
    && (s.cpc.CRead? ==> 0 <= s.cstep < |s.buf|)
  }

  /** A thread cannot move while it waits for a semaphore that is 0. */
  predicate Enabled(s: State, t: Turn) {
    if t.Producer? then s.ppc.PWait? ==> s.blacksem > 0 else s.cpc.CWait? ==> s.datasem > 0
  }

  function ProducerStep(n: nat, s: State, random: nat): State
    requires n > 0
  {
    match s.ppc
    case PWait => if s.blacksem > 0 then s.(blacksem := s.blacksem - 1, ppc := PRand) else s
    case PRand => s.(pdata := random % 1234, drawn := s.drawn + [random % 1234], ppc := PStore)
    case PStore =>
      if 0 <= s.pstep < |s.buf|
      then s.(buf := s.buf[s.pstep := s.pdata], produced := s.produced + [s.pdata], ppc := PPrint)
      else s.(fault := true)
    case PPrint => s.(shownP := s.shownP + [s.pdata], ppc := PIncrement)
    case PIncrement => s.(pstep := s.pstep + 1, ppc := PModulo)
    case PModulo => s.(pstep := s.pstep % n, ppc := PPost)
    case PPost => s.(datasem := s.datasem + 1, ppc := PSleep)
    case PSleep => s.(ppc := PWait)
  }

  function ConsumerStep(n: nat, s: State): State
    requires n > 0
  {
    match s.cpc
    case CWait => if s.datasem > 0 then s.(datasem := s.datasem - 1, cpc := CRead) else s
    case CRead =>
      if 0 <= s.cstep < |s.buf|
      then s.(cdata := s.buf[s.cstep], consumed := s.consumed + [s.buf[s.cstep]], cpc := CPrint)
      else s.(fault := true)
    case CPrint => s.(shownC := s.shownC + [s.cdata], cpc := CIncrement)
    case CIncrement => s.(cstep := s.cstep + 1, cpc := CModulo)
    case CModulo => s.(cstep := s.cstep % n, cpc := CPost)
    case CPost => s.(blacksem := s.blacksem + 1, cpc := CWait)
  }

  function Step(n: nat, s: State, t: Turn): State
    requires n > 0
  {
    if t.Producer? then ProducerStep(n, s, t.random) else ConsumerStep(n, s)
  }

  /** The state after the given turns, from the start of the program. */
  function Run(n: nat, turns: seq<Turn>): State
    requires n > 0
  {
    if turns == [] then Initial(n) else Step(n, Run(n, turns[..|turns| - 1]), turns[|turns| - 1])
  }

  // ---------------------------------------------------------------- sections and slots

  /** Between its sem_wait and its sem_post. */
  predicate ProducerInside(s: State) { !s.ppc.PWait? && !s.ppc.PSleep? }
  predicate ConsumerInside(s: State) { !s.cpc.CWait? }

  /** Has stored (read) the value of this round but not yet posted. */
  predicate Stored(s: State) { s.ppc.PPrint? || s.ppc.PIncrement? || s.ppc.PModulo? || s.ppc.PPost? }
  predicate Fetched(s: State) { ConsumerInside(s) && !s.cpc.CRead? }

  function One(b: bool): int { if b then 1 else 0 }

  /** The slot used in round k: k modulo n. */
  function Slot(n: nat, k: nat): (r: nat)
    requires n > 0
    ensures r < n
  {
    if k < n then k else Slot(n, k - n)
  }

  function Before(n: nat, slot: int): int { if slot == 0 then n - 1 else slot - 1 }

  /** The slot of this round of the producer: what `step` was when the round began. */
  function ProducerSlot(n: nat, s: State): int
    requires n > 0
  {
    if s.ppc.PModulo? then s.pstep - 1 else if s.ppc.PPost? then Before(n, s.pstep) else s.pstep
  }

  function ConsumerSlot(n: nat, s: State): int
    requires n > 0
  {
    if s.cpc.CModulo? then s.cstep - 1 else if s.cpc.CPost? then Before(n, s.cstep) else s.cstep
  }

  /** The rounds the two threads are in. */
  ghost function WriteRound(s: State): int { |s.produced| - One(Stored(s)) }
  ghost function ReadRound(s: State): int { |s.consumed| - One(Fetched(s)) }

  // ---------------------------------------------------------------- the invariant

  /** The values of both semaphores, from how far the threads have come. */
  ghost predicate Counts(n: nat, s: State) {
    && 0 <= WriteRound(s) && 0 <= ReadRound(s)
    && s.datasem == WriteRound(s) - ReadRound(s) - One(ConsumerInside(s)) >= 0
    && s.blacksem == n - One(ProducerInside(s)) - WriteRound(s) + ReadRound(s) >= 0
  }

  /** `step` after a given number of rounds, at each statement. */
  ghost predicate StepIs(n: nat, step: int, rounds: int, incremented: bool)
    requires n > 0
  {
    rounds >= 0 && step == Slot(n, rounds) + One(incremented)
  }

  ghost predicate ProducerIndex(n: nat, s: State)
    requires n > 0
  {
    StepIs(n, s.pstep, |s.produced| - One(Stored(s) && !s.ppc.PPost?), s.ppc.PModulo?)
  }

  ghost predicate ConsumerIndex(n: nat, s: State)
    requires n > 0
  {
    StepIs(n, s.cstep, |s.consumed| - One(Fetched(s) && !s.cpc.CPost?), s.cpc.CModulo?)
  }

  ghost predicate Steps(n: nat, s: State)
    requires n > 0
  {
    ProducerIndex(n, s) && ConsumerIndex(n, s)
  }

  /** Every value not yet read still lies in the slot it was stored to. */
  ghost predicate Unread(n: nat, s: State)
    requires n > 0
  {
    && |s.buf| == n
    && forall k :: |s.consumed| <= k < |s.produced| ==> s.buf[Slot(n, k)] == s.produced[k]
  }

  ghost predicate Histories(s: State) {
    && s.consumed <= s.produced
    && s.produced + (if s.ppc.PStore? then [s.pdata] else []) == s.drawn
    && s.shownP + (if s.ppc.PPrint? then [s.pdata] else []) == s.produced
    && s.shownC + (if s.cpc.CPrint? then [s.cdata] else []) == s.consumed
  }

  ghost predicate Invariant(n: nat, s: State)
    requires n > 0
  {
    Counts(n, s) && Steps(n, s) && Unread(n, s) && Histories(s) && InBounds(s) && !s.fault
  }

  /** Rounds less than n apart use different slots. */
  lemma {:induction false} SlotsDistinct(n: nat, i: nat, j: nat)
    requires n > 0 && i < j < i + n
    ensures Slot(n, i) != Slot(n, j)
  {
    if i >= n {
      SlotsDistinct(n, i - n, j - n);
    }
  }

  lemma {:induction false} NextSlot(n: nat, k: nat)
    requires n > 0
    ensures Slot(n, k + 1) == if Slot(n, k) + 1 == n then 0 else Slot(n, k) + 1
  {
    if k >= n {
      NextSlot(n, k - n);
    } else if k == n - 1 {
      assert Slot(n, n) == 0;
    }
  }

  /** What step++; step%=n computes. */
  lemma Advance(n: nat, k: nat)
    requires n > 0
    ensures (Slot(n, k) + 1) % n == Slot(n, k + 1)
  {
    NextSlot(n, k);
  }

  lemma ProducerAdvances(n: nat, s: State, random: nat)
    requires n > 0 && InBounds(s) && ProducerIndex(n, s)
    ensures ProducerIndex(n, ProducerStep(n, s, random))
  {
    var s' := ProducerStep(n, s, random);
    if s.ppc.PModulo? {
      Advance(n, |s.produced| - 1);
    } else {
      assert s.ppc.PIncrement? || s'.pstep == s.pstep;
    }
  }

  lemma ProducerKeepsSteps(n: nat, s: State, random: nat)
    requires n > 0 && InBounds(s) && Steps(n, s)
    ensures Steps(n, ProducerStep(n, s, random))
  {
    ProducerAdvances(n, s, random);
    var s' := ProducerStep(n, s, random);
    assert s'.cpc == s.cpc && s'.cstep == s.cstep && s'.consumed == s.consumed;
  }

  lemma ConsumerAdvances(n: nat, s: State)
    requires n > 0 && InBounds(s) && ConsumerIndex(n, s)
    ensures ConsumerIndex(n, ConsumerStep(n, s))
  {
    var s' := ConsumerStep(n, s);
    if s.cpc.CModulo? {
      Advance(n, |s.consumed| - 1);
    } else {
      assert s.cpc.CIncrement? || s'.cstep == s.cstep;
    }
  }

  lemma ConsumerKeepsSteps(n: nat, s: State)
    requires n > 0 && InBounds(s) && Steps(n, s)
    ensures Steps(n, ConsumerStep(n, s))
  {
    ConsumerAdvances(n, s);
    var s' := ConsumerStep(n, s);
    assert s'.ppc == s.ppc && s'.pstep == s.pstep && s'.produced == s.produced;
  }

  lemma ProducerKeepsUnread(n: nat, s: State, random: nat)
    requires n > 0 && InBounds(s) && Counts(n, s) && Steps(n, s) && Unread(n, s)
    ensures Unread(n, ProducerStep(n, s, random))
  {
    var p := |s.produced|;
    if s.ppc.PStore? {
      forall k | |s.consumed| <= k < p ensures Slot(n, k) != s.pstep {
        SlotsDistinct(n, k, p);
      }
    }
  }

  lemma ProducerKeepsCounts(n: nat, s: State, random: nat)
    requires n > 0 && InBounds(s) && Counts(n, s)
    ensures Counts(n, ProducerStep(n, s, random))
  {}

  lemma ConsumerKeepsCounts(n: nat, s: State)
    requires n > 0 && InBounds(s) && Counts(n, s)
    ensures Counts(n, ConsumerStep(n, s))
  {}

  lemma ProducerKeepsHistories(n: nat, s: State, random: nat)
    requires n > 0 && InBounds(s) && Histories(s)
    ensures Histories(ProducerStep(n, s, random))
  {}

  lemma ConsumerKeepsHistories(n: nat, s: State)
    requires n > 0 && InBounds(s) && Counts(n, s) && Steps(n, s) && Unread(n, s) && Histories(s)
    ensures Histories(ConsumerStep(n, s))
  {
    if s.cpc.CRead? {
      assert s.buf[Slot(n, |s.consumed|)] == s.produced[|s.consumed|];
    }
  }

  lemma InvariantInBounds(n: nat, s: State)
    requires n > 0 && Steps(n, s) && Unread(n, s)
    ensures InBounds(s)
  {}

  lemma ProducerKeepsInvariant(n: nat, s: State, random: nat)
    requires n > 0 && Invariant(n, s)
    ensures Invariant(n, ProducerStep(n, s, random))
  {
    ProducerKeepsCounts(n, s, random);
    ProducerKeepsSteps(n, s, random);
    ProducerKeepsUnread(n, s, random);
    ProducerKeepsHistories(n, s, random);
    InvariantInBounds(n, ProducerStep(n, s, random));
  }

  lemma ConsumerKeepsUnread(n: nat, s: State)
    requires n > 0 && InBounds(s) && Unread(n, s)
    ensures Unread(n, ConsumerStep(n, s))
  {}

  lemma ConsumerKeepsInvariant(n: nat, s: State)
    requires n > 0 && Invariant(n, s)
    ensures Invariant(n, ConsumerStep(n, s))
  {
    ConsumerKeepsCounts(n, s);
    ConsumerKeepsSteps(n, s);
    ConsumerKeepsUnread(n, s);
    ConsumerKeepsHistories(n, s);
    InvariantInBounds(n, ConsumerStep(n, s));
  }

  lemma StepKeepsInvariant(n: nat, s: State, t: Turn)
    requires n > 0 && Invariant(n, s)
    ensures Invariant(n, Step(n, s, t))
  {
    if t.Producer? {
      ProducerKeepsInvariant(n, s, t.random);
    } else {
      ConsumerKeepsInvariant(n, s);
    }
  }

  lemma {:induction false} RunKeepsInvariant(n: nat, turns: seq<Turn>)
    requires n > 0
    ensures Invariant(n, Run(n, turns))
  {
    if turns != [] {
      RunKeepsInvariant(n, turns[..|turns| - 1]);
      StepKeepsInvariant(n, Run(n, turns[..|turns| - 1]), turns[|turns| - 1]);
    }
  }

  // ---------------------------------------------------------------- safety in every run

  /** No thread ever uses an index outside the buffer. */
  lemma NoFault(n: nat, turns: seq<Turn>)
    requires n > 0
    ensures !Run(n, turns).fault && InBounds(Run(n, turns)) && |Run(n, turns).buf| == n
  {
    RunKeepsInvariant(n, turns);
  }

  /** No random value is lost, duplicated, reordered or overwritten before it is read, the producer is
      never more than n values ahead, and no value is shown as consumed before it is shown as
      produced. */
  lemma FirstInFirstOut(n: nat, turns: seq<Turn>)
    requires n > 0
    ensures var s := Run(n, turns);
      && s.consumed <= s.produced <= s.drawn && s.shownC <= s.shownP
      && |s.produced| - |s.consumed| <= n
      && |s.buf| == n
      && forall k :: |s.consumed| <= k < |s.produced| ==> s.buf[Slot(n, k)] == s.produced[k]
  {
    var s := Run(n, turns);
    RunKeepsInvariant(n, turns);
    assert s.shownP == s.produced[..|s.shownP|];
    assert s.shownC == s.consumed[..|s.shownC|];
  }

  lemma ProducerSlotOfRound(n: nat, s: State)
    requires n > 0 && Steps(n, s) && WriteRound(s) >= 0
    ensures ProducerSlot(n, s) == Slot(n, WriteRound(s))
  {
    if s.ppc.PPost? { NextSlot(n, |s.produced| - 1); }
  }

  lemma ConsumerSlotOfRound(n: nat, s: State)
    requires n > 0 && Steps(n, s) && ReadRound(s) >= 0
    ensures ConsumerSlot(n, s) == Slot(n, ReadRound(s))
  {
    if s.cpc.CPost? { NextSlot(n, |s.consumed| - 1); }
  }

  lemma DifferentSlots(n: nat, s: State)
    requires n > 0 && Counts(n, s) && Steps(n, s)
    requires ProducerInside(s) && ConsumerInside(s)
    ensures ProducerSlot(n, s) != ConsumerSlot(n, s)
  {
    ProducerSlotOfRound(n, s);
    ConsumerSlotOfRound(n, s);
    SlotsDistinct(n, ReadRound(s), WriteRound(s));
  }

  /** While both threads are in their sections they work on different slots. */
  lemma NoRace(n: nat, turns: seq<Turn>)
    requires n > 0
    ensures var s := Run(n, turns);
      ProducerInside(s) && ConsumerInside(s) ==> ProducerSlot(n, s) != ConsumerSlot(n, s)
  {
    var s := Run(n, turns);
    RunKeepsInvariant(n, turns);
    if ProducerInside(s) && ConsumerInside(s) {
      DifferentSlots(n, s);
    }
  }

  lemma TokensConserved(n: nat, turns: seq<Turn>)
    requires n > 0
    ensures var s := Run(n, turns);
      && s.blacksem >= 0 && s.datasem >= 0
      && s.blacksem + s.datasem + One(ProducerInside(s)) + One(ConsumerInside(s)) == n
  {
    RunKeepsInvariant(n, turns);
  }

  /** A thread that does not wait for a semaphore at 0 goes on to the next statement of its loop; one
      that does stays where it is. */
  lemma ThreadsGoOn(n: nat, s: State, random: nat)
    requires n > 0 && InBounds(s)
    ensures var s' := Step(n, s, Producer(random));
      && (s.ppc.PWait? ==> if s.blacksem > 0 then s'.ppc.PRand? && s'.blacksem == s.blacksem - 1 else s' == s)
      && (s.ppc.PRand? ==> s'.ppc.PStore?) && (s.ppc.PStore? ==> s'.ppc.PPrint?)
      && (s.ppc.PPrint? ==> s'.ppc.PIncrement?) && (s.ppc.PIncrement? ==> s'.ppc.PModulo?)
      && (s.ppc.PModulo? ==> s'.ppc.PPost?) && (s.ppc.PPost? ==> s'.ppc.PSleep? && s'.datasem == s.datasem + 1)
      && (s.ppc.PSleep? ==> s'.ppc.PWait?)
      && s'.cpc == s.cpc && s'.cstep == s.cstep && s'.cdata == s.cdata
    ensures var s' := Step(n, s, Consumer);
      && (s.cpc.CWait? ==> if s.datasem > 0 then s'.cpc.CRead? && s'.datasem == s.datasem - 1 else s' == s)
      && (s.cpc.CRead? ==> s'.cpc.CPrint?) && (s.cpc.CPrint? ==> s'.cpc.CIncrement?)
      && (s.cpc.CIncrement? ==> s'.cpc.CModulo?) && (s.cpc.CModulo? ==> s'.cpc.CPost?)
      && (s.cpc.CPost? ==> s'.cpc.CWait? && s'.blacksem == s.blacksem + 1)
      && s'.ppc == s.ppc && s'.pstep == s.pstep && s'.pdata == s.pdata && s'.buf == s.buf
  {}

  /** The turn takes its thread to another statement. */
  predicate Moves(n: nat, s: State, t: Turn)
    requires n > 0
  {
    if t.Producer? then Step(n, s, t).ppc != s.ppc else Step(n, s, t).cpc != s.cpc
  }

  /** The two threads are never both blocked: one of them can move, and does in its next turn. */
  lemma NoDeadlock(n: nat, turns: seq<Turn>, random: nat)
    requires n > 0
    ensures var s := Run(n, turns);
      || (Enabled(s, Producer(random)) && Step(n, s, Producer(random)).ppc != s.ppc)
      || (Enabled(s, Consumer) && Step(n, s, Consumer).cpc != s.cpc)
  {
    TokensConserved(n, turns);
    NoFault(n, turns);
    ThreadsGoOn(n, Run(n, turns), random);
  }

  // ---------------------------------------------------------------- refinement of a queue

  function FirstUnread(s: State): int { s.cstep + One(s.cpc.CPrint? || s.cpc.CIncrement?) }

  /** What lies in the buffer, as the semaphores and the reader's position tell. */
  ghost function Queue(n: nat, s: State): seq<int>
    requires n > 0 && Invariant(n, s)
  {
    seq(s.datasem + One(Stored(s)) + One(s.cpc.CRead?), k requires k >= 0 => s.buf[Slot(n, FirstUnread(s) + k)])
  }

  lemma {:induction false} SlotAdd(n: nat, a: nat, b: nat)
    requires n > 0
    ensures Slot(n, Slot(n, a) + b) == Slot(n, a + b)
  {
    if a >= n {
      SlotAdd(n, a - n, b);
    }
  }

  lemma QueueElement(n: nat, s: State, k: nat)
    requires n > 0 && Steps(n, s) && Unread(n, s) && |s.consumed| + k < |s.produced|
    ensures s.cstep >= 0
    ensures s.buf[Slot(n, FirstUnread(s) + k)] == s.produced[|s.consumed| + k]
  {
    var inc := One(s.cpc.CPrint? || s.cpc.CIncrement? || s.cpc.CModulo?);
    SlotAdd(n, |s.consumed| - inc, inc + k);
  }

  lemma QueueLength(n: nat, s: State)
    requires n > 0 && Invariant(n, s)
    ensures |Queue(n, s)| == |s.produced| - |s.consumed|
    ensures s.ppc.PStore? ==> |Queue(n, s)| < n
  {
    assert Counts(n, s);
  }

  lemma QueueElements(n: nat, s: State, queue: seq<int>)
    requires n > 0 && Steps(n, s) && Unread(n, s) && s.consumed <= s.produced
    requires |queue| == |s.produced| - |s.consumed| && (queue != [] ==> FirstUnread(s) >= 0)
    requires forall k :: 0 <= k < |queue| ==> queue[k] == s.buf[Slot(n, FirstUnread(s) + k)]
    ensures queue == s.produced[|s.consumed|..]
  {
    var unread := s.produced[|s.consumed|..];
    forall k | 0 <= k < |queue| ensures queue[k] == unread[k] {
      QueueElement(n, s, k);
    }
  }

  lemma QueueIsUnread(n: nat, s: State)
    requires n > 0 && Invariant(n, s)
    ensures s.consumed <= s.produced && Queue(n, s) == s.produced[|s.consumed|..]
    ensures s.ppc.PStore? ==> |Queue(n, s)| < n
  {
    assert s.consumed <= s.produced by { assert Histories(s); }
    QueueLength(n, s);
    QueueElements(n, s, Queue(n, s));
  }

  lemma HistoryAfter(n: nat, s: State, t: Turn)
    requires n > 0 && InBounds(s)
    ensures Step(n, s, t).produced == s.produced + if t.Producer? && s.ppc.PStore? then [s.pdata] else []
    ensures Step(n, s, t).consumed ==
            s.consumed + if t.Consumer? && s.cpc.CRead? then [Step(n, s, t).cdata] else []
  {}

  lemma SuffixAfter(p: seq<int>, c: seq<int>, stored: seq<int>, read: seq<int>)
    requires c <= p && c + read <= p + stored
    ensures p[|c|..] + stored == read + (p + stored)[|c + read|..]
  {
    var all := p + stored;
    assert all[|c|..] == p[|c|..] + stored;
    assert all[|c|..][..|read|] == (c + read)[|c|..] == read;
    assert all[|c|..] == all[|c|..][..|read|] + all[|c|..][|read|..];
    assert all[|c|..][|read|..] == all[|c + read|..];
  }

  /** What a turn of either thread may do to a FIFO queue of at most n values. */
  ghost predicate QueueStep(n: nat, s: State, t: Turn, s': State)
    requires n > 0 && Invariant(n, s) && Invariant(n, s')
  {
    var q, q' := Queue(n, s), Queue(n, s');
    if t.Producer? && s.ppc.PStore? then |q| < n && q' == q + [s.pdata]
    else if t.Consumer? && s.cpc.CRead? then q == [s'.cdata] + q'
    else q' == q
  }

  lemma QueueFollowsHistory(n: nat, s: State, t: Turn, s': State)
    requires n > 0 && Invariant(n, s) && Invariant(n, s')
    requires s'.produced == s.produced + if t.Producer? && s.ppc.PStore? then [s.pdata] else []
    requires s'.consumed == s.consumed + if t.Consumer? && s.cpc.CRead? then [s'.cdata] else []
    ensures QueueStep(n, s, t, s')
  {
    QueueIsUnread(n, s);
    QueueIsUnread(n, s');
    var stored := if t.Producer? && s.ppc.PStore? then [s.pdata] else [];
    var read := if t.Consumer? && s.cpc.CRead? then [s'.cdata] else [];
    SuffixAfter(s.produced, s.consumed, stored, read);
  }

  lemma RunExtends(n: nat, turns: seq<Turn>, t: Turn)
    requires n > 0
    ensures Run(n, turns + [t]) == Step(n, Run(n, turns), t)
  {
    assert (turns + [t])[..|turns|] == turns;
  }

  /** The buffer is a FIFO queue of at most n values: storing enqueues, reading dequeues, and no
      other statement of either thread changes the queue. */
  lemma RefinesBoundedQueue(n: nat, turns: seq<Turn>, t: Turn)
    requires n > 0
    ensures Invariant(n, Run(n, turns)) && Invariant(n, Run(n, turns + [t]))
    ensures QueueStep(n, Run(n, turns), t, Run(n, turns + [t]))
  {
    RunKeepsInvariant(n, turns);
    RunKeepsInvariant(n, turns + [t]);
    RunExtends(n, turns, t);
    HistoryAfter(n, Run(n, turns), t);
    QueueFollowsHistory(n, Run(n, turns), t, Run(n, turns + [t]));
  }

  // ---------------------------------------------------------------- progress

  /** A thread that waits would move with turn t at some point of the given turns. */
  ghost predicate EnabledDuring(n: nat, s: State, t: Turn, turns: seq<Turn>)
    requires n > 0
    decreases |turns|
  {
    (Enabled(s, t) && Moves(n, s, t)) || (turns != [] && EnabledDuring(n, Step(n, s, turns[0]), t, turns[1..]))
  }

  function ConsumerTurns(turns: seq<Turn>): (k: nat)
    ensures k <= |turns|
  {
    if turns == [] then 0 else One(turns[0].Consumer?) + ConsumerTurns(turns[1..])
  }

  function ConsumerDistance(pc: ConsumerPc): nat {
    match pc
    case CWait => 6 case CRead => 5 case CPrint => 4 case CIncrement => 3 case CModulo => 2 case CPost => 1
  }

  function ProducerDistance(pc: ProducerPc): nat {
    match pc
    case PSleep => 8 case PWait => 7 case PRand => 6 case PStore => 5
    case PPrint => 4 case PIncrement => 3 case PModulo => 2 case PPost => 1
  }

  lemma ConsumerApproaches(n: nat, s: State, random: nat, t: Turn)
    requires n > 0 && Counts(n, s) && InBounds(s) && !Enabled(s, Producer(random))
    ensures var s' := Step(n, s, t);
      Enabled(s', Producer(random)) || ConsumerDistance(s'.cpc) <= ConsumerDistance(s.cpc) - One(t.Consumer?)
  {}

  lemma ProducerApproaches(n: nat, s: State, t: Turn)
    requires n > 0 && Counts(n, s) && InBounds(s) && !Enabled(s, Consumer)
    ensures var s' := Step(n, s, t);
      Enabled(s', Consumer) || ProducerDistance(s'.ppc) <= ProducerDistance(s.ppc) - One(t.Producer?)
  {}

  /** A blocked producer is released within six turns of the consumer, ... */
  lemma {:induction false} ProducerReleased(n: nat, s: State, random: nat, turns: seq<Turn>)
    requires n > 0 && Invariant(n, s)
    requires ConsumerTurns(turns) >= ConsumerDistance(s.cpc)
    ensures EnabledDuring(n, s, Producer(random), turns)
    decreases |turns|
  {
    ThreadsGoOn(n, s, random);
    if !Enabled(s, Producer(random)) {
      StepKeepsInvariant(n, s, turns[0]);
      ConsumerApproaches(n, s, random, turns[0]);
      if Enabled(Step(n, s, turns[0]), Producer(random)) {
        ThreadsGoOn(n, Step(n, s, turns[0]), random);
      } else {
        ProducerReleased(n, Step(n, s, turns[0]), random, turns[1..]);
      }
    }
  }

  /** ... and a blocked consumer within eight turns of the producer, whatever the order. */
  lemma {:induction false} ConsumerReleased(n: nat, s: State, turns: seq<Turn>)
    requires n > 0 && Invariant(n, s)
    requires |turns| - ConsumerTurns(turns) >= ProducerDistance(s.ppc)
    ensures EnabledDuring(n, s, Consumer, turns)
    decreases |turns|
  {
    ThreadsGoOn(n, s, 0);
    if !Enabled(s, Consumer) {
      StepKeepsInvariant(n, s, turns[0]);
      ProducerApproaches(n, s, turns[0]);
      if Enabled(Step(n, s, turns[0]), Consumer) {
        ThreadsGoOn(n, Step(n, s, turns[0]), 0);
      } else {
        ConsumerReleased(n, Step(n, s, turns[0]), turns[1..]);
      }
    }
  }

  lemma BlockedThreadsAreReleased(n: nat, turns: seq<Turn>, more: seq<Turn>, random: nat)
    requires n > 0
    ensures ConsumerTurns(more) >= 6 ==> EnabledDuring(n, Run(n, turns), Producer(random), more)
    ensures |more| - ConsumerTurns(more) >= 8 ==> EnabledDuring(n, Run(n, turns), Consumer, more)
  {
    var s := Run(n, turns);
    RunKeepsInvariant(n, turns);
    if ConsumerTurns(more) >= 6 {
      ProducerReleased(n, s, random, more);
    }
    if |more| - ConsumerTurns(more) >= 8 {
      ConsumerReleased(n, s, more);
    }
  }

  // ---------------------------------------------------------------- every value comes through

  /** How many statements a thread has executed since the start: its rounds, and its place in the
      current one. */
  ghost function ProducerWork(s: State): int {
    8 * (WriteRound(s) - One(s.ppc.PSleep?)) + (7 - if s.ppc.PSleep? then 0 else ProducerDistance(s.ppc))
  }

  ghost function ConsumerWork(s: State): int { 6 * ReadRound(s) + (6 - ConsumerDistance(s.cpc)) }

  /** Each turn of a thread is one statement, unless the consumer has caught up with what is posted
      or the producer has filled what is free. */
  lemma TurnIsWork(n: nat, s: State, t: Turn)
    requires n > 0 && Counts(n, s) && InBounds(s)
    ensures var s' := Step(n, s, t);
      && WriteRound(s') >= WriteRound(s) && ReadRound(s') >= ReadRound(s)
      && (ConsumerWork(s) < 6 * WriteRound(s) ==> ConsumerWork(s') == ConsumerWork(s) + One(t.Consumer?))
      && (ProducerWork(s) < 8 * (ReadRound(s) + n) ==> ProducerWork(s') == ProducerWork(s) + One(t.Producer?))
      && ConsumerWork(s') >= ConsumerWork(s) && ProducerWork(s') >= ProducerWork(s)
  {}

  lemma {:induction false} TurnsConcat(a: seq<Turn>, t: Turn)
    ensures ConsumerTurns(a + [t]) == ConsumerTurns(a) + One(t.Consumer?)
  {
    if a == [] {
      assert [t][1..] == [];
    } else {
      assert (a + [t])[1..] == a[1..] + [t];
      TurnsConcat(a[1..], t);
    }
  }

  /** In any schedule the threads work off what is posted and what is free. */
  lemma {:induction false} WorkIsDone(n: nat, turns: seq<Turn>, more: seq<Turn>, c: int, p: int)
    requires n > 0
    requires c <= 6 * WriteRound(Run(n, turns)) && p <= 8 * (ReadRound(Run(n, turns)) + n)
    requires c <= ConsumerWork(Run(n, turns)) + ConsumerTurns(more)
    requires p <= ProducerWork(Run(n, turns)) + |more| - ConsumerTurns(more)
    ensures var s, s' := Run(n, turns), Run(n, turns + more);
      && WriteRound(s') >= WriteRound(s) && ReadRound(s') >= ReadRound(s)
      && ConsumerWork(s') >= c && ProducerWork(s') >= p
    decreases |more|
  {
    var s := Run(n, turns);
    if more == [] {
      assert turns + more == turns;
    } else {
      var before, t := more[..|more| - 1], more[|more| - 1];
      assert more == before + [t] && turns + more == (turns + before) + [t];
      TurnsConcat(before, t);
      WorkIsDone(n, turns, before, c - One(t.Consumer?), p - One(t.Producer?));
      RunKeepsInvariant(n, turns + before);
      RunExtends(n, turns + before, t);
      TurnIsWork(n, Run(n, turns + before), t);
    }
  }

  lemma WorkShows(n: nat, turns: seq<Turn>)
    requires n > 0
    ensures var s := Run(n, turns);
      && 6 * |s.shownC| - 3 <= ConsumerWork(s) < 6 * |s.shownC| + 3
      && 8 * |s.shownP| - 4 <= ProducerWork(s) < 8 * |s.shownP| + 4
      && s.shownC <= s.consumed <= s.produced && s.shownP <= s.produced
  {
    var s := Run(n, turns);
    RunKeepsInvariant(n, turns);
    assert |s.shownC| == |s.consumed| - One(s.cpc.CPrint?) && |s.shownP| == |s.produced| - One(s.ppc.PPrint?);
    assert s.shownC == s.consumed[..|s.shownC|] && s.shownP == s.produced[..|s.shownP|];
  }

  lemma {:induction false} ProducedGrows(n: nat, turns: seq<Turn>, more: seq<Turn>)
    requires n > 0
    ensures Run(n, turns).produced <= Run(n, turns + more).produced
    decreases |more|
  {
    if more == [] {
      assert turns + more == turns;
    } else {
      var before, t := more[..|more| - 1], more[|more| - 1];
      assert more == before + [t] && turns + more == (turns + before) + [t];
      ProducedGrows(n, turns, before);
      RunExtends(n, turns + before, t);
      NoFault(n, turns + before);
      HistoryAfter(n, Run(n, turns + before), t);
    }
  }

  lemma PostedIsShown(n: nat, turns: seq<Turn>, more: seq<Turn>, k: nat)
    requires n > 0 && k < WriteRound(Run(n, turns))
    requires ConsumerTurns(more) >= 6 * (k + 1 - |Run(n, turns).shownC|)
    ensures |Run(n, turns + more).shownC| > k
  {
    WorkShows(n, turns);
    WorkShows(n, turns + more);
    RunKeepsInvariant(n, turns);
    WorkIsDone(n, turns, more, 6 * k + 3, 0);
  }

  lemma SameElement(a: seq<int>, b: seq<int>, c: seq<int>, k: nat)
    requires a <= c && b <= c && k < |a| && k < |b|
    ensures a[k] == b[k]
  {
    assert a[k] == c[k] && b[k] == c[k];
  }

  /** A value that has been posted is printed by the consumer at the latest in its sixth turn for each
      value up to it, whatever the schedule. */
  lemma ValueIsConsumed(n: nat, turns: seq<Turn>, more: seq<Turn>, k: nat)
    requires n > 0
    requires var s := Run(n, turns);
      && k < |s.produced|
      && (k == |s.produced| - 1 ==> s.ppc.PSleep? || s.ppc.PWait? || s.ppc.PRand? || s.ppc.PStore?)
      && ConsumerTurns(more) >= 6 * (k + 1 - |s.shownC|)
    ensures var s, s' := Run(n, turns), Run(n, turns + more);
      |s'.shownC| > k && s'.shownC[k] == s.produced[k]
  {
    var s, s' := Run(n, turns), Run(n, turns + more);
    PostedIsShown(n, turns, more, k);
    WorkShows(n, turns + more);
    ProducedGrows(n, turns, more);
    SameElement(s.produced, s'.shownC, s'.produced, k);
  }

  /** While fewer than n values are unread, the producer prints one more at the latest in its eighth
      turn, whatever the schedule. */
  lemma ValueIsProduced(n: nat, turns: seq<Turn>, more: seq<Turn>)
    requires n > 0
    requires var s := Run(n, turns);
      && |s.shownP| < |s.consumed| + n && (|s.shownP| == |s.consumed| + n - 1 ==> s.cpc.CWait? || s.cpc.CRead?)
    requires |more| - ConsumerTurns(more) >= 8
    ensures var s, s' := Run(n, turns), Run(n, turns + more);
      |s'.shownP| > |s.shownP| && s.shownP <= s'.shownP
  {
    var s, s' := Run(n, turns), Run(n, turns + more);
    WorkShows(n, turns);
    WorkShows(n, turns + more);
    RunKeepsInvariant(n, turns);
    WorkIsDone(n, turns, more, 0, 8 * |s.shownP| + 4);
    ProducedGrows(n, turns, more);
    assert s.shownP == s'.produced[..|s.shownP|] && s'.shownP == s'.produced[..|s'.shownP|];
  }

  /** The values are the remainders of the random ones modulo 1234. */
  ghost predicate Remainders(values: seq<int>, random: seq<nat>) {
    |values| == |random| &&
    forall i :: 0 <= i < |values| ==> 0 <= values[i] < 1234 && (random[i] - values[i]) % 1234 == 0
  }

  lemma OneMoreRemainder(values: seq<int>, random: seq<nat>, r: nat)
    requires Remainders(values, random)
    ensures Remainders(values + [r % 1234], random + [r])
  {
    assert (r - r % 1234) % 1234 == 0;
  }

  /** The random values of the turns in which the producer draws. */
  function Draws(n: nat, turns: seq<Turn>): seq<nat>
    requires n > 0
  {
    if turns == [] then []
    else
      var before, t := turns[..|turns| - 1], turns[|turns| - 1];
      Draws(n, before) + if t.Producer? && Run(n, before).ppc.PRand? then [t.random] else []
  }

  lemma {:induction false} DrawsLeaveRemainders(n: nat, turns: seq<Turn>)
    requires n > 0
    ensures Remainders(Run(n, turns).drawn, Draws(n, turns))
  {
    if turns != [] {
      var before, t := turns[..|turns| - 1], turns[|turns| - 1];
      var s := Run(n, before);
      DrawsLeaveRemainders(n, before);
      if t.Producer? && s.ppc.PRand? {
        OneMoreRemainder(s.drawn, Draws(n, before), t.random);
        assert Run(n, turns).drawn == s.drawn + [t.random % 1234];
      } else {
        assert Run(n, turns).drawn == s.drawn && Draws(n, turns) == Draws(n, before) + [];
      }
    }
  }

  /** The values drawn are the remainders of the random values modulo 1234. */
  lemma DrawnAreRemainders(n: nat, turns: seq<Turn>)
    requires n > 0
    ensures var drawn, random := Run(n, turns).drawn, Draws(n, turns);
      && |drawn| == |random|
      && forall i :: 0 <= i < |drawn| ==> 0 <= drawn[i] < 1234 && (random[i] - drawn[i]) % 1234 == 0
  {
    DrawsLeaveRemainders(n, turns);
  }

  // ---------------------------------------------------------------- the program

  /** The global buffer and semaphores with the two threads' positions. */
  class Program {
    const n: nat
    const buf: array<int>
    var blacksem: int
    var datasem: int
    var ppc: ProducerPc
    var pstep: int
    var pdata: int
    var cpc: ConsumerPc
    var cstep: int
    var cdata: int
    var shownP: seq<int>
    var shownC: seq<int>
    ghost var drawn: seq<int>
    ghost var produced: seq<int>
    ghost var consumed: seq<int>

    ghost function View(): State
      reads this, buf
    {
      State(buf[..], blacksem, datasem, ppc, pstep, pdata, cpc, cstep, cdata,
            drawn, produced, consumed, shownP, shownC, false)
    }

    ghost predicate Valid()
      reads this, buf
    {
      n > 0 && buf.Length == n
    }

    /** `main` up to the creation of the threads; buf is a zero-initialised global. */
    constructor (n: nat)
      requires n > 0
      ensures Valid() && fresh(buf) && this.n == n && View() == Run(n, [])
    {
      this.n, buf := n, new int[n](_ => 0);
      blacksem, datasem := n, 0;
      ppc, pstep, pdata := PWait, 0, 0;
      cpc, cstep, cdata := CWait, 0, 0;
      shownP, shownC, drawn, produced, consumed := [], [], [], [], [];
      new;
      assert View() == Initial(n);
    }

    /** The next statement of `product`. */
    method ProducerTurn(random: nat)
      requires Valid() && InBounds(View())
      modifies this, buf
      ensures Valid() && View() == Step(n, old(View()), Producer(random))
    {
      match ppc {
        case PWait => if blacksem > 0 { blacksem, ppc := blacksem - 1, PRand; }
        case PRand =>
          pdata, ppc := random % 1234, PStore;
          drawn := drawn + [pdata];
        case PStore =>
          buf[pstep], ppc := pdata, PPrint;
          produced := produced + [pdata];
        case PPrint => shownP, ppc := shownP + [pdata], PIncrement;
        case PIncrement => pstep, ppc := pstep + 1, PModulo;
        case PModulo => pstep, ppc := pstep % n, PPost;
        case PPost => datasem, ppc := datasem + 1, PSleep;
        case PSleep => ppc := PWait;
      }
    }

    /** The next statement of `consume`. */
    method ConsumerTurn()
      requires Valid() && InBounds(View())
      modifies this
      ensures Valid() && View() == Step(n, old(View()), Consumer)
    {
      match cpc {
        case CWait => if datasem > 0 { datasem, cpc := datasem - 1, CRead; }
        case CRead =>
          cdata, cpc := buf[cstep], CPrint;
          consumed := consumed + [cdata];
        case CPrint => shownC, cpc := shownC + [cdata], CIncrement;
        case CIncrement => cstep, cpc := cstep + 1, CModulo;
        case CModulo => cstep, cpc := cstep % n, CPost;
        case CPost => blacksem, cpc := blacksem + 1, CWait;
      }
    }
  }

  /** The program under an arbitrary scheduler: the consumer prints a prefix of what the producer
      prints, in every interleaving. */
  method Schedule(turns: seq<Turn>) returns (shownP: seq<int>, shownC: seq<int>)
    ensures shownP == Run(64, turns).shownP && shownC == Run(64, turns).shownC
    ensures shownC <= shownP
  {
    var p := new Program(CAPACITY);
    for i := 0 to |turns|
      invariant p.Valid() && fresh(p) && fresh(p.buf) && p.n == CAPACITY
      invariant p.View() == Run(CAPACITY, turns[..i])
    {
      NoFault(CAPACITY, turns[..i]);
      if turns[i].Producer? {
        p.ProducerTurn(turns[i].random);
      } else {
        p.ConsumerTurn();
      }
      assert turns[..i + 1][..i] == turns[..i];
    }
    assert turns[..|turns|] == turns;
    FirstInFirstOut(CAPACITY, turns);
    return p.shownP, p.shownC;
  }
}
