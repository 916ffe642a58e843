/** The producer and the consumer of listcp.c, which pass values through the heap list under a
    mutex and a condition variable.

    Every statement is an atomic step; pthread_cond_wait is two, giving up the lock and, after a
    wakeup, taking it again.  Wakeups may also be spurious. */
module Handoff {
  import HeapList

  datatype Thread = Producer | Consumer
  datatype Lock = Free | Held(owner: Thread)

  /** The statement a thread executes next.  In CAsleep the consumer sleeps on the condition
      variable; in CRelock it has been woken and is to take the lock again. */
  datatype ProducerPc = PLock | PRand | PPush | PPrint | PUnlock | PSignal | PSleep
  datatype ConsumerPc = CLock | CTest | CWait | CAsleep | CRelock | CPop | CPrint | CUnlock

  /** `drawn` lists the random values, `log` the list operations in the order in which they
      happened, `popped` the values that the consumer has taken. */
  datatype State = State(
    contents: seq<int>, lock: Lock,
    ppc: ProducerPc, pdata: int, cpc: ConsumerPc, cdata: int,
    drawn: seq<int>, log: seq<HeapList.Op>, popped: seq<int>)

  /** The scheduler's choice; `random` is what rand() returns if that is the statement. */
  datatype Turn = ProducerTurn(random: nat) | ConsumerTurn | SpuriousWakeup

  const INITIAL := State([], Free, PLock, 0, CLock, 0, [], [], [])

  predicate Enabled(s: State, t: Turn) {
    match t
    case ProducerTurn(_) => s.ppc.PLock? ==> s.lock.Free?
    case ConsumerTurn => !s.cpc.CAsleep? && (s.cpc.CLock? || s.cpc.CRelock? ==> s.lock.Free?)
    case SpuriousWakeup => s.cpc.CAsleep?
  }

  function ProducerStep(s: State, random: nat): State {
    match s.ppc
    case PLock => if s.lock.Free? then s.(lock := Held(Producer), ppc := PRand) else s
    case PRand => s.(pdata := random % 1234, drawn := s.drawn + [random % 1234], ppc := PPush)
    case PPush => s.(contents := [s.pdata] + s.contents, log := s.log + [HeapList.Push(s.pdata)], ppc := PPrint)
    case PPrint => s.(ppc := PUnlock)
    case PUnlock => s.(lock := Free, ppc := PSignal)
    case PSignal => s.(cpc := if s.cpc.CAsleep? then CRelock else s.cpc, ppc := PSleep)
    case PSleep => s.(ppc := PLock)
  }

  function ConsumerStep(s: State): State {
    match s.cpc
    case CLock => if s.lock.Free? then s.(lock := Held(Consumer), cpc := CTest) else s
    case CTest => s.(cpc := if s.contents == [] then CWait else CPop)
    case CWait => s.(lock := Free, cpc := CAsleep)
    case CAsleep => s
    case CRelock => if s.lock.Free? then s.(lock := Held(Consumer), cpc := CTest) else s
    case CPop =>
      if s.contents == [] then s.(log := s.log + [HeapList.Pop], cpc := CPrint)
      else s.(cdata := s.contents[0], contents := s.contents[1..], log := s.log + [HeapList.Pop],
              popped := s.popped + [s.contents[0]], cpc := CPrint)
    case CPrint => s.(cpc := CUnlock)
    case CUnlock => s.(lock := Free, cpc := CLock)
  }

  function Step(s: State, t: Turn): State {
    match t
    case ProducerTurn(random) => ProducerStep(s, random)
    case ConsumerTurn => ConsumerStep(s)
    case SpuriousWakeup => if s.cpc.CAsleep? then s.(cpc := CRelock) else s
  }

  /** The state after the given turns, from the start of the program. */
  function Run(turns: seq<Turn>): State {
    if turns == [] then INITIAL else Step(Run(turns[..|turns| - 1]), turns[|turns| - 1])
  }

  // ---------------------------------------------------------------- the invariant

  predicate ProducerInside(s: State) { s.ppc.PRand? || s.ppc.PPush? || s.ppc.PPrint? || s.ppc.PUnlock? }

  predicate ConsumerInside(s: State) {
    s.cpc.CTest? || s.cpc.CWait? || s.cpc.CPop? || s.cpc.CPrint? || s.cpc.CUnlock?
  }

  /** The producer has pushed but not yet signalled. */
  predicate SignalDue(s: State) { s.ppc.PPrint? || s.ppc.PUnlock? || s.ppc.PSignal? }

  ghost predicate Locking(s: State) {
    && (s.lock == Held(Producer) <==> ProducerInside(s))
    && (s.lock == Held(Consumer) <==> ConsumerInside(s))
  }

  ghost predicate Waiting(s: State) {
    && (s.cpc.CWait? ==> s.contents == [])
    && (s.cpc.CPop? ==> s.contents != [])
    && (s.cpc.CAsleep? && s.contents != [] ==> SignalDue(s))
  }

  ghost predicate History(s: State) {
    && HeapList.Run([], s.log) == (s.contents, s.popped)
    && HeapList.Pushed(s.log) + (if s.ppc.PPush? then [s.pdata] else []) == s.drawn
  }

  ghost predicate Invariant(s: State) { Locking(s) && Waiting(s) && History(s) }

  lemma EmptyHistory()
    ensures HeapList.Run([], []) == ([], [])
  {}

  lemma StepKeepsOrder(s: State, t: Turn)
    requires Locking(s) && Waiting(s)
    ensures Locking(Step(s, t)) && Waiting(Step(s, t))
  {}

  lemma ProducerKeepsHistory(s: State, random: nat)
    requires History(s)
    ensures History(ProducerStep(s, random))
  {
    if s.ppc.PPush? {
      HeapList.RunOneMore(s.log, HeapList.Push(s.pdata), s.contents, s.popped);
      HeapList.PushedOneMore(s.log, HeapList.Push(s.pdata));
    }
  }

  lemma ConsumerKeepsHistory(s: State)
    requires History(s)
    ensures History(ConsumerStep(s))
  {
    if s.cpc.CPop? {
      HeapList.RunOneMore(s.log, HeapList.Pop, s.contents, s.popped);
      HeapList.PushedOneMore(s.log, HeapList.Pop);
    }
  }

  lemma StepKeepsHistory(s: State, t: Turn)
    requires History(s)
    ensures History(Step(s, t))
  {
    match t
    case ProducerTurn(random) => ProducerKeepsHistory(s, random);
    case ConsumerTurn => ConsumerKeepsHistory(s);
    case SpuriousWakeup =>
  }

  lemma StepKeepsInvariant(s: State, t: Turn)
    requires Invariant(s)
    ensures Invariant(Step(s, t))
  {
    StepKeepsOrder(s, t);
    StepKeepsHistory(s, t);
  }

  lemma {:induction false} RunKeepsInvariant(turns: seq<Turn>)
    ensures Invariant(Run(turns))
  {
    if turns == [] {
      EmptyHistory();
    } else {
      RunKeepsInvariant(turns[..|turns| - 1]);
      StepKeepsInvariant(Run(turns[..|turns| - 1]), turns[|turns| - 1]);
    }
  }

  // ---------------------------------------------------------------- safety in every run

  /** No lost wakeup: if the consumer sleeps while the list is not empty, the producer is between
      its push and its signal. */
  lemma NoLostWakeup(turns: seq<Turn>)
    ensures var s := Run(turns); s.cpc.CAsleep? && s.contents != [] ==> SignalDue(s)
  {
    RunKeepsInvariant(turns);
  }

  /** The threads are never both in their critical sections, and whoever touches the list holds the
      lock; the consumer pops only from a list that is not empty. */
  lemma ListIsProtected(turns: seq<Turn>)
    ensures var s := Run(turns);
      && !(ProducerInside(s) && ConsumerInside(s))
      && (s.ppc.PPush? ==> s.lock == Held(Producer))
      && (s.cpc.CTest? || s.cpc.CPop? ==> s.lock == Held(Consumer))
      && (s.cpc.CPop? ==> s.contents != [])
  {
    RunKeepsInvariant(turns);
  }

  /** Every value drawn is pushed, and has been popped exactly once or is still in the list; the
      pops are those of a stack. */
  lemma NothingLost(turns: seq<Turn>)
    ensures var s := Run(turns);
      && HeapList.Pushed(s.log) <= s.drawn && |s.drawn| <= |HeapList.Pushed(s.log)| + 1
      && multiset(HeapList.Pushed(s.log)) == multiset(s.popped) + multiset(s.contents)
      && HeapList.Run([], s.log) == (s.contents, s.popped)
  {
    var s := Run(turns);
    RunKeepsInvariant(turns);
    HeapList.NothingLost([], s.log);
    assert multiset(HeapList.Pushed(s.log)) == multiset([]) + multiset(HeapList.Pushed(s.log));
  }

  /** A thread goes on to the next statement of its loop unless it waits for the lock or sleeps; then
      it stays where it is. */
  lemma ThreadsGoOn(s: State, random: nat)
    ensures var s' := Step(s, ProducerTurn(random));
      && (s.ppc.PLock? ==> if s.lock == Free then s'.ppc.PRand? && s'.lock == Held(Producer) else s' == s)
      && (s.ppc.PRand? ==> s'.ppc.PPush?)
      && (s.ppc.PPush? ==> s'.ppc.PPrint? && s'.contents == [s.pdata] + s.contents)
      && (s.ppc.PPrint? ==> s'.ppc.PUnlock?) && (s.ppc.PUnlock? ==> s'.ppc.PSignal? && s'.lock == Free)
      && (s.ppc.PSignal? ==> s'.ppc.PSleep? && s'.cpc == if s.cpc.CAsleep? then CRelock else s.cpc)
      && (s.ppc.PSleep? ==> s'.ppc.PLock?)
      && (!s.ppc.PSignal? ==> s'.cpc == s.cpc) && s'.cdata == s.cdata
    ensures var s' := Step(s, ConsumerTurn);
      && (s.cpc.CLock? || s.cpc.CRelock? ==>
            if s.lock == Free then s'.cpc.CTest? && s'.lock == Held(Consumer) else s' == s)
      && (s.cpc.CTest? ==> s'.cpc == if s.contents == [] then CWait else CPop)
      && (s.cpc.CWait? ==> s'.cpc.CAsleep? && s'.lock == Free) && (s.cpc.CAsleep? ==> s' == s)
      && (s.cpc.CPop? ==> s'.cpc.CPrint? && (s.contents != [] ==> [s'.cdata] + s'.contents == s.contents))
      && (s.cpc.CPrint? ==> s'.cpc.CUnlock?) && (s.cpc.CUnlock? ==> s'.cpc.CLock? && s'.lock == Free)
      && s'.ppc == s.ppc && s'.pdata == s.pdata
    ensures Step(s, SpuriousWakeup) == if s.cpc.CAsleep? then s.(cpc := CRelock) else s
  {}

  /** Without spurious wakeups some thread can always move, and does in its next turn. */
  lemma NoDeadlock(turns: seq<Turn>, random: nat)
    ensures var s := Run(turns);
      || (Enabled(s, ProducerTurn(random)) && Step(s, ProducerTurn(random)).ppc != s.ppc)
      || (Enabled(s, ConsumerTurn) && Step(s, ConsumerTurn).cpc != s.cpc)
  {
    var s := Run(turns);
    RunKeepsInvariant(turns);
    ThreadsGoOn(s, random);
    match s.lock
    case Free =>
    case Held(Producer) =>
    case Held(Consumer) =>
  }

  // ---------------------------------------------------------------- the wakeup arrives

  ghost predicate AwakeDuring(s: State, turns: seq<Turn>)
    decreases |turns|
  {
    !s.cpc.CAsleep? || (turns != [] && AwakeDuring(Step(s, turns[0]), turns[1..]))
  }

  function ProducerTurns(turns: seq<Turn>): nat {
    if turns == [] then 0 else (if turns[0].ProducerTurn? then 1 else 0) + ProducerTurns(turns[1..])
  }

  function TurnsToSignal(pc: ProducerPc): nat {
    match pc
    case PPrint => 3
    case PUnlock => 2
    case PSignal => 1
    case _ => 0
  }

  lemma {:induction false} SignalArrives(s: State, turns: seq<Turn>)
    requires Invariant(s) && (s.cpc.CAsleep? ==> SignalDue(s))
    requires ProducerTurns(turns) >= TurnsToSignal(s.ppc)
    ensures AwakeDuring(s, turns)
    decreases |turns|
  {
    if s.cpc.CAsleep? {
      StepKeepsInvariant(s, turns[0]);
      var s' := Step(s, turns[0]);
      if s'.cpc.CAsleep? {
        SignalArrives(s', turns[1..]);
      }
    }
  }

  /** In every run, a consumer that sleeps although the list is not empty is awake again by the
      producer's third turn, whatever else happens in between. */
  lemma SleeperIsWoken(turns: seq<Turn>, more: seq<Turn>)
    requires Run(turns).contents != [] && ProducerTurns(more) >= 3
    ensures AwakeDuring(Run(turns), more)
  {
    var s := Run(turns);
    RunKeepsInvariant(turns);
    if s.cpc.CAsleep? {
      SignalArrives(s, more);
    }
  }

  // ---------------------------------------------------------------- the consumer gets its value

  /** How often the consumer moves in the given turns: its turns while it is neither asleep nor
      waiting for the lock. */
  function ConsumerMoves(s: State, turns: seq<Turn>): nat
    decreases |turns|
  {
    if turns == [] then 0
    else
      (if turns[0].ConsumerTurn? && Enabled(s, turns[0]) then 1 else 0)
      + ConsumerMoves(Step(s, turns[0]), turns[1..])
  }

  ghost predicate PopsDuring(s: State, turns: seq<Turn>)
    decreases |turns|
  {
    turns != [] &&
    (|Step(s, turns[0]).popped| > |s.popped| || PopsDuring(Step(s, turns[0]), turns[1..]))
  }

  /** How many moves the consumer needs to pop from a list that is not empty. */
  function MovesToPop(pc: ConsumerPc): nat {
    match pc
    case CPop => 1
    case CTest => 2
    case CLock => 3
    case CRelock => 3
    case CAsleep => 3
    case CWait => 3
    case CUnlock => 4
    case CPrint => 5
  }

  lemma OneTurnNearerPop(s: State, t: Turn)
    requires Invariant(s) && s.contents != []
    ensures var s' := Step(s, t);
      || (s.cpc.CPop? && t.ConsumerTurn?)
      || (s'.contents != [] &&
          MovesToPop(s'.cpc) <= MovesToPop(s.cpc) - if t.ConsumerTurn? && Enabled(s, t) then 1 else 0)
  {}

  lemma {:induction false} MovesLeadToPop(s: State, turns: seq<Turn>)
    requires Invariant(s) && s.contents != [] && ConsumerMoves(s, turns) >= MovesToPop(s.cpc)
    ensures PopsDuring(s, turns)
    decreases |turns|
  {
    var s' := Step(s, turns[0]);
    if !(s.cpc.CPop? && turns[0].ConsumerTurn?) {
      OneTurnNearerPop(s, turns[0]);
      StepKeepsInvariant(s, turns[0]);
      MovesLeadToPop(s', turns[1..]);
    }
  }

  /** In every run: while the list is not empty, a consumer that is awake can move whenever the
      producer is outside its critical section, and by its fifth move it has popped a value. */
  lemma ConsumerPops(turns: seq<Turn>, more: seq<Turn>)
    requires Run(turns).contents != []
    ensures var s := Run(turns);
      && (!s.cpc.CAsleep? && !ProducerInside(s) ==> Enabled(s, ConsumerTurn))
      && (ConsumerMoves(s, more) >= 5 ==> PopsDuring(s, more))
  {
    RunKeepsInvariant(turns);
    var s := Run(turns);
    if ConsumerMoves(s, more) >= 5 {
      MovesLeadToPop(s, more);
    }
    match s.lock
    case Free =>
    case Held(Producer) =>
    case Held(Consumer) =>
  }

  // ---------------------------------------------------------------- the producer gets its value in

  /** How often the producer moves in the given turns: its turns while it does not wait for the
      lock. */
  function ProducerMoves(s: State, turns: seq<Turn>): nat
    decreases |turns|
  {
    if turns == [] then 0
    else
      (if turns[0].ProducerTurn? && (s.ppc.PLock? ==> s.lock == Free) then 1 else 0)
      + ProducerMoves(Step(s, turns[0]), turns[1..])
  }

  /** A value drawn during the turns is pushed during them. */
  ghost predicate PushesDuring(s: State, turns: seq<Turn>)
    decreases |turns|
  {
    turns != [] &&
    ((s.ppc.PPush? && Step(s, turns[0]).log == s.log + [HeapList.Push(s.pdata)]) ||
     PushesDuring(Step(s, turns[0]), turns[1..]))
  }

  function MovesToPush(pc: ProducerPc): nat {
    match pc
    case PPush => 1
    case PRand => 2
    case PLock => 3
    case PSleep => 4
    case PSignal => 5
    case PUnlock => 6
    case PPrint => 7
  }

  lemma {:induction false} MovesLeadToPush(s: State, turns: seq<Turn>)
    requires ProducerMoves(s, turns) >= MovesToPush(s.ppc)
    ensures PushesDuring(s, turns)
    decreases |turns|
  {
    if !(s.ppc.PPush? && turns[0].ProducerTurn?) {
      assert MovesToPush(Step(s, turns[0]).ppc) <= MovesToPush(s.ppc)
        - if turns[0].ProducerTurn? && (s.ppc.PLock? ==> s.lock == Free) then 1 else 0;
      MovesLeadToPush(Step(s, turns[0]), turns[1..]);
    }
  }

  /** How many moves the consumer needs to give up the lock once it has it. */
  function MovesToRelease(pc: ConsumerPc): nat {
    match pc
    case CTest => 4
    case CPop => 3
    case CPrint => 2
    case CUnlock => 1
    case CWait => 1
    case _ => 0
  }

  ghost predicate FreeDuring(s: State, turns: seq<Turn>)
    decreases |turns|
  {
    s.lock != Held(Consumer) || (turns != [] && FreeDuring(Step(s, turns[0]), turns[1..]))
  }

  lemma {:induction false} MovesLeadToRelease(s: State, turns: seq<Turn>)
    requires Locking(s) && Waiting(s) && ConsumerMoves(s, turns) >= MovesToRelease(s.cpc)
    ensures FreeDuring(s, turns)
    decreases |turns|
  {
    if s.lock == Held(Consumer) {
      StepKeepsOrder(s, turns[0]);
      MovesLeadToRelease(Step(s, turns[0]), turns[1..]);
    }
  }

  /** In every run: a producer that waits for the lock waits for a consumer that gives it up within
      four of its own moves, and by its seventh move the producer has pushed a value. */
  lemma ProducerPushes(turns: seq<Turn>, more: seq<Turn>)
    ensures var s := Run(turns);
      && (s.ppc.PLock? ==> s.lock == Free || s.lock == Held(Consumer))
      && (ConsumerMoves(s, more) >= 4 ==> FreeDuring(s, more))
      && (ProducerMoves(s, more) >= 7 ==> PushesDuring(s, more))
  {
    var s := Run(turns);
    RunKeepsInvariant(turns);
    if ConsumerMoves(s, more) >= 4 {
      MovesLeadToRelease(s, more);
    }
    if ProducerMoves(s, more) >= 7 {
      MovesLeadToPush(s, more);
    }
    match s.lock
    case Free =>
    case Held(Producer) =>
    case Held(Consumer) =>
  }

  /** The values are the remainders of the random ones modulo 1234. */
  ghost predicate Remainders(values: seq<int>, random: seq<nat>) {
    |values| == |random| &&
    forall i :: 0 <= i < |values| ==> 0 <= values[i] < 1234 && (random[i] - values[i]) % 1234 == 0
  }

  lemma OneMoreRemainder(values: seq<int>, random: seq<nat>, r: nat)
    requires Remainders(values, random)
    ensures Remainders(values + [r % 1234], random + [r])
  {
    assert (r - r % 1234) % 1234 == 0;
  }

  /** The random values of the turns in which the producer draws. */
  function Draws(turns: seq<Turn>): seq<nat> {
    if turns == [] then []
    else
      var before, t := turns[..|turns| - 1], turns[|turns| - 1];
      Draws(before) + if t.ProducerTurn? && Run(before).ppc.PRand? then [t.random] else []
  }

  lemma {:induction false} DrawsLeaveRemainders(turns: seq<Turn>)
    ensures Remainders(Run(turns).drawn, Draws(turns))
  {
    if turns != [] {
      var before, t := turns[..|turns| - 1], turns[|turns| - 1];
      var s := Run(before);
      DrawsLeaveRemainders(before);
      if t.ProducerTurn? && s.ppc.PRand? {
        OneMoreRemainder(s.drawn, Draws(before), t.random);
        assert Run(turns).drawn == s.drawn + [t.random % 1234];
      } else {
        assert Run(turns).drawn == s.drawn && Draws(turns) == Draws(before) + [];
      }
    }
  }

  /** The values drawn are the remainders of the random values modulo 1234. */
  lemma DrawnAreRemainders(turns: seq<Turn>)
    ensures var drawn, random := Run(turns).drawn, Draws(turns);
      && |drawn| == |random|
      && forall i :: 0 <= i < |drawn| ==> 0 <= drawn[i] < 1234 && (random[i] - drawn[i]) % 1234 == 0
  {
    DrawsLeaveRemainders(turns);
  }

  // ---------------------------------------------------------------- the program

  /** The globals of listcp.c with the two threads' positions; the list is the linked one. */
  class Program {
    const list: HeapList.List
    var lock: Lock
    var ppc: ProducerPc
    var pdata: int
    var cpc: ConsumerPc
    var cdata: int
    ghost var drawn: seq<int>
    ghost var log: seq<HeapList.Op>
    ghost var popped: seq<int>

    ghost predicate Valid()
      reads this, list, list.spine
    {
      list.Valid()
    }

    ghost function View(): State
      requires Valid()
      reads this, list, list.spine
    {
      State(list.Contents(), lock, ppc, pdata, cpc, cdata, drawn, log, popped)
    }

    /** `main` up to the creation of the threads. */
    constructor ()
      ensures Valid() && View() == Run([])
      ensures fresh(list) && fresh(list.live)
    {
      list := new HeapList.List();
      lock, ppc, pdata, cpc, cdata := Free, PLock, 0, CLock, 0;
      drawn, log, popped := [], [], [];
    }

    method PushData()
      requires Valid() && ppc.PPush?
      modifies this, list, list.live
      ensures Valid() && View() == ProducerStep(old(View()), 0)
      ensures fresh(list.live - old(list.live))
    {
      list.EmptyMeansNoContents();
      list.PushFront(list.head, pdata);
      log, ppc := log + [HeapList.Push(pdata)], PPrint;
    }

    method PopData()
      requires Valid() && cpc.CPop?
      modifies this, list, list.live
      ensures Valid() && View() == ConsumerStep(old(View()))
      ensures fresh(list.live - old(list.live))
    {
      ghost var before := list.Contents();
      list.EmptyMeansNoContents();
      cdata := list.PopFront(list.head, cdata);
      if before != [] {
        assert cdata == before[0] && list.Contents() == before[1..];
        popped := popped + [cdata];
      }
      log, cpc := log + [HeapList.Pop], CPrint;
    }

    /** The next statement of `Product`. */
    method TakeProducerTurn(random: nat)
      requires Valid()
      modifies this, list, list.live
      ensures Valid() && View() == Step(old(View()), ProducerTurn(random))
      ensures fresh(list.live - old(list.live))
    {
      list.EmptyMeansNoContents();
      match ppc {
        case PLock => if lock.Free? { lock, ppc := Held(Producer), PRand; }
        case PRand =>
          pdata, ppc := random % 1234, PPush;
          drawn := drawn + [pdata];
        case PPush => PushData();
        case PPrint => ppc := PUnlock;
        case PUnlock => lock, ppc := Free, PSignal;
        case PSignal =>
          if cpc.CAsleep? { cpc := CRelock; }
          ppc := PSleep;
        case PSleep => ppc := PLock;
      }
    }

    /** The next statement of `Consumer`; nothing while it sleeps. */
    method TakeConsumerTurn()
      requires Valid()
      modifies this, list, list.live
      ensures Valid() && View() == Step(old(View()), ConsumerTurn)
      ensures fresh(list.live - old(list.live))
    {
      list.EmptyMeansNoContents();
      match cpc {
        case CLock => if lock.Free? { lock, cpc := Held(Consumer), CTest; }
        case CTest => cpc := if list.IsEmpty(list.head) then CWait else CPop;
        case CWait => lock, cpc := Free, CAsleep;
        case CAsleep =>
        case CRelock => if lock.Free? { lock, cpc := Held(Consumer), CTest; }
        case CPop => PopData();
        case CPrint => cpc := CUnlock;
        case CUnlock => lock, cpc := Free, CLock;
      }
    }

    method Wake()
      requires Valid()
      modifies this
      ensures Valid() && View() == Step(old(View()), SpuriousWakeup)
    {
      if cpc.CAsleep? { cpc := CRelock; }
    }
  }

  /** The program under an arbitrary scheduler, on the linked list. */
  method Schedule(turns: seq<Turn>) returns (p: Program)
    ensures fresh(p) && p.Valid() && p.View() == Run(turns)
    ensures multiset(HeapList.Pushed(p.log)) == multiset(p.popped) + multiset(p.list.Contents())
  {
    p := new Program();
    for i := 0 to |turns|
      invariant fresh(p) && fresh(p.list) && fresh(p.list.live)
      invariant p.Valid() && p.View() == Run(turns[..i])
    {
      match turns[i] {
        case ProducerTurn(random) => p.TakeProducerTurn(random);
        case ConsumerTurn => p.TakeConsumerTurn();
        case SpuriousWakeup => p.Wake();
      }
      assert turns[..i + 1][..i] == turns[..i];
    }
    assert turns[..|turns|] == turns;
    NothingLost(turns);
  }
}
