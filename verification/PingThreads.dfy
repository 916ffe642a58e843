/** The sender and the receiver thread of ping.c, which share the table of packets in flight
    without a lock.

    Here every assignment of icmp_send and icmp_unpack to the table is an atomic step.  Counting
    stays right in every interleaving.  Start times do not: icmp_unpack clears a slot's flag before
    it reads the slot's start time, so the sender may put the next packet into the slot in
    between.  HoldsStartOf says which packet's start time is read, in every interleaving. */
module PingThreads {
  import opened PingTable

  type Index = i: nat | i < SLOTS
  type Table = slots: seq<Slot> | |slots| == SLOTS witness seq(SLOTS, _ => IDLE)

  /** Where the sender is; j is the slot it has found, -1 if the table was full. */
  datatype SendPc =
    | SFind
    | SSeq(j: Index)
    | SFlag(j: Index)
    | STime(j: Index)
    | STransmit(k: int)
    | SCount(k: int)

  /** Where the receiver is with the reply to packet q in slot i. */
  datatype RecvPc =
    | RWait
    | RClear(i: Index, q: nat)
    | RRead(i: Index, q: nat)
    | RRecord(q: nat, begin: Time)

  /** The table and the counters, and, for the properties: the packets whose reply is to come,
      those sent while the table was full, and each packet's start time. */
  datatype State = State(
    slots: Table, sent: int, recv: int, samples: seq<int>, spc: SendPc, rpc: RecvPc,
    awaiting: set<int>, untracked: set<int>, begins: map<int, Time>)

  /** A turn of the sender, the arrival of a reply, or a turn of the receiver that handles it;
      `now` is what gettimeofday returns if that is the statement. */
  datatype Turn = Sender(now: Time) | Arrival(q: nat) | Receiver(now: Time)

  const INITIAL := State(seq(SLOTS, _ => IDLE), 0, 0, [], SFind, RWait, {}, {}, map[])

  /** packet_send does not wrap, and a reply arrives for a packet sent, once, when the receiver is
      in recv. */
  predicate Permitted(s: State, t: Turn) {
    match t
    case Sender(_) => s.sent < 0x7fff
    case Arrival(q) => s.rpc.RWait? && q in s.awaiting
    case Receiver(_) => !s.rpc.RWait?
  }

  function SenderStep(s: State, now: Time): State {
    match s.spc
    case SFind =>
      var j := Find(s.slots, -1, 0);
      s.(spc := if j == -1 then STransmit(-1) else SSeq(j))
    case SSeq(j) => s.(slots := s.slots[j := s.slots[j].(seqNo := s.sent)], spc := SFlag(j))
    case SFlag(j) => s.(slots := s.slots[j := s.slots[j].(flag := 1)], spc := STime(j))
    case STime(j) =>
      s.(slots := s.slots[j := s.slots[j].(begin := now)], spc := STransmit(j),
         begins := s.begins[s.sent := now])
    case STransmit(k) => s.(awaiting := s.awaiting + {s.sent}, spc := SCount(k))
    case SCount(k) =>
      s.(sent := s.sent + 1, spc := SFind, untracked := s.untracked + if k == -1 then {s.sent} else {})
  }

  function ArrivalStep(s: State, q: nat): State {
    var i := Find(s.slots, q, 0);
    s.(awaiting := s.awaiting - {q}, rpc := if i == -1 then RWait else RClear(i, q))
  }

  function ReceiverStep(s: State, now: Time): State {
    match s.rpc
    case RWait => s
    case RClear(i, q) => s.(slots := s.slots[i := s.slots[i].(flag := 0)], rpc := RRead(i, q))
    case RRead(i, q) => s.(rpc := RRecord(q, s.slots[i].begin))
    case RRecord(q, begin) => s.(samples := s.samples + [Rtt(now, begin)], recv := s.recv + 1, rpc := RWait)
  }

  function Step(s: State, t: Turn): State {
    match t
    case Sender(now) => SenderStep(s, now)
    case Arrival(q) => ArrivalStep(s, q)
    case Receiver(now) => ReceiverStep(s, now)
  }

  /** Each turn takes its thread to the next statement; the sender works on the first free slot and
      sends untracked only if no slot is free. */
  lemma ThreadsGoOn(s: State, now: Time)
    ensures var s' := Step(s, Sender(now));
      && (s.spc.SFind? ==>
            if forall i :: 0 <= i < 128 ==> s.slots[i].flag != 0 then s'.spc == STransmit(-1)
            else s'.spc.SSeq? && s.slots[s'.spc.j].flag == 0 && forall i :: 0 <= i < s'.spc.j ==> s.slots[i].flag != 0)
      && (s.spc.SSeq? ==> s'.spc == SFlag(s.spc.j) && s'.slots[s.spc.j].seqNo == s.sent)
      && (s.spc.SFlag? ==> s'.spc == STime(s.spc.j) && s'.slots[s.spc.j].flag == 1)
      && (s.spc.STime? ==> s'.spc == STransmit(s.spc.j) && s'.slots[s.spc.j].begin == now)
      && (s.spc.STransmit? ==> s'.spc == SCount(s.spc.k) && s'.awaiting == s.awaiting + {s.sent})
      && (s.spc.SCount? ==> s'.spc.SFind? && s'.sent == s.sent + 1)
      && s'.untracked == (if s.spc == SCount(-1) then s.untracked + {s.sent} else s.untracked)
      && s'.rpc == s.rpc && s'.samples == s.samples && s'.recv == s.recv
    ensures var s' := Step(s, Receiver(now));
      && (s.rpc.RWait? ==> s' == s)
      && (s.rpc.RClear? ==> s'.rpc == RRead(s.rpc.i, s.rpc.q) && s'.slots[s.rpc.i].flag == 0)
      && (s.rpc.RRead? ==> s'.rpc == RRecord(s.rpc.q, s.slots[s.rpc.i].begin))
      && (s.rpc.RRecord? ==>
            s'.rpc.RWait? && s'.recv == s.recv + 1 && s'.samples == s.samples + [Rtt(now, s.rpc.begin)])
      && s'.spc == s.spc && s'.sent == s.sent && s'.untracked == s.untracked
  {
    var i := Find(s.slots, -1, 0);
    assert i != -1 ==> Matches(s.slots[i], -1);
    assert forall j :: 0 <= j < (if i == -1 then 128 else i) ==> !Matches(s.slots[j], -1);
    assert s.untracked + {} == s.untracked;
  }

  // ---------------------------------------------------------------- the invariant

  /** The number of packets on their way or answered: packet_send lags by one after sendto. */
  function Transmitted(s: State): int { s.sent + if s.spc.SCount? then 1 else 0 }

  /** The slot that the sender is about to use for packet number `sent`, not yet on its way. */
  predicate Preparing(s: State, i: int) {
    (s.spc.SFlag? || s.spc.STime? || s.spc.STransmit?) && i == if s.spc.STransmit? then s.spc.k else s.spc.j
  }

  predicate Untracked(s: State, q: int) {
    q in s.untracked || (q == s.sent && (s.spc == STransmit(-1) || s.spc == SCount(-1)))
  }

  ghost predicate Shape(s: State) {
    && 0 <= s.sent <= 0x7fff
    && (s.spc.STransmit? || s.spc.SCount? ==> -1 <= s.spc.k < SLOTS)
    && (forall i :: 0 <= i < SLOTS ==> s.slots[i].flag == 0 || s.slots[i].flag == 1)
    && (s.spc.SSeq? || s.spc.SFlag? ==> s.slots[s.spc.j].flag == 0)
    && (forall q :: q in s.awaiting ==> 0 <= q < Transmitted(s))
    && (forall q :: q in s.untracked ==> 0 < q < s.sent)
  }

  /** Which numbers the slots carry. */
  ghost predicate Numbers(s: State) {
    && (forall i :: 0 <= i < SLOTS && !Preparing(s, i) ==>
          0 <= s.slots[i].seqNo && (s.slots[i].seqNo < Transmitted(s) || s.slots[i] == IDLE))
    && (forall i :: 0 <= i < SLOTS && Preparing(s, i) ==>
          s.slots[i].seqNo == s.sent && s.slots[i].flag == if s.spc.SFlag? then 0 else 1)
    && (forall i :: 0 <= i < SLOTS ==> !Untracked(s, s.slots[i].seqNo))
    && (Transmitted(s) == 0 ==>
          && (forall i :: 0 <= i < SLOTS && !Preparing(s, i) ==> s.slots[i] == IDLE)
          && (s.spc.SSeq? ==> s.spc.j == 0) && (forall i :: Preparing(s, i) ==> i == 0))
  }

  /** A slot in flight is the first with its number, and its packet is awaited or being handled. */
  ghost predicate Tracking(s: State) {
    && (forall i :: 0 <= i < SLOTS && s.slots[i].flag == 1 && !Preparing(s, i) ==>
          s.slots[i].seqNo in s.awaiting || (s.rpc.RClear? && s.rpc.i == i && s.rpc.q == s.slots[i].seqNo))
    && (forall i, k :: 0 <= i < k < SLOTS && s.slots[k].flag == 1 ==> s.slots[i].seqNo != s.slots[k].seqNo)
    && (s.rpc.RClear? ==> s.slots[s.rpc.i].flag == 1 && s.slots[s.rpc.i].seqNo == s.rpc.q
                          && s.rpc.q !in s.awaiting && !Preparing(s, s.rpc.i))
  }

  ghost predicate Reachable(s: State) {
    forall q :: q in s.awaiting && !Untracked(s, q) ==> InFlight(s.slots, q)
  }

  ghost predicate Times(s: State) {
    && (forall i :: 0 <= i < SLOTS && s.slots[i].flag == 1 && (!Preparing(s, i) || s.spc.STransmit?) ==>
          s.slots[i].seqNo in s.begins && s.slots[i].begin == s.begins[s.slots[i].seqNo])
    && (forall q :: q in s.begins ==> 0 <= q < Transmitted(s) || (q == s.sent && s.spc.STransmit?))
    && (s.rpc.RRead? || s.rpc.RRecord? ==> s.rpc.q in s.begins)
  }

  function Flagged(s: State): int {
    if s.spc.STime? || ((s.spc.STransmit? || s.spc.SCount?) && s.spc.k != -1) then 1 else 0
  }

  ghost predicate Accounts(s: State) {
    && s.sent + Flagged(s) == s.recv + Outstanding(s.slots) + |s.untracked|
                              + (if s.rpc.RRead? || s.rpc.RRecord? then 1 else 0)
    && |s.samples| == s.recv
  }

  ghost predicate Invariant(s: State) {
    Shape(s) && Numbers(s) && Tracking(s) && Reachable(s) && Times(s) && Accounts(s)
  }

  lemma SenderKeepsShape(s: State, now: Time)
    requires Shape(s) && Numbers(s) && s.sent < 0x7fff
    ensures Shape(SenderStep(s, now))
  {
    if s.spc == SCount(-1) {
      assert !Untracked(s, s.slots[0].seqNo);
    }
  }

  lemma SenderKeepsNumber(s: State, now: Time, i: Index)
    requires Shape(s) && Numbers(s) && s.sent < 0x7fff
    ensures var s' := SenderStep(s, now);
      && !Untracked(s', s'.slots[i].seqNo)
      && if Preparing(s', i) then
           s'.slots[i].seqNo == s'.sent && s'.slots[i].flag == if s'.spc.SFlag? then 0 else 1
         else
           0 <= s'.slots[i].seqNo && (s'.slots[i].seqNo < Transmitted(s') || s'.slots[i] == IDLE)
  {
    assert !Untracked(s, s.slots[i].seqNo);
    if Preparing(s, i) {
      assert s.slots[i].seqNo == s.sent;
    } else {
      assert 0 <= s.slots[i].seqNo && (s.slots[i].seqNo < Transmitted(s) || s.slots[i] == IDLE);
      assert Transmitted(s) == 0 && s.spc.STransmit? ==> s.slots[i] == IDLE;
    }
  }

  lemma SenderKeepsFirstNumber(s: State, now: Time)
    requires Shape(s) && Numbers(s) && s.sent < 0x7fff
    ensures var s' := SenderStep(s, now);
      Transmitted(s') == 0 ==>
        && (forall i :: 0 <= i < SLOTS && !Preparing(s', i) ==> s'.slots[i] == IDLE)
        && (s'.spc.SSeq? ==> s'.spc.j == 0) && (forall i :: Preparing(s', i) ==> i == 0)
  {
    if Transmitted(s) == 0 && s.spc.SFind? {
      assert !Preparing(s, 0) && Matches(s.slots[0], -1);
    }
  }

  lemma SenderKeepsNumbers(s: State, now: Time)
    requires Shape(s) && Numbers(s) && s.sent < 0x7fff
    ensures Numbers(SenderStep(s, now))
  {
    var s' := SenderStep(s, now);
    forall i | 0 <= i < SLOTS
      ensures !Untracked(s', s'.slots[i].seqNo)
      ensures if Preparing(s', i) then
                s'.slots[i].seqNo == s'.sent && s'.slots[i].flag == if s'.spc.SFlag? then 0 else 1
              else
                0 <= s'.slots[i].seqNo && (s'.slots[i].seqNo < Transmitted(s') || s'.slots[i] == IDLE)
    {
      SenderKeepsNumber(s, now, i);
    }
    SenderKeepsFirstNumber(s, now);
  }

  /** No other slot in front of a slot in flight, or of the one being prepared, carries its number. */
  lemma SenderKeepsFirst(s: State, now: Time, i: nat, k: nat)
    requires Shape(s) && Numbers(s) && Tracking(s) && s.sent < 0x7fff
    requires i < k < SLOTS && SenderStep(s, now).slots[k].flag == 1
    ensures SenderStep(s, now).slots[i].seqNo != SenderStep(s, now).slots[k].seqNo
  {
    if s.spc.SSeq? {
      assert k != s.spc.j && s.slots[k].flag == 1 && s.slots[k].seqNo < s.sent;
    } else if s.spc == SFlag(k) {
      assert s.slots[k].seqNo == s.sent && !Preparing(s, i) && s.sent > 0;
    } else {
      assert s.slots[k].flag == 1;
    }
  }

  lemma SenderKeepsTracking(s: State, now: Time)
    requires Shape(s) && Numbers(s) && Tracking(s) && s.sent < 0x7fff
    ensures Tracking(SenderStep(s, now))
  {
    forall i, k | 0 <= i < k < SLOTS && SenderStep(s, now).slots[k].flag == 1
      ensures SenderStep(s, now).slots[i].seqNo != SenderStep(s, now).slots[k].seqNo
    {
      SenderKeepsFirst(s, now, i, k);
    }
  }

  lemma SenderKeepsReachable(s: State, now: Time)
    requires Shape(s) && Numbers(s) && Reachable(s) && s.sent < 0x7fff
    ensures Reachable(SenderStep(s, now))
  {
    var s' := SenderStep(s, now);
    forall q | q in s'.awaiting && !Untracked(s', q) ensures InFlight(s'.slots, q) {
      if q == s.sent && s.spc.STransmit? {
        assert s'.slots[s.spc.k].seqNo == q;
      } else {
        var i :| 0 <= i < |s.slots| && s.slots[i].flag == 1 && s.slots[i].seqNo == q;
        assert s'.slots[i].flag == 1 && s'.slots[i].seqNo == q;
      }
    }
  }

  lemma SenderKeepsTimes(s: State, now: Time)
    requires Shape(s) && Numbers(s) && Times(s) && s.sent < 0x7fff
    ensures Times(SenderStep(s, now))
  {}

  lemma SenderKeepsAccounts(s: State, now: Time)
    requires Shape(s) && Numbers(s) && Accounts(s) && s.sent < 0x7fff
    ensures Accounts(SenderStep(s, now))
  {
    match s.spc
    case SSeq(j) => OutstandingUpdate(s.slots, j, s.slots[j].(seqNo := s.sent));
    case SFlag(j) => OutstandingUpdate(s.slots, j, s.slots[j].(flag := 1));
    case STime(j) => OutstandingUpdate(s.slots, j, s.slots[j].(begin := now));
    case _ =>
  }

  /** A reply to a tracked packet finds that packet's slot. */
  lemma ArrivalFindsSlot(s: State, q: nat)
    requires Shape(s) && Numbers(s) && Tracking(s) && Reachable(s) && q in s.awaiting
    ensures var i := Find(s.slots, q, 0);
      if Untracked(s, q) then i == -1
      else i != -1 && s.slots[i].flag == 1 && s.slots[i].seqNo == q && !Preparing(s, i)
  {
    if !Untracked(s, q) {
      var k :| 0 <= k < SLOTS && s.slots[k].flag == 1 && s.slots[k].seqNo == q;
      assert Matches(s.slots[k], q);
    }
  }

  lemma ArrivalKeepsTable(s: State, q: nat)
    requires Shape(s) && Numbers(s) && Tracking(s) && Reachable(s) && s.rpc.RWait? && q in s.awaiting
    ensures var s' := ArrivalStep(s, q); Shape(s') && Numbers(s') && Tracking(s')
  {
    ArrivalFindsSlot(s, q);
  }

  lemma ArrivalKeepsRest(s: State, q: nat)
    requires Reachable(s) && Times(s) && Accounts(s) && s.rpc.RWait?
    ensures var s' := ArrivalStep(s, q); Reachable(s') && Times(s') && Accounts(s')
  {
    var s' := ArrivalStep(s, q);
    forall r | r in s'.awaiting && !Untracked(s', r) ensures InFlight(s'.slots, r) {
      assert r in s.awaiting && !Untracked(s, r);
    }
  }

  lemma ReceiverKeepsTracking(s: State, now: Time)
    requires Shape(s) && Numbers(s) && Tracking(s)
    ensures Tracking(ReceiverStep(s, now))
  {}

  lemma ReceiverKeepsReachable(s: State, now: Time)
    requires Shape(s) && Tracking(s) && Reachable(s)
    ensures Reachable(ReceiverStep(s, now))
  {
    var s' := ReceiverStep(s, now);
    forall q | q in s'.awaiting && !Untracked(s', q) ensures InFlight(s'.slots, q) {
      assert q in s.awaiting && !Untracked(s, q);
      var i :| 0 <= i < |s.slots| && s.slots[i].flag == 1 && s.slots[i].seqNo == q;
      assert s'.slots[i].flag == 1 && s'.slots[i].seqNo == q;
    }
  }

  lemma ReceiverKeepsShape(s: State, now: Time)
    requires Shape(s) && Tracking(s)
    ensures Shape(ReceiverStep(s, now))
  {}

  lemma ReceiverKeepsNumbers(s: State, now: Time)
    requires Numbers(s)
    requires s.rpc.RClear? ==> s.slots[s.rpc.i].flag == 1 && !Preparing(s, s.rpc.i)
    ensures Numbers(ReceiverStep(s, now))
  {
    var s' := ReceiverStep(s, now);
    forall i: int ensures Preparing(s', i) == Preparing(s, i) {}
    forall i | 0 <= i < SLOTS ensures s'.slots[i].seqNo == s.slots[i].seqNo {}
  }

  lemma ReceiverKeepsTimes(s: State, now: Time)
    requires Shape(s) && Tracking(s) && Times(s)
    ensures Times(ReceiverStep(s, now))
  {}

  lemma ReceiverKeepsAccounts(s: State, now: Time)
    requires Shape(s) && Tracking(s) && Accounts(s)
    ensures Accounts(ReceiverStep(s, now))
  {
    if s.rpc.RClear? {
      OutstandingUpdate(s.slots, s.rpc.i, s.slots[s.rpc.i].(flag := 0));
    }
  }

  lemma StepKeepsInvariant(s: State, t: Turn)
    requires Invariant(s) && Permitted(s, t)
    ensures Invariant(Step(s, t))
  {
    match t
    case Sender(now) =>
      SenderKeepsShape(s, now);
      SenderKeepsNumbers(s, now);
      SenderKeepsTracking(s, now);
      SenderKeepsReachable(s, now);
      SenderKeepsTimes(s, now);
      SenderKeepsAccounts(s, now);
    case Arrival(q) =>
      ArrivalKeepsTable(s, q);
      ArrivalKeepsRest(s, q);
    case Receiver(now) =>
      ReceiverKeepsTracking(s, now);
      ReceiverKeepsReachable(s, now);
      ReceiverKeepsShape(s, now);
      ReceiverKeepsNumbers(s, now);
      ReceiverKeepsTimes(s, now);
      ReceiverKeepsAccounts(s, now);
  }

  // ---------------------------------------------------------------- every interleaving

  predicate Legal(s: State, turns: seq<Turn>)
    decreases |turns|
  {
    turns == [] || (Permitted(s, turns[0]) && Legal(Step(s, turns[0]), turns[1..]))
  }

  function Run(s: State, turns: seq<Turn>): State
    decreases |turns|
  {
    if turns == [] then s else Run(Step(s, turns[0]), turns[1..])
  }

  lemma {:induction false} RunKeepsInvariant(s: State, turns: seq<Turn>)
    requires Invariant(s) && Legal(s, turns)
    ensures Invariant(Run(s, turns))
    decreases |turns|
  {
    if turns != [] {
      StepKeepsInvariant(s, turns[0]);
      RunKeepsInvariant(Step(s, turns[0]), turns[1..]);
    }
  }

  lemma InitialInvariant()
    ensures Invariant(INITIAL)
  {
    NothingOutstanding(INITIAL.slots);
  }

  /** In every interleaving each packet sent is answered, being handled, in flight or was sent while
      the table was full, and a number in flight is in one slot, the first that carries it. */
  lemma CountsAreRight(turns: seq<Turn>)
    requires Legal(INITIAL, turns)
    ensures var s := Run(INITIAL, turns);
      && s.sent + Flagged(s) == s.recv + Outstanding(s.slots) + |s.untracked|
                                + (if s.rpc.RRead? || s.rpc.RRecord? then 1 else 0)
      && |s.samples| == s.recv
      && (forall i, k :: 0 <= i < k < SLOTS && s.slots[k].flag == 1 ==> s.slots[i].seqNo != s.slots[k].seqNo)
      && (s.rpc.RClear? ==> s.slots[s.rpc.i].flag == 1 && s.slots[s.rpc.i].seqNo == s.rpc.q)
  {
    InitialInvariant();
    RunKeepsInvariant(INITIAL, turns);
  }

  lemma {:induction false} LegalSplits(s: State, a: seq<Turn>, b: seq<Turn>)
    requires Legal(s, a + b)
    ensures Legal(s, a) && Legal(Run(s, a), b) && Run(s, a + b) == Run(Run(s, a), b)
    decreases |a|
  {
    if a == [] {
      assert a + b == b;
    } else {
      assert (a + b)[1..] == a[1..] + b;
      LegalSplits(Step(s, a[0]), a[1..], b);
    }
  }

  lemma LastTurn(turns: seq<Turn>) returns (before: seq<Turn>, t: Turn)
    requires turns != [] && Legal(INITIAL, turns)
    ensures before == turns[..|turns| - 1] && t == turns[|turns| - 1] && Legal(INITIAL, before)
    ensures Permitted(Run(INITIAL, before), t) && Run(INITIAL, turns) == Step(Run(INITIAL, before), t)
  {
    before, t := turns[..|turns| - 1], turns[|turns| - 1];
    assert turns == before + [t] && [t][1..] == [];
    LegalSplits(INITIAL, before, [t]);
  }

  lemma BecomesUntracked(s: State, t: Turn, q: int)
    requires Shape(s) && !Untracked(s, q) && Untracked(Step(s, t), q)
    ensures t.Sender? && s.spc == SFind && s.sent == q && forall i :: 0 <= i < 128 ==> s.slots[i].flag == 1
  {
    ThreadsGoOn(s, if t.Arrival? then Time(0, 0) else t.now);
  }

  /** In every interleaving: a packet is untracked only if the sender, when it searched for a slot for
      it, found all 128 in flight. */
  lemma {:induction false} UntrackedFoundNoSlot(turns: seq<Turn>, q: int) returns (k: nat)
    requires Legal(INITIAL, turns) && Untracked(Run(INITIAL, turns), q)
    ensures k < |turns|
    ensures var s := Run(INITIAL, turns[..k]);
      s.spc == SFind && s.sent == q && turns[k].Sender? && forall i :: 0 <= i < 128 ==> s.slots[i].flag == 1
    decreases |turns|
  {
    var before, t := LastTurn(turns);
    var s := Run(INITIAL, before);
    InitialInvariant();
    RunKeepsInvariant(INITIAL, before);
    if Untracked(s, q) {
      k := UntrackedFoundNoSlot(before, q);
      assert before[..k] == turns[..k];
    } else {
      k := |turns| - 1;
      BecomesUntracked(s, t, q);
    }
  }

  // ---------------------------------------------------------------- whose start time is read

  /** During the given turns the sender writes a start time into slot i. */
  predicate Overwrites(s: State, turns: seq<Turn>, i: Index)
    decreases |turns|
  {
    turns != [] && (s.spc == STime(i) || Overwrites(Step(s, turns[0]), turns[1..], i))
  }

  predicate SenderOnly(turns: seq<Turn>) {
    forall k :: 0 <= k < |turns| ==> turns[k].Sender?
  }

  /** The last packet whose start time the sender writes into slot i during the given turns, or q
      if it writes none. */
  function LastWritten(s: State, turns: seq<Turn>, i: Index, q: int): int
    decreases |turns|
  {
    if turns == [] then q
    else LastWritten(Step(s, turns[0]), turns[1..], i, if s.spc == STime(i) then s.sent else q)
  }

  /** Slot i holds packet q's start time. */
  predicate Holds(s: State, i: Index, q: int) {
    q in s.begins && s.slots[i].begin == s.begins[q]
  }

  lemma OneSenderTurn(s: State, i: Index, q: int, now: Time)
    requires Times(s) && Holds(s, i, q)
    ensures var s' := SenderStep(s, now);
      && s'.rpc == s.rpc && q in s'.begins && s'.begins[q] == s.begins[q]
      && if s.spc == STime(i) then q < s.sent && Holds(s', i, s.sent) else Holds(s', i, q)
  {}

  lemma {:induction false} KeepsBegin(s: State, q: int, turns: seq<Turn>)
    requires Invariant(s) && Legal(s, turns) && SenderOnly(turns) && q in s.begins
    ensures q in Run(s, turns).begins && Run(s, turns).begins[q] == s.begins[q]
    decreases |turns|
  {
    if turns != [] {
      assert Times(s);
      StepKeepsInvariant(s, turns[0]);
      KeepsBegin(Step(s, turns[0]), q, turns[1..]);
    }
  }

  /** While the receiver stands between clearing slot i and reading its start time, the slot holds
      the start time last written to it, which is that of a later packet once the sender has
      written there. */
  lemma {:induction false} HoldsStartOf(s: State, i: Index, q: int, turns: seq<Turn>)
    requires Invariant(s) && Legal(s, turns) && SenderOnly(turns) && Holds(s, i, q)
    ensures var s', r := Run(s, turns), LastWritten(s, turns, i, q);
      && s'.rpc == s.rpc && Holds(s', i, r)
      && q in s'.begins && s'.begins[q] == s.begins[q]
      && if Overwrites(s, turns, i) then r > q else r == q
    decreases |turns|
  {
    assert Times(s);
    if turns != [] {
      var now := turns[0].now;
      OneSenderTurn(s, i, q, now);
      StepKeepsInvariant(s, turns[0]);
      var s1 := SenderStep(s, now);
      if s.spc == STime(i) {
        HoldsStartOf(s1, i, s.sent, turns[1..]);
        KeepsBegin(s1, q, turns[1..]);
      } else {
        HoldsStartOf(s1, i, q, turns[1..]);
      }
    }
  }

  /** In every interleaving: once a reply to packet q has been matched with slot i, the start time
      then read is q's own exactly if the sender has not written a time into the slot in between;
      otherwise it is that of a later packet, the last one written there. */
  lemma SampleIsOwn(before: seq<Turn>, q: nat, i: Index, between: seq<Turn>, now: Time)
    requires Legal(INITIAL, before) && Run(INITIAL, before).rpc == RClear(i, q)
    requires SenderOnly(between) && Legal(Step(Run(INITIAL, before), Receiver(now)), between)
    ensures var s1 := Step(Run(INITIAL, before), Receiver(now));
      var s2, r := Run(s1, between), LastWritten(s1, between, i, q);
      && q in s2.begins && r in s2.begins
      && Step(s2, Receiver(now)).rpc == RRecord(q, s2.begins[r])
      && if Overwrites(s1, between, i) then r > q else r == q
  {
    var s := Run(INITIAL, before);
    InitialInvariant();
    RunKeepsInvariant(INITIAL, before);
    StepKeepsInvariant(s, Receiver(now));
    assert Holds(s, i, q) by {
      assert Times(s) && Tracking(s);
    }
    HoldsStartOf(Step(s, Receiver(now)), i, q, between);
  }

  // ---------------------------------------------------------------- a wrong sample

  lemma {:induction false} RunConcat(s: State, a: seq<Turn>, b: seq<Turn>)
    requires Legal(s, a) && Legal(Run(s, a), b)
    ensures Legal(s, a + b) && Run(s, a + b) == Run(Run(s, a), b)
    decreases |a|
  {
    if a == [] {
      assert a + b == b;
    } else {
      assert (a + b)[1..] == a[1..] + b;
      RunConcat(Step(s, a[0]), a[1..], b);
    }
  }

  /** One more turn of a run from the start. */
  lemma Extend(turns: seq<Turn>, s: State, t: Turn) returns (turns': seq<Turn>, s': State)
    requires Legal(INITIAL, turns) && s == Run(INITIAL, turns) && Permitted(s, t)
    ensures turns' == turns + [t] && Legal(INITIAL, turns') && s' == Run(INITIAL, turns') == Step(s, t)
  {
    assert [t][1..] == [];
    assert Run(s, [t]) == Step(s, t);
    RunConcat(INITIAL, turns, [t]);
    turns', s' := turns + [t], Step(s, t);
  }

  /** The sender's five turns that put packet number `sent` into slot 0. */
  lemma SendIntoFirst(turns: seq<Turn>, s: State, now: Time) returns (turns': seq<Turn>, s': State)
    requires Legal(INITIAL, turns) && s == Run(INITIAL, turns)
    requires s.spc == SFind && s.sent < 0x7fff && s.slots[0].flag == 0
    ensures Legal(INITIAL, turns') && s' == Run(INITIAL, turns')
    ensures s'.slots == s.slots[0 := Slot(s.sent, 1, now)] && s'.begins == s.begins[s.sent := now]
    ensures s'.rpc == s.rpc && s'.samples == s.samples && s'.sent == s.sent
    ensures s'.spc == SCount(0) && s.sent in s'.awaiting
  {
    turns', s' := Extend(turns, s, Sender(now));
    turns', s' := Extend(turns', s', Sender(now));
    turns', s' := Extend(turns', s', Sender(now));
    turns', s' := Extend(turns', s', Sender(now));
    turns', s' := Extend(turns', s', Sender(now));
  }

  /** Packet 0 is sent at t0, and its slot cleared when the reply comes at t1. */
  lemma FirstCleared(t0: Time, t1: Time) returns (turns: seq<Turn>, s: State)
    ensures Legal(INITIAL, turns) && s == Run(INITIAL, turns)
    ensures s.spc == SFind && s.sent == 1 && s.slots[0] == Slot(0, 0, t0)
    ensures s.rpc == RRead(0, 0) && s.samples == [] && 0 in s.begins && s.begins[0] == t0
  {
    turns, s := SendIntoFirst([], INITIAL, t0);
    turns, s := Extend(turns, s, Sender(t0));
    turns, s := Extend(turns, s, Arrival(0));
    assert s.rpc == RClear(0, 0);
    turns, s := Extend(turns, s, Receiver(t1));
  }

  /** The receiver's last two turns, from slot 0. */
  lemma ReadAndRecord(turns: seq<Turn>, s: State, q: nat, now: Time) returns (turns': seq<Turn>, s': State)
    requires Legal(INITIAL, turns) && s == Run(INITIAL, turns) && s.rpc == RRead(0, q)
    ensures Legal(INITIAL, turns') && s' == Run(INITIAL, turns')
    ensures s'.samples == s.samples + [Rtt(now, s.slots[0].begin)] && s'.begins == s.begins
  {
    turns', s' := Extend(turns, s, Receiver(now));
    turns', s' := Extend(turns', s', Receiver(now));
  }

  /** The answer to packet 0, sent at t0 and received at t1, is recorded with the round-trip time 0
      if packet 1 is put into its slot at t1. */
  lemma OvertakenRun(t0: Time, t1: Time) returns (turns: seq<Turn>, s: State)
    ensures Legal(INITIAL, turns) && s == Run(INITIAL, turns)
    ensures s.samples == [Rtt(t1, t1)] && 0 in s.begins && s.begins[0] == t0
  {
    turns, s := FirstCleared(t0, t1);
    turns, s := SendIntoFirst(turns, s, t1);
    turns, s := ReadAndRecord(turns, s, 0, t1);
  }

  lemma RttOfOneSecond()
    ensures Rtt(Time(1, 0), Time(0, 0)) == 1000 && Rtt(Time(1, 0), Time(1, 0)) == 0
  {}

  /** A run in which the answer to packet 0, sent at time 0 and received one second later, is
      recorded with a round-trip time of 0 ms instead of 1000 ms. */
  lemma OvertakenSample() returns (turns: seq<Turn>, s: State)
    ensures Legal(INITIAL, turns) && s == Run(INITIAL, turns)
    ensures s.samples == [0] && 0 in s.begins
    ensures Rtt(Time(1, 0), s.begins[0]) == 1000
  {
    turns, s := OvertakenRun(Time(0, 0), Time(1, 0));
    RttOfOneSecond();
  }
}
