/** The packets in flight of ping.c: a table of 128 slots that icmp_send fills and icmp_unpack
    clears, the counters and the recorded round-trip times.

    Runs are sequences of send and reply events.  The invariant ties the table to what is really
    on the network, and the samples to the exact time each packet was under way. */
module PingTable {
  import opened Bytes
  import Checksum
  import Statistics

  // ---------------------------------------------------------------- time

  datatype Time = Time(sec: int, usec: int)

  /** As gettimeofday delivers it. */
  predicate Normal(t: Time) { 0 <= t.usec < 1_000_000 }

  function Micros(t: Time): int { 1_000_000 * t.sec + t.usec }

  function TvSub(end: Time, begin: Time): Time {
    var tv := Time(end.sec - begin.sec, end.usec - begin.usec);
    if tv.usec < 0 then Time(tv.sec - 1, tv.usec + 1_000_000) else tv
  }

  /** The round-trip time that icmp_unpack computes. */
  function Rtt(end: Time, begin: Time): int {
    var tv := TvSub(end, begin);
    tv.sec * 1000 + tv.usec / 1000
  }

  /** icmp_tvsub is exact, and the sample is the floor of the difference in milliseconds, also
      when the clock went backwards. */
  lemma RttIsFloor(end: Time, begin: Time)
    requires Normal(end) && Normal(begin)
    ensures Normal(TvSub(end, begin)) && Micros(TvSub(end, begin)) == Micros(end) - Micros(begin)
    ensures 1000 * Rtt(end, begin) <= Micros(end) - Micros(begin) < 1000 * (Rtt(end, begin) + 1)
  {}

  // ---------------------------------------------------------------- the table

  const SLOTS := 128

  /** flag is 1 while the packet is in flight. */
  datatype Slot = Slot(seqNo: int, flag: int, begin: Time)

  /** The program's globals; samples is tmp_rtt[0..packet_recv). */
  datatype Pinger = Pinger(slots: seq<Slot>, sent: int, recv: int, samples: seq<real>, total: real)

  /** What a short holds after ++. */
  function ToShort(x: int): int { (x + 0x8000) % 0x1_0000 - 0x8000 }

  lemma ToShortWraps(x: int)
    ensures -0x8000 <= ToShort(x) <= 0x7fff && (x - ToShort(x)) % 0x1_0000 == 0
    ensures -0x8000 <= x <= 0x7fff ==> ToShort(x) == x
  {}

  /** Is this the slot that icmp_findpacket looks for?  -1 asks for a free one. */
  predicate Matches(slot: Slot, seqNo: int) {
    if seqNo == -1 then slot.flag == 0 else seqNo >= 0 && slot.seqNo == seqNo
  }

  /** The first match from position i on, or -1. */
  function Find(slots: seq<Slot>, seqNo: int, i: nat): (r: int)
    ensures r == -1 || (i <= r < |slots| && Matches(slots[r], seqNo))
    ensures forall j :: i <= j < (if r == -1 then |slots| else r) ==> !Matches(slots[j], seqNo)
    decreases |slots| - i
  {
    if i >= |slots| then -1 else if Matches(slots[i], seqNo) then i else Find(slots, seqNo, i + 1)
  }

  function Send(p: Pinger, now: Time): Pinger {
    var i := Find(p.slots, -1, 0);
    p.(slots := if i == -1 then p.slots else p.slots[i := Slot(p.sent, 1, now)],
       sent := ToShort(p.sent + 1))
  }

  function Reply(p: Pinger, seqNo: nat, now: Time): Pinger {
    var i := Find(p.slots, seqNo, 0);
    if i == -1 then p
    else
      var rtt := Rtt(now, p.slots[i].begin) as real;
      p.(slots := p.slots[i := p.slots[i].(flag := 0)], recv := ToShort(p.recv + 1),
         samples := p.samples + [rtt], total := p.total + rtt)
  }

  function Outstanding(slots: seq<Slot>): nat {
    if slots == [] then 0 else (if slots[0].flag == 0 then 0 else 1) + Outstanding(slots[1..])
  }

  lemma {:induction false} OutstandingUpdate(slots: seq<Slot>, i: nat, slot: Slot)
    requires i < |slots|
    ensures Outstanding(slots[i := slot]) == Outstanding(slots)
            - (if slots[i].flag == 0 then 0 else 1) + (if slot.flag == 0 then 0 else 1)
  {
    if i == 0 {
      assert slots[0 := slot][1..] == slots[1..];
    } else {
      assert slots[i := slot][1..] == slots[1..][i - 1 := slot];
      OutstandingUpdate(slots[1..], i - 1, slot);
    }
  }

  lemma {:induction false} NothingOutstanding(slots: seq<Slot>)
    requires forall i :: 0 <= i < |slots| ==> slots[i].flag == 0
    ensures Outstanding(slots) == 0
  {
    if slots != [] {
      NothingOutstanding(slots[1..]);
    }
  }

  // ---------------------------------------------------------------- runs

  /** A turn of the send loop, the reply to one of the program's packets, or any other packet. */
  datatype Event =
    | SendEvent(now: Time)
    | ReplyEvent(seqNo: nat, now: Time)
    | OtherEvent(len: int, ipHl: nat, icmpType: int, icmpId: Checksum.uint16, icmpSeq: nat, now: Time)

  /** The program together with the network: the packets whose reply is still to come, those sent
      while the table was full, every packet's start time, and the samples a perfect observer
      would have recorded. */
  datatype World = World(
    pid: int, p: Pinger, awaiting: set<int>, untracked: set<int>, begins: map<int, Time>, expected: seq<real>)

  const IDLE := Slot(0, 0, Time(0, 0))

  function Start(pid: int): World {
    World(pid, Pinger(seq(SLOTS, _ => IDLE), 0, 0, [], 0.0), {}, {}, map[], [])
  }

  /** The 16-bit id field of a message can hold the process id that replies are compared with. */
  predicate Identifies(pid: int) { 0 <= pid < 0x1_0000 }

  /** The assumptions about a run: packet_send does not wrap, each reply answers a sent packet and
      comes at most once, and tmp_rtt has room.  Other packets are too short, of another type than 0,
      Echo Reply, or carry another id than the process id. */
  predicate Permitted(w: World, e: Event) {
    match e
    case SendEvent(now) => Normal(now) && w.p.sent < 0x7fff
    case ReplyEvent(seqNo, now) =>
      Normal(now) && seqNo in w.awaiting && (w.p.recv < Statistics.MAX || seqNo in w.untracked)
    case OtherEvent(len, ipHl, icmpType, icmpId, _, _) =>
      len - 4 * ipHl < 8 || icmpType != 0 || icmpId as int != w.pid
  }

  function After(w: World, e: Event): World {
    match e
    case SendEvent(now) =>
      var full := Find(w.p.slots, -1, 0) == -1;
      World(w.pid, Send(w.p, now), w.awaiting + {w.p.sent}, w.untracked + (if full then {w.p.sent} else {}),
            w.begins[w.p.sent := now], w.expected)
    case ReplyEvent(seqNo, now) =>
      var tracked := seqNo !in w.untracked && seqNo in w.begins;
      World(w.pid, if Identifies(w.pid) then Reply(w.p, seqNo, now) else w.p,
            w.awaiting - {seqNo}, w.untracked, w.begins,
            w.expected + if tracked then [((Micros(now) - Micros(w.begins[seqNo])) / 1000) as real] else [])
    case OtherEvent(_, _, _, _, _, _) => w
  }

  predicate Legal(w: World, events: seq<Event>)
    decreases |events|
  {
    events == [] || (Permitted(w, events[0]) && Legal(After(w, events[0]), events[1..]))
  }

  function Run(w: World, events: seq<Event>): World
    decreases |events|
  {
    if events == [] then w else Run(After(w, events[0]), events[1..])
  }

  // ---------------------------------------------------------------- the invariant

  ghost predicate InFlight(slots: seq<Slot>, seqNo: int) {
    exists i :: 0 <= i < |slots| && slots[i].flag == 1 && slots[i].seqNo == seqNo
  }

  /** Sizes and ranges. */
  ghost predicate Ranges(w: World) {
    var p := w.p;
    && |p.slots| == SLOTS && 0 <= p.recv <= p.sent <= 0x7fff
    && (forall i :: 0 <= i < SLOTS ==> p.slots[i].flag == 0 || p.slots[i].flag == 1)
    && (forall i :: 0 <= i < SLOTS ==> 0 <= p.slots[i].seqNo && (p.slots[i].seqNo < p.sent || p.slots[i] == IDLE))
    && (forall q :: q in w.awaiting ==> 0 <= q < p.sent)
    && (forall q :: q in w.untracked ==> 0 < q < p.sent)
    && (forall q :: q in w.begins <==> 0 <= q < p.sent)
    && (forall q :: q in w.begins ==> Normal(w.begins[q]))
  }

  /** A slot in flight is the first one with its sequence number, and holds its packet's time. */
  ghost predicate Tracks(w: World) {
    && |w.p.slots| == SLOTS
    && (forall i :: 0 <= i < SLOTS && w.p.slots[i].flag == 1 ==>
        var q := w.p.slots[i].seqNo;
        q in w.awaiting && q !in w.untracked && q in w.begins && w.p.slots[i].begin == w.begins[q])
    && (forall i, j :: 0 <= i < j < SLOTS && w.p.slots[j].flag == 1 ==> w.p.slots[i].seqNo != w.p.slots[j].seqNo)
  }

  /** A slot that is not in flight carries no sequence number still awaited, except that slots
      never used carry 0, which packet 0 may wait for in slot 0. */
  ghost predicate StaleIsHarmless(w: World) {
    && |w.p.slots| == SLOTS
    && (forall q :: q in w.awaiting && q !in w.untracked ==> InFlight(w.p.slots, q))
    && (forall i :: 0 <= i < SLOTS ==> w.p.slots[i].seqNo !in w.untracked)
    && (w.p.sent == 0 ==> forall i :: 0 <= i < SLOTS ==> w.p.slots[i] == IDLE)
  }

  ghost predicate Accounts(w: World) {
    w.p.sent == w.p.recv + Outstanding(w.p.slots) + |w.untracked|
  }

  ghost predicate Recorded(w: World) {
    w.p.samples == w.expected && |w.p.samples| == w.p.recv && w.p.total == Statistics.Sum(w.p.samples)
  }

  ghost predicate Invariant(w: World) {
    Identifies(w.pid) && Ranges(w) && Tracks(w) && StaleIsHarmless(w) && Accounts(w) && Recorded(w)
  }

  /** A packet sent goes into the first free slot; only if there is none it is sent untracked. */
  lemma SentIsTracked(w: World, now: Time)
    requires 0 <= w.p.sent < 0x7fff
    ensures var w', slots := After(w, SendEvent(now)), w.p.slots;
      && w'.p.sent == w.p.sent + 1 && w'.p.recv == w.p.recv && w'.p.samples == w.p.samples
      && (forall i :: 0 <= i < |slots| && slots[i].flag == 0 && (forall j :: 0 <= j < i ==> slots[j].flag != 0) ==>
            w'.p.slots == slots[i := Slot(w.p.sent, 1, now)] && w'.untracked == w.untracked)
      && ((forall i :: 0 <= i < |slots| ==> slots[i].flag != 0) ==>
            w'.p.slots == slots && w'.untracked == w.untracked + {w.p.sent})
  {
    var i := Find(w.p.slots, -1, 0);
    assert i != -1 ==> Matches(w.p.slots[i], -1);
    assert forall j :: 0 <= j < (if i == -1 then |w.p.slots| else i) ==> !Matches(w.p.slots[j], -1);
    assert w.untracked + {} == w.untracked;
  }

  lemma SendKeepsTracks(w: World, now: Time)
    requires Ranges(w) && Tracks(w) && StaleIsHarmless(w) && Permitted(w, SendEvent(now))
    ensures Tracks(After(w, SendEvent(now)))
  {}

  lemma SendKeepsHarmless(w: World, now: Time)
    requires Ranges(w) && StaleIsHarmless(w) && Permitted(w, SendEvent(now))
    ensures StaleIsHarmless(After(w, SendEvent(now)))
  {
    var w' := After(w, SendEvent(now));
    var i := Find(w.p.slots, -1, 0);
    forall q | q in w'.awaiting && q !in w'.untracked ensures InFlight(w'.p.slots, q) {
      if q == w.p.sent {
        assert w'.p.slots[i].seqNo == q;
      } else {
        var j :| 0 <= j < SLOTS && w.p.slots[j].flag == 1 && w.p.slots[j].seqNo == q;
        assert w'.p.slots[j] == w.p.slots[j];
      }
    }
  }

  lemma SendKeepsRanges(w: World, now: Time)
    requires Ranges(w) && StaleIsHarmless(w) && Permitted(w, SendEvent(now))
    ensures Ranges(After(w, SendEvent(now)))
  {}

  lemma SendFillsSlot(p: Pinger, now: Time)
    ensures Outstanding(Send(p, now).slots) == Outstanding(p.slots) + if Find(p.slots, -1, 0) == -1 then 0 else 1
  {
    var i := Find(p.slots, -1, 0);
    if i != -1 {
      OutstandingUpdate(p.slots, i, Slot(p.sent, 1, now));
    }
  }

  lemma SendKeepsAccounts(w: World, now: Time)
    requires 0 <= w.p.sent < 0x7fff && w.p.sent !in w.untracked && Accounts(w)
    ensures Accounts(After(w, SendEvent(now)))
  {
    SendFillsSlot(w.p, now);
    assert w.untracked + {} == w.untracked;
  }

  lemma SendKeepsRecorded(w: World, now: Time)
    requires Recorded(w)
    ensures Recorded(After(w, SendEvent(now)))
  {}

  /** A reply to a tracked packet finds that packet's own slot, with its own start time. */
  lemma ReplyFindsOwnSlot(w: World, q: nat)
    requires Ranges(w) && Tracks(w) && StaleIsHarmless(w) && q in w.awaiting
    ensures q in w.begins
    ensures var i := Find(w.p.slots, q, 0);
      if q in w.untracked then i == -1
      else i != -1 && w.p.slots[i] == Slot(q, 1, w.begins[q])
  {
    if q !in w.untracked {
      var j :| 0 <= j < SLOTS && w.p.slots[j].flag == 1 && w.p.slots[j].seqNo == q;
      assert Matches(w.p.slots[j], q);
      var i := Find(w.p.slots, q, 0);
      assert w.p.slots[i].seqNo == q;
    }
  }

  lemma ReplyKeepsTable(w: World, q: nat, now: Time)
    requires Identifies(w.pid) && Ranges(w) && Tracks(w) && StaleIsHarmless(w) && Permitted(w, ReplyEvent(q, now))
    ensures Tracks(After(w, ReplyEvent(q, now)))
    ensures StaleIsHarmless(After(w, ReplyEvent(q, now)))
  {
    ReplyFindsOwnSlot(w, q);
    var w' := After(w, ReplyEvent(q, now));
    forall r | r in w'.awaiting && r !in w'.untracked ensures InFlight(w'.p.slots, r) {
      var j :| 0 <= j < SLOTS && w.p.slots[j].flag == 1 && w.p.slots[j].seqNo == r;
      assert w'.p.slots[j] == w.p.slots[j];
    }
  }

  lemma {:induction false} OutstandingPositive(slots: seq<Slot>, i: nat)
    requires i < |slots| && slots[i].flag != 0
    ensures Outstanding(slots) > 0
  {
    if i > 0 {
      OutstandingPositive(slots[1..], i - 1);
    }
  }

  lemma ReplyKeepsAccounts(w: World, q: nat, now: Time)
    requires Invariant(w) && Permitted(w, ReplyEvent(q, now))
    ensures Accounts(After(w, ReplyEvent(q, now))) && Recorded(After(w, ReplyEvent(q, now)))
    ensures w.p.recv <= After(w, ReplyEvent(q, now)).p.recv <= w.p.sent
  {
    ReplyFindsOwnSlot(w, q);
    var i := Find(w.p.slots, q, 0);
    if i != -1 {
      OutstandingUpdate(w.p.slots, i, w.p.slots[i].(flag := 0));
      OutstandingPositive(w.p.slots, i);
      var rtt := Rtt(now, w.begins[q]);
      RttIsFloor(now, w.begins[q]);
      assert rtt == (Micros(now) - Micros(w.begins[q])) / 1000;
      assert (w.p.samples + [rtt as real])[..|w.p.samples|] == w.p.samples;
    }
  }

  lemma ReplyKeepsRanges(w: World, q: nat, now: Time)
    requires Invariant(w) && Permitted(w, ReplyEvent(q, now))
    ensures Ranges(After(w, ReplyEvent(q, now)))
  {
    ReplyFindsOwnSlot(w, q);
    ReplyKeepsAccounts(w, q, now);
  }

  lemma EventKeepsInvariant(w: World, e: Event)
    requires Invariant(w) && Permitted(w, e)
    ensures Invariant(After(w, e))
  {
    match e
    case SendEvent(now) =>
      SendKeepsRanges(w, now);
      SendKeepsTracks(w, now);
      SendKeepsHarmless(w, now);
      SendKeepsAccounts(w, now);
      SendKeepsRecorded(w, now);
    case ReplyEvent(q, now) =>
      ReplyKeepsRanges(w, q, now);
      ReplyKeepsTable(w, q, now);
      ReplyKeepsAccounts(w, q, now);
    case OtherEvent(_, _, _, _, _, _) =>
  }

  lemma {:induction false} RunKeepsInvariant(w: World, events: seq<Event>)
    requires Invariant(w) && Legal(w, events)
    ensures Invariant(Run(w, events))
    decreases |events|
  {
    if events != [] {
      EventKeepsInvariant(w, events[0]);
      RunKeepsInvariant(After(w, events[0]), events[1..]);
    }
  }

  lemma StartInvariant(pid: int)
    requires Identifies(pid)
    ensures Invariant(Start(pid))
  {
    NothingOutstanding(Start(pid).p.slots);
  }

  /** With a process id that the id field cannot hold, no reply is ever recorded. */
  ghost predicate Deaf(w: World) {
    !Identifies(w.pid) && w.p.recv == 0 && w.p.samples == [] && w.p.total == 0.0 && 0 <= w.p.sent <= 0x7fff
  }

  lemma {:induction false} RunStaysDeaf(w: World, events: seq<Event>)
    requires Deaf(w) && Legal(w, events)
    ensures Deaf(Run(w, events))
    decreases |events|
  {
    if events != [] {
      RunStaysDeaf(After(w, events[0]), events[1..]);
    }
  }

  /** What every legal run guarantees if the process id fits the id field: packets in flight have
      different sequence numbers and their own start times, every packet sent is answered, in
      flight or was sent while the table was full, and the samples are those a perfect observer
      would have recorded. */
  lemma EveryRunIsAccounted(pid: int, events: seq<Event>)
    requires Identifies(pid) && Legal(Start(pid), events)
    ensures var w := Run(Start(pid), events);
      && |w.p.slots| == SLOTS
      && (forall i, j :: 0 <= i < j < SLOTS && w.p.slots[i].flag == 1 && w.p.slots[j].flag == 1 ==>
            w.p.slots[i].seqNo != w.p.slots[j].seqNo)
      && (forall i :: 0 <= i < SLOTS && w.p.slots[i].flag == 1 ==>
            w.p.slots[i].seqNo in w.begins && w.p.slots[i].begin == w.begins[w.p.slots[i].seqNo])
      && w.p.sent == w.p.recv + Outstanding(w.p.slots) + |w.untracked|
      && w.p.samples == w.expected && |w.p.samples| == w.p.recv
      && w.p.total == Statistics.Sum(w.p.samples)
  {
    StartInvariant(pid);
    RunKeepsInvariant(Start(pid), events);
  }

  /** For any process id: the samples are the true ones exactly if the id field can hold it, or
      there was nothing to record. */
  lemma SamplesAreTrue(pid: int, events: seq<Event>)
    requires Legal(Start(pid), events)
    ensures var w := Run(Start(pid), events);
      w.p.samples == w.expected <==> Identifies(pid) || w.expected == []
  {
    if Identifies(pid) {
      EveryRunIsAccounted(pid, events);
    } else {
      RunStaysDeaf(Start(pid), events);
    }
  }

  /** The reply clears the slot of packet q and records the time since q was sent. */
  ghost predicate Answers(w: World, q: nat, now: Time, p: Pinger)
    requires q in w.begins
  {
    var i := Find(w.p.slots, q, 0);
    && i != -1 && w.p.slots[i] == Slot(q, 1, w.begins[q])
    && p.slots == w.p.slots[i := Slot(q, 0, w.begins[q])]
    && p.samples == w.p.samples + [((Micros(now) - Micros(w.begins[q])) / 1000) as real]
    && p.recv == w.p.recv + 1 && p.sent == w.p.sent
  }

  lemma ReplyAnswers(w: World, q: nat, now: Time)
    requires Ranges(w) && Tracks(w) && StaleIsHarmless(w) && Permitted(w, ReplyEvent(q, now))
    ensures q in w.begins
    ensures if q in w.untracked then Reply(w.p, q, now) == w.p else Answers(w, q, now, Reply(w.p, q, now))
  {
    ReplyFindsOwnSlot(w, q);
    if q !in w.untracked {
      RttIsFloor(now, w.begins[q]);
      assert Rtt(now, w.begins[q]) == (Micros(now) - Micros(w.begins[q])) / 1000;
    }
  }

  /** In every legal run a reply to a tracked packet clears exactly that packet's slot and records
      the time since that packet was sent; a reply to an untracked one changes nothing. */
  lemma ReplyInAnyRun(pid: int, events: seq<Event>, q: nat, now: Time)
    requires Identifies(pid) && Legal(Start(pid), events)
    requires Permitted(Run(Start(pid), events), ReplyEvent(q, now))
    ensures var w := Run(Start(pid), events);
      && q in w.begins
      && if q in w.untracked then Reply(w.p, q, now) == w.p else Answers(w, q, now, Reply(w.p, q, now))
  {
    StartInvariant(pid);
    RunKeepsInvariant(Start(pid), events);
    ReplyAnswers(Run(Start(pid), events), q, now);
  }

  /** Without the assumption that replies are not repeated: a reply leaves the difference between
      packets sent, received and in flight unchanged exactly if it finds no slot or one in flight.
      icmp_findpacket does not look at the flag when it searches for a sequence number. */
  lemma ReplyKeepsDifference(p: Pinger, q: nat, now: Time)
    requires 0 <= p.recv < 0x7fff
    ensures var p', i := Reply(p, q, now), Find(p.slots, q, 0);
      p'.sent - p'.recv - Outstanding(p'.slots) == p.sent - p.recv - Outstanding(p.slots)
      <==> i == -1 || p.slots[i].flag != 0
  {
    var i := Find(p.slots, q, 0);
    if i != -1 {
      OutstandingUpdate(p.slots, i, p.slots[i].(flag := 0));
    }
  }

  /** A repeated reply is counted twice. */
  lemma DuplicateReplyIsCounted(t: Time)
    ensures var p := Reply(Reply(Send(Start(1).p, t), 0, t), 0, t);
      p.sent == 1 && p.recv == 2
  {
    var p := Send(Start(1).p, t);
    assert p.slots[0] == Slot(0, 1, t);
    assert Reply(p, 0, t).slots[0] == Slot(0, 0, t);
  }

  // ---------------------------------------------------------------- the program

  const ICMP_ECHOREPLY := 0

  /** The id that a program with the given process id puts into its messages. */
  function IdOf(pid: int): Checksum.uint16 { (pid % 0x1_0000) as Checksum.uint16 }

  /** The id of one of the program's own messages, which a reply brings back, equals its process id
      exactly if that fits the id field. */
  lemma OwnReplyAccepted(order: Checksum.Endian, sent: seq<byte>, seqNo: int, pid: int)
    requires Checksum.Message(order, sent, seqNo, pid, 64)
    ensures var id := Checksum.Load(order, sent[4], sent[5]);
      id == IdOf(pid) && (id as int == pid <==> 0 <= pid <= 0xffff) && (Identifies(pid) <==> 0 <= pid <= 0xffff)
  {
    assert Checksum.Load(order, sent[4], sent[5]) == IdOf(pid);
  }

  /** Process 65536 sends the id 0 and drops the reply that carries it. */
  lemma LargePidIsDeaf(t: Time)
    requires Normal(t)
    ensures var events := [SendEvent(t), ReplyEvent(0, t)];
      && IdOf(65536) == 0 && Legal(Start(65536), events)
      && Run(Start(65536), events).p.recv == 0 && Run(Start(65536), events).expected == [0.0]
  {
    var w := After(Start(65536), SendEvent(t));
    assert w.p.slots[0] == Slot(0, 1, t) && 0 in w.awaiting && Permitted(w, ReplyEvent(0, t));
    var events := [SendEvent(t), ReplyEvent(0, t)];
    var w' := After(w, ReplyEvent(0, t));
    assert events[1..] == [ReplyEvent(0, t)] && events[1..][1..] == [];
    assert Run(w, events[1..]) == Run(w', []) == w';
    assert w'.expected == [0.0];
  }

  lemma ProductGap(a: int, b: int, n: int)
    requires a <= b && n > 0
    ensures a * n <= b * n
  {}

  lemma QuotientBounds(x: int, n: int, k: int)
    requires n > 0 && 0 <= x <= k * n
    ensures x / n * n <= x < (x / n + 1) * n && 0 <= x / n <= k
    ensures x / n == k <==> x == k * n
  {
    var q := x / n;
    assert x == n * q + x % n;
    if q < 0 {
      ProductGap(q, -1, n);
    } else if q > k {
      ProductGap(k + 1, q, n);
    } else if q < k {
      ProductGap(q + 1, k, n);
    }
  }

  /** The loss in percent is rounded down, and 100 only if nothing was received. */
  lemma LossInPercent(sent: int, recv: int)
    requires 0 <= recv <= sent && sent >= 1
    ensures var loss := (sent - recv) * 100 / sent;
      && 0 <= loss <= 100 && (loss == 100 <==> recv == 0)
      && loss * sent <= 100 * (sent - recv) < (loss + 1) * sent
  {
    QuotientBounds((sent - recv) * 100, sent, 100);
  }

  /** The globals of ping.c. */
  class Ping {
    const order: Checksum.Endian
    const pid: int
    const slots: array<Slot>
    const tmpRtt: array<real>
    const sendBuff: array<byte>
    var packetSend: int
    var packetRecv: int
    var allTime: real

    ghost predicate Valid()
      reads this
    {
      && slots.Length == SLOTS && tmpRtt.Length == Statistics.MAX && sendBuff.Length == Checksum.BUFFSIZE
      && 0 <= packetRecv <= Statistics.MAX
    }

    ghost function View(): Pinger
      requires Valid()
      reads this, slots, tmpRtt
    {
      Pinger(slots[..], packetSend, packetRecv, tmpRtt[..packetRecv], allTime)
    }

    constructor (order: Checksum.Endian, pid: int)
      ensures Valid() && View() == Start(pid).p && this.pid == pid && this.order == order
      ensures fresh(slots) && fresh(tmpRtt) && fresh(sendBuff)
      ensures slots.Length == 128 && tmpRtt.Length == 10000 && sendBuff.Length == 72
    {
      this.order, this.pid := order, pid;
      slots, tmpRtt := new Slot[SLOTS](_ => IDLE), new real[Statistics.MAX](_ => 0.0);
      sendBuff := new byte[Checksum.BUFFSIZE](_ => 0);
      packetSend, packetRecv, allTime := 0, 0, 0.0;
      new;
      assert slots[..] == Start(pid).p.slots;
    }

    /** icmp_findpacket, with positions for pointers and -1 for NULL. */
    method FindPacket(seqNo: int) returns (found: int)
      requires Valid()
      ensures found == Find(slots[..], seqNo, 0) && -1 <= found < 128
      ensures var end := if found == -1 then 128 else found;
        if seqNo == -1 then
          (found != -1 ==> slots[found].flag == 0) && (forall i :: 0 <= i < end ==> slots[i].flag != 0)
        else if seqNo >= 0 then
          (found != -1 ==> slots[found].seqNo == seqNo) && (forall i :: 0 <= i < end ==> slots[i].seqNo != seqNo)
        else
          found == -1
    {
      found := -1;
      if seqNo == -1 {
        var i := 0;
        while i < SLOTS
          invariant 0 <= i <= SLOTS && Find(slots[..], seqNo, 0) == Find(slots[..], seqNo, i)
        {
          if slots[i].flag == 0 {
            return i;
          }
          i := i + 1;
        }
      } else if seqNo >= 0 {
        var i := 0;
        while i < SLOTS
          invariant 0 <= i <= SLOTS && Find(slots[..], seqNo, 0) == Find(slots[..], seqNo, i)
        {
          if slots[i].seqNo == seqNo {
            return i;
          }
          i := i + 1;
        }
      }
    }

    /** One turn of the loop of icmp_send whose sendto succeeds: sendBuff[..64] goes out. */
    method SendPacket(now: Time)
      requires Valid()
      modifies this, slots, sendBuff
      ensures Valid() && View() == Send(old(View()), now)
      ensures Checksum.Message(order, sendBuff[..], old(packetSend), pid, 64)
      ensures Checksum.Verifies(order, sendBuff[..64])
    {
      var packet := FindPacket(-1);
      if packet != -1 {
        slots[packet] := Slot(packetSend, 1, now);
      }
      Checksum.IcmpPack(order, sendBuff, packetSend, pid, 64);
      packetSend := ToShort(packetSend + 1);
    }

    /** icmp_unpack on a packet of len bytes whose IP header has ipHl words.  A packet that is too
        short, no Echo Reply or not for this process changes nothing. */
    method Unpack(len: int, ipHl: nat, icmpType: int, icmpId: Checksum.uint16, icmpSeq: nat, now: Time)
      returns (ok: bool)
      requires Valid()
      requires len - 4 * ipHl >= 8 && icmpType == 0 && icmpId as int == pid && Find(slots[..], icmpSeq, 0) != -1 ==>
                 packetRecv < Statistics.MAX
      modifies this, slots, tmpRtt
      ensures Valid()
      ensures len - 4 * ipHl < 8 || icmpType != 0 || icmpId as int != pid ==> !ok && View() == old(View())
      ensures len - 4 * ipHl >= 8 && icmpType == 0 && icmpId as int == pid ==>
                View() == Reply(old(View()), icmpSeq, now) && ok == (Find(old(slots[..]), icmpSeq, 0) != -1)
    {
      if len - 4 * ipHl < 8 {
        return false;
      }
      if icmpType != ICMP_ECHOREPLY || icmpId as int != pid {
        return false;
      }
      var packet := FindPacket(icmpSeq);
      if packet == -1 {
        return false;
      }
      slots[packet] := slots[packet].(flag := 0);
      var rtt := Rtt(now, slots[packet].begin);
      tmpRtt[packetRecv] := rtt as real;
      allTime := allTime + rtt as real;
      assert tmpRtt[..packetRecv + 1] == old(tmpRtt[..packetRecv]) + [rtt as real];
      packetRecv := ToShort(packetRecv + 1);
      return true;
    }

    /** icmp_statistics: packet loss in percent and the round-trip figures, which are not numbers
        when nothing was received. */
    method Report() returns (loss: int, figures: Statistics.Figures)
      requires Valid() && packetRecv <= packetSend && packetSend >= 1
      requires allTime == Statistics.Sum(tmpRtt[..packetRecv])
      ensures 0 <= loss <= 100 && (loss == 100 <==> packetRecv == 0)
      ensures loss * packetSend <= 100 * (packetSend - packetRecv) < (loss + 1) * packetSend
      ensures Statistics.FiguresOf(tmpRtt[..packetRecv], figures)
    {
      figures := Statistics.NotNumbers;
      if packetRecv > 0 {
        var min, max, avg, mdev := Statistics.CalRtt(tmpRtt, packetRecv, allTime);
        figures := Statistics.Figures(min, max, avg, mdev);
      }
      loss := (packetSend - packetRecv) * 100 / packetSend;
      LossInPercent(packetSend, packetRecv);
    }
  }

  /** The world as the program meets it in a legal run. */
  ghost predicate Sound(w: World) { Invariant(w) || Deaf(w) }

  lemma EventKeepsSound(w: World, e: Event)
    requires Sound(w) && Permitted(w, e)
    ensures Sound(After(w, e))
  {
    if Invariant(w) {
      EventKeepsInvariant(w, e);
    }
  }

  lemma StartSound(pid: int)
    ensures Sound(Start(pid))
  {
    if Identifies(pid) {
      StartInvariant(pid);
    }
  }

  /** The program on one permitted event; a reply brings back the id of the program's messages. */
  method Handle(ping: Ping, e: Event, ghost w: World)
    requires ping.Valid() && ping.View() == w.p && ping.pid == w.pid && Sound(w) && Permitted(w, e)
    modifies ping, ping.slots, ping.tmpRtt, ping.sendBuff
    ensures ping.Valid() && ping.View() == After(w, e).p && Sound(After(w, e))
  {
    EventKeepsSound(w, e);
    match e {
      case SendEvent(now) => ping.SendPacket(now);
      case ReplyEvent(seqNo, now) =>
        if Identifies(ping.pid) {
          ReplyFindsOwnSlot(w, seqNo);
        }
        var ok := ping.Unpack(28, 5, ICMP_ECHOREPLY, IdOf(ping.pid), seqNo, now);
      case OtherEvent(len, ipHl, icmpType, icmpId, icmpSeq, now) =>
        var ok := ping.Unpack(len, ipHl, icmpType, icmpId, icmpSeq, now);
    }
  }

  lemma NextEvent(w: World, events: seq<Event>, i: nat)
    requires i < |events| && Legal(w, events[i..])
    ensures Permitted(w, events[i]) && Legal(After(w, events[i]), events[i + 1..])
    ensures Run(After(w, events[i]), events[i + 1..]) == Run(w, events[i..])
  {
    assert events[i..][0] == events[i] && events[i..][1..] == events[i + 1..];
  }

  method HandleAll(ping: Ping, events: seq<Event>)
    requires ping.Valid() && ping.View() == Start(ping.pid).p && Legal(Start(ping.pid), events)
    modifies ping, ping.slots, ping.tmpRtt, ping.sendBuff
    ensures ping.Valid() && ping.View() == Run(Start(ping.pid), events).p
  {
    ghost var w := Start(ping.pid);
    StartSound(ping.pid);
    assert events[0..] == events;
    var i := 0;
    while i < |events|
      invariant 0 <= i <= |events| && Sound(w)
      invariant ping.Valid() && ping.View() == w.p && ping.pid == w.pid
      invariant Legal(w, events[i..]) && Run(w, events[i..]) == Run(Start(ping.pid), events)
    {
      NextEvent(w, events, i);
      Handle(ping, events[i], w);
      w := After(w, events[i]);
      i := i + 1;
    }
  }

  /** The program on any legal run of sends and replies, with any process id. */
  method Execute(order: Checksum.Endian, pid: int, events: seq<Event>) returns (ping: Ping)
    requires Legal(Start(pid), events)
    ensures fresh(ping) && ping.Valid() && ping.View() == Run(Start(pid), events).p
  {
    ping := new Ping(order, pid);
    HandleAll(ping, events);
  }

  /** A whole session: a legal run that sent something, then the report.  Its figures are those of
      the true samples if the process id fits the id field; otherwise all packets are lost. */
  method Session(order: Checksum.Endian, pid: int, events: seq<Event>)
    returns (loss: int, figures: Statistics.Figures)
    requires Legal(Start(pid), events) && Run(Start(pid), events).p.sent >= 1
    ensures var w := Run(Start(pid), events);
      if Identifies(pid) then
        && 0 <= loss <= 100 && (loss == 100 <==> w.expected == [])
        && loss * w.p.sent <= 100 * (Outstanding(w.p.slots) + |w.untracked|) < (loss + 1) * w.p.sent
        && Statistics.FiguresOf(w.expected, figures)
      else
        loss == 100 && figures == Statistics.NotNumbers
  {
    var ping := Execute(order, pid, events);
    if Identifies(pid) {
      EveryRunIsAccounted(pid, events);
    } else {
      RunStaysDeaf(Start(pid), events);
    }
    loss, figures := ping.Report();
  }
}
