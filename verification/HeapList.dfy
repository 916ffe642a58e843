/** The linked list of listcp.c, with a sentinel node, on a heap with malloc and free.

    Nodes are Dafny objects; which of them malloc has handed out and free has not yet taken back is
    recorded in ghost state.  Every access to a node goes through a member that requires the node
    to be live, so verification rules out access after free and double free. */
module HeapList {

  class Node {
    var data: int
    var next: Node?
    constructor (data: int, next: Node?)
      ensures this.data == data && this.next == next
    {
      this.data, this.next := data, next;
    }
  }

  ghost predicate Distinct(nodes: seq<Node>) {
    forall i, j :: 0 <= i < j < |nodes| ==> nodes[i] != nodes[j]
  }

  lemma SecondInserted(nodes: seq<Node>, n: Node)
    requires nodes != [] && Distinct(nodes) && n !in nodes
    ensures var after := [nodes[0], n] + nodes[1..];
      && Distinct(after) && (set m | m in after) == (set m | m in nodes) + {n}
      && |after| == |nodes| + 1 && forall i :: 2 <= i < |after| ==> after[i] == nodes[i - 1]
  {
    assert nodes == [nodes[0]] + nodes[1..];
  }

  lemma SecondRemoved(nodes: seq<Node>)
    requires |nodes| > 1 && Distinct(nodes)
    ensures var after := [nodes[0]] + nodes[2..];
      && Distinct(after) && (set m | m in after) == (set m | m in nodes) - {nodes[1]}
      && |after| == |nodes| - 1 && forall i :: 1 <= i < |after| ==> after[i] == nodes[i + 1]
  {
    assert nodes == [nodes[0], nodes[1]] + nodes[2..];
  }

  class List {
    var head: Node?
    ghost var live: set<Node>    // handed out by malloc and not yet freed
    ghost var freed: set<Node>   // freed
    ghost var spine: seq<Node>   // the sentinel and the nodes after it
    ghost var mallocs: nat       // how many calls of malloc and of free there have been
    ghost var frees: nat

    /** An acyclic chain from head to NULL, made of exactly the live nodes: nothing has leaked. */
    ghost predicate Valid()
      reads this, spine
    {
      && |spine| >= 1 && head == spine[0]
      && live == (set n | n in spine) && live !! freed
      && Distinct(spine)
      && (forall i :: 0 <= i < |spine| - 1 ==> spine[i].next == spine[i + 1])
      && spine[|spine| - 1].next == null
      && mallocs == frees + |spine|
    }

    ghost function Contents(): seq<int>
      requires Valid()
      reads this, spine
    {
      seq(|spine| - 1, i requires 0 <= i < |spine| - 1 && Valid() reads this, spine => spine[i + 1].data)
    }

    // -------------------------------------------------------------- memory

    function Data(n: Node): int
      requires n in live
      reads this, n
    {
      n.data
    }

    function NextOf(n: Node): Node?
      requires n in live
      reads this, n
    {
      n.next
    }

    method SetNext(n: Node, next: Node?)
      requires n in live
      modifies n`next
      ensures n.next == next
    {
      n.next := next;
    }

    /** malloc succeeds. */
    method AllocNode(d: int, next: Node?) returns (n: Node)
      modifies this`live, this`mallocs
      ensures fresh(n) && n.data == d && n.next == next
      ensures live == old(live) + {n} && mallocs == old(mallocs) + 1
    {
      n := new Node(d, next);
      live, mallocs := live + {n}, mallocs + 1;
    }

    method FreeNode(n: Node?)
      requires n == null || n in live
      modifies this`live, this`freed, this`frees
      ensures n == null ==> live == old(live) && freed == old(freed) && frees == old(frees)
      ensures n != null ==> live == old(live) - {n} && freed == old(freed) + {n} && frees == old(frees) + 1
    {
      if n != null {
        live, freed, frees := live - {n}, freed + {n}, frees + 1;
      }
    }

    // -------------------------------------------------------------- the list

    /** InitList on a heap with nothing allocated. */
    constructor ()
      ensures Valid() && Contents() == [] && freed == {} && mallocs == 1
      ensures fresh(live)
    {
      var n := new Node(0, null);
      head, live, freed, spine := n, {n}, {}, [n];
      mallocs, frees := 1, 0;
    }

    predicate IsEmpty(n: Node)
      requires n in live
      reads this, n
    {
      NextOf(n) == null
    }

    lemma EmptyMeansNoContents()
      requires Valid()
      ensures head in live && (IsEmpty(head) <==> Contents() == [])
    {
      assert spine[0] in live;
      assert |Contents()| == |spine| - 1;
      if |spine| > 1 {
        assert spine[0].next == spine[1];
      }
    }

    method PushFront(n: Node, d: int)
      requires Valid() && n == head
      modifies this, n
      ensures Valid() && Contents() == [d] + old(Contents())
      ensures head == old(head) && freed == old(freed) && mallocs == old(mallocs) + 1
      ensures live >= old(live) && fresh(live - old(live))
    {
      assert spine[0] in live;
      ghost var before := spine;
      var tmp := AllocNode(d, null);
      SetNext(tmp, NextOf(n));
      SetNext(n, tmp);
      SecondInserted(before, tmp);
      spine := [n, tmp] + before[1..];
    }

    /** Leaves `out` alone when the list is empty. */
    method PopFront(n: Node, out: int) returns (out': int)
      requires Valid() && n == head
      modifies this, n
      ensures Valid() && head == old(head)
      ensures old(Contents()) == [] ==> out' == out && Contents() == [] && live == old(live) && freed == old(freed)
      ensures old(Contents()) != [] ==> old(Contents()) == [out'] + Contents()
      ensures live <= old(live) && live + freed == old(live + freed) && mallocs == old(mallocs)
    {
      EmptyMeansNoContents();
      out' := out;
      if !IsEmpty(n) {
        ghost var before := spine;
        assert before[1] in live;
        var tmp := NextOf(n);
        assert tmp == before[1];
        SetNext(n, NextOf(tmp));
        out' := Data(tmp);
        FreeNode(tmp);
        SecondRemoved(before);
        spine := [n] + before[2..];
      }
    }

    /** Frees every node that was ever allocated; FreeNode's precondition says that none is freed
        twice. */
    method Destory(n: Node)
      requires Valid() && n == head
      modifies this, n
      ensures live == {} && freed == old(live + freed) && frees == mallocs == old(mallocs)
    {
      var data := 0;
      EmptyMeansNoContents();
      while !IsEmpty(n)
        invariant Valid() && n == head && n in live
        invariant live + freed == old(live + freed) && mallocs == old(mallocs)
        decreases |Contents()|
      {
        EmptyMeansNoContents();
        data := PopFront(n, data);
        EmptyMeansNoContents();
      }
      EmptyMeansNoContents();
      assert |Contents()| == |spine| - 1;
      assert spine == [n] && live == {n};
      FreeNode(n);
    }

  }

  // ---------------------------------------------------------------- sequences of operations

  datatype Op = Push(d: int) | Pop

  /** The contents after the operations and the values popped, from the given contents. */
  function Run(contents: seq<int>, ops: seq<Op>): (r: (seq<int>, seq<int>))
    decreases |ops|
  {
    if ops == [] then (contents, [])
    else
      match ops[0]
      case Push(d) => Run([d] + contents, ops[1..])
      case Pop =>
        if contents == [] then Run(contents, ops[1..])
        else
          var (rest, popped) := Run(contents[1..], ops[1..]);
          (rest, [contents[0]] + popped)
  }

  function Pushed(ops: seq<Op>): seq<int> {
    if ops == [] then [] else (if ops[0].Push? then [ops[0].d] else []) + Pushed(ops[1..])
  }

  lemma MoveOver(d: multiset<int>, c: multiset<int>, p: multiset<int>)
    ensures c + (d + p) == (d + c) + p == d + (c + p)
  {}

  lemma AsMultiset(x: int, s: seq<int>)
    ensures multiset([x] + s) == multiset{x} + multiset(s)
  {}

  lemma PushCounts(d: int, contents: seq<int>, more: seq<int>, all: multiset<int>)
    requires multiset([d] + contents) + multiset(more) == all
    ensures multiset(contents) + multiset([d] + more) == all
  {
    AsMultiset(d, contents);
    AsMultiset(d, more);
    MoveOver(multiset{d}, multiset(contents), multiset(more));
  }

  lemma PopCounts(c: int, rest: seq<int>, more: seq<int>, popped: seq<int>, last: seq<int>)
    requires multiset(rest) + multiset(more) == multiset(popped) + multiset(last)
    ensures multiset([c] + rest) + multiset(more) == multiset([c] + popped) + multiset(last)
  {
    AsMultiset(c, rest);
    AsMultiset(c, popped);
    MoveOver(multiset{c}, multiset(rest), multiset(more));
    MoveOver(multiset{c}, multiset(popped), multiset(last));
  }

  /** Nothing is lost or invented: what was there and what was pushed is popped or still there. */
  lemma {:induction false} NothingLost(contents: seq<int>, ops: seq<Op>)
    ensures var (rest, popped) := Run(contents, ops);
      multiset(contents) + multiset(Pushed(ops)) == multiset(popped) + multiset(rest)
    decreases |ops|
  {
    if ops == [] {
    } else if ops[0].Push? {
      var d := ops[0].d;
      var (last, popped) := Run([d] + contents, ops[1..]);
      NothingLost([d] + contents, ops[1..]);
      PushCounts(d, contents, Pushed(ops[1..]), multiset(popped) + multiset(last));
    } else {
      assert Pushed(ops) == Pushed(ops[1..]);
      if contents == [] {
        NothingLost(contents, ops[1..]);
      } else {
        var (last, popped) := Run(contents[1..], ops[1..]);
        NothingLost(contents[1..], ops[1..]);
        PopCounts(contents[0], contents[1..], Pushed(ops), popped, last);
        assert contents == [contents[0]] + contents[1..];
      }
    }
  }

  /** From a list with `height` values to spare, pops never reach below them, and the list ends
      `final` values higher than where it must not reach. */
  predicate StaysAbove(ops: seq<Op>, height: nat, final: nat) {
    if ops == [] then height == final
    else if ops[0].Push? then StaysAbove(ops[1..], height + 1, final)
    else height > 0 && StaysAbove(ops[1..], height - 1, final)
  }

  /** Operations that stay above a part of the list do not see it. */
  lemma {:induction false} BelowIsUntouched(top: seq<int>, base: seq<int>, ops: seq<Op>, final: nat)
    requires StaysAbove(ops, |top|, final)
    ensures var (rest, popped) := Run(top, ops);
      |rest| == final && Run(top + base, ops) == (rest + base, popped)
    decreases |ops|
  {
    if ops != [] {
      match ops[0]
      case Push(d) =>
        assert [d] + (top + base) == ([d] + top) + base;
        BelowIsUntouched([d] + top, base, ops[1..], final);
      case Pop =>
        assert (top + base)[1..] == top[1..] + base;
        BelowIsUntouched(top[1..], base, ops[1..], final);
    }
  }

  lemma {:induction false} RunConcat(contents: seq<int>, a: seq<Op>, b: seq<Op>)
    ensures var (mid, p) := Run(contents, a);
      var (rest, q) := Run(mid, b);
      Run(contents, a + b) == (rest, p + q)
    decreases |a|
  {
    if a == [] {
      assert a + b == b;
      assert [] + Run(contents, b).1 == Run(contents, b).1;
    } else {
      assert (a + b)[1..] == a[1..] + b;
      match a[0]
      case Push(d) => RunConcat([d] + contents, a[1..], b);
      case Pop =>
        if contents == [] {
          RunConcat(contents, a[1..], b);
        } else {
          RunConcat(contents[1..], a[1..], b);
          var (mid, p) := Run(contents[1..], a[1..]);
          assert [contents[0]] + (p + Run(mid, b).1) == ([contents[0]] + p) + Run(mid, b).1;
        }
    }
  }

  lemma {:induction false} PushedOneMore(a: seq<Op>, op: Op)
    ensures Pushed(a + [op]) == Pushed(a) + if op.Push? then [op.d] else []
  {
    if a == [] {
      assert [] + [op] == [op] && [op][1..] == [];
    } else {
      var first := if a[0].Push? then [a[0].d] else [];
      var last := if op.Push? then [op.d] else [];
      assert (a + [op])[1..] == a[1..] + [op];
      PushedOneMore(a[1..], op);
      assert first + (Pushed(a[1..]) + last) == (first + Pushed(a[1..])) + last;
    }
  }

  /** The list and the popped values after one more operation. */
  lemma RunOneMore(ops: seq<Op>, op: Op, contents: seq<int>, popped: seq<int>)
    requires Run([], ops) == (contents, popped)
    ensures Run([], ops + [op]) ==
            match op
            case Push(d) => ([d] + contents, popped)
            case Pop => if contents == [] then (contents, popped) else (contents[1..], popped + [contents[0]])
  {
    RunConcat([], ops, [op]);
    assert [op][1..] == [];
    assert popped + [] == popped;
    if contents != [] {
      assert [contents[0]] + [] == [contents[0]];
    }
  }

  /** Last in, first out: after a push and any balanced operations, a pop returns what was pushed
      and restores the list. */
  lemma LastInFirstOut(contents: seq<int>, d: int, ops: seq<Op>)
    requires StaysAbove(ops, 0, 0)
    ensures Run(contents, [Push(d)] + ops + [Pop]) == (contents, Run([], ops).1 + [d])
  {
    var c := [d] + contents;
    BelowIsUntouched([], c, ops, 0);
    assert [] + c == c && Run([], ops).0 + c == c;
    RunConcat(c, ops, [Pop]);
    assert [Pop][1..] == [] && c[1..] == contents && [d] + [] == [d];
    assert Run(contents, []) == (contents, []);
    assert Run(c, [Pop]) == (contents, [d]);
    var all := [Push(d)] + ops + [Pop];
    assert all[1..] == ops + [Pop];
  }

  method Perform(list: List, op: Op, scratch: int) returns (taken: seq<int>)
    requires list.Valid()
    modifies list, list.live
    ensures list.Valid() && fresh(list.live - old(list.live)) && list.freed <= old(list.live + list.freed)
    ensures (list.Contents(), taken) ==
            match op
            case Push(d) => ([d] + old(list.Contents()), [])
            case Pop =>
              if old(list.Contents()) == [] then ([], []) else (old(list.Contents())[1..], [old(list.Contents())[0]])
    ensures list.mallocs == old(list.mallocs) + if op.Push? then 1 else 0
  {
    ghost var before := list.Contents();
    list.EmptyMeansNoContents();
    taken := [];
    match op {
      case Push(d) => list.PushFront(list.head, d);
      case Pop =>
        var empty := list.IsEmpty(list.head);
        var out := list.PopFront(list.head, scratch);
        if !empty {
          assert before[0] == out && before[1..] == list.Contents();
          taken := [out];
        }
    }
  }

  /** Any operations on a new list, then its destruction: the list behaves as Run says, and in the
      end every node that was allocated has been freed. */
  method Lifetime(ops: seq<Op>) returns (popped: seq<int>, list: List)
    ensures popped == Run([], ops).1
    ensures list.live == {} && fresh(list) && fresh(list.freed)
    ensures list.frees == list.mallocs == 1 + |Pushed(ops)|
  {
    list := new List();
    popped := [];
    var i := 0;
    while i < |ops|
      invariant 0 <= i <= |ops|
      invariant fresh(list) && list.Valid() && fresh(list.live) && fresh(list.freed)
      invariant Run([], ops[..i]) == (list.Contents(), popped)
      invariant list.mallocs == 1 + |Pushed(ops[..i])|
    {
      RunOneMore(ops[..i], ops[i], list.Contents(), popped);
      PushedOneMore(ops[..i], ops[i]);
      assert ops[..i + 1] == ops[..i] + [ops[i]] && popped + [] == popped;
      var taken := Perform(list, ops[i], 0);
      popped := popped + taken;
      i := i + 1;
    }
    assert ops[..i] == ops;
    list.EmptyMeansNoContents();
    list.Destory(list.head);
  }
}
