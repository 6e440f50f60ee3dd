/** The linked-list implementation of the rolling median: `Transaction`
    nodes, the `insert` splice, and the per-line step of `process` over the
    list, proved against the value-level `Stream.Step`. */
module RollingMedian {
  import opened Wrappers
  import opened Windows
  import opened Tally
  import opened Medians
  import opened Stream

  /** A node of the window list. Time, actor and target never change after
      construction; only `next` is relinked. */
  class Transaction {
    const time: int
    const actor: string
    const target: string
    var next: Transaction?

    constructor (time: int, actor: string, target: string)
      ensures this.time == time && this.actor == actor && this.target == target
      ensures next == null
    {
      this.time := time;
      this.actor := actor;
      this.target := target;
      next := null;
    }

    function Record(): Payment {
      Payment(time, actor, target)
    }
  }

  /** The records held by a sequence of nodes. */
  function Records(ns: seq<Transaction>): (r: seq<Payment>)
    ensures |r| == |ns| && forall i :: 0 <= i < |ns| ==> r[i] == ns[i].Record()
  {
    seq(|ns|, i requires 0 <= i < |ns| => ns[i].Record())
  }

  /** `ns` with `x` appended holds one more record. */
  lemma RecordsSnoc(ns: seq<Transaction>, x: Transaction)
    ensures Records(ns + [x]) == Records(ns) + [x.Record()]
  {
    assert |Records(ns + [x])| == |ns| + 1;
    forall k | 0 <= k < |ns| + 1 ensures Records(ns + [x])[k] == (Records(ns) + [x.Record()])[k] {
      if k < |ns| {
        assert (ns + [x])[k] == ns[k];
      }
    }
  }

  /** From index `from` on, each node of `ns` points to the node after it,
      and the last one to `tail`. */
  ghost predicate LinkedFrom(ns: seq<Transaction>, from: nat, tail: Transaction?)
    reads ns
  {
    && (forall j, k :: from <= j && k == j + 1 && k < |ns| ==> ns[j].next == ns[k])
    && (from < |ns| ==> ns[|ns| - 1].next == tail)
  }

  /** A linked run ending at `x` grows by `x`. */
  lemma LinkSnoc(ns: seq<Transaction>, x: Transaction, tail: Transaction?)
    requires LinkedFrom(ns, 0, x) && x.next == tail
    ensures LinkedFrom(ns + [x], 0, tail)
  {
    var p := ns + [x];
    forall j, k | 0 <= j && k == j + 1 && k < |p| ensures p[j].next == p[k] {
      assert p[j] == ns[j];
      if k < |ns| {
        assert p[k] == ns[k];
      }
    }
    assert p[|p| - 1] == x;
  }

  /** `ns` is the whole list from `first`, each node once, ending in `null`. */
  ghost predicate WellFormed(ns: seq<Transaction>, first: Transaction?)
    reads ns
  {
    LinkedFrom(ns, 0, null) && Distinct(ns) && first == Head(ns, null)
  }

  ghost predicate Distinct(ns: seq<Transaction>) {
    forall j, k :: 0 <= j < k < |ns| ==> ns[j] != ns[k]
  }

  /** No node of `a` is among the nodes of `b` from index `from` on. */
  ghost predicate Apart(a: seq<Transaction>, b: seq<Transaction>, from: nat) {
    forall j, k :: 0 <= j < |a| && from <= k < |b| ==> a[j] != b[k]
  }

  /** The node at `i`, or `null` past the end. */
  function At(ns: seq<Transaction>, i: nat): Transaction? {
    if i < |ns| then ns[i] else null
  }

  function Head(ns: seq<Transaction>, otherwise: Transaction?): Transaction? {
    if ns == [] then otherwise else ns[0]
  }

  function Last(ns: seq<Transaction>): Transaction? {
    if ns == [] then null else ns[|ns| - 1]
  }

  /** `insert`: links `ins` in front of `nextNode`, behind `prev` when there
      is one; the list head changes only when there is no `prev`. */
  method Insert(ins: Transaction, prev: Transaction?, nextNode: Transaction?, first: Transaction?)
    returns (newFirst: Transaction?)
    modifies ins, prev
    ensures ins.next == nextNode
    ensures prev != null && prev != ins ==> prev.next == ins
    ensures newFirst == if prev != null then first else ins
  {
    newFirst := first;
    if prev != null {
      prev.next := ins;
    } else {
      newFirst := ins;
    }
    ins.next := nextNode;
  }

  // The walk of `process` over the list, seen as nodes. `N` is the list as
  // it was before the walk, `i` the number of nodes visited, `pre` the list
  // rebuilt so far (kept nodes, and the new node `nt` once inserted), which
  // ends by pointing at the node being visited.

  ghost predicate Walking(N: seq<Transaction>, i: nat, pre: seq<Transaction>, cur: Transaction?,
                          nt: Transaction, inserted: bool)
    reads N, pre
  {
    && i <= |N| && cur == At(N, i) && Distinct(N)
    && LinkedFrom(N, i, null) && LinkedFrom(pre, 0, cur)
    && Distinct(pre) && Apart(pre, N, i)
    && nt !in N && (!inserted ==> nt !in pre)
    && (inserted ==> pre != [])
    && (forall x :: x in pre ==> x in N || x == nt)
  }

  /** `Walking` at the top of the loop, with the list head `first` and the
      last kept node `last` of the source. */
  ghost predicate AtNode(N: seq<Transaction>, i: nat, pre: seq<Transaction>, cur: Transaction?,
                         nt: Transaction, inserted: bool, first: Transaction?, last: Transaction?)
    reads N, pre
  {
    && Walking(N, i, pre, cur, nt, inserted)
    && first == Head(pre, cur) && last == Last(pre)
    && (last != null ==> 0 < i && last == N[i - 1])
  }

  lemma FollowNext(N: seq<Transaction>, i: nat)
    requires i < |N| && LinkedFrom(N, i, null)
    ensures N[i].next == At(N, i + 1) && LinkedFrom(N, i + 1, null)
  {
    if i + 1 < |N| {
      assert N[i].next == N[i + 1];
    }
  }

  /** Keeping the visited node: it joins the rebuilt list as it is. */
  lemma WalkKeep(N: seq<Transaction>, i: nat, pre: seq<Transaction>, nt: Transaction, inserted: bool)
    requires i < |N| && Walking(N, i, pre, N[i], nt, inserted)
    ensures AtNode(N, i + 1, pre + [N[i]], N[i].next, nt, inserted, Head(pre, N[i]), N[i])
  {
    FollowNext(N, i);
    LinkSnoc(pre, N[i], N[i].next);
  }

  /** Dropping a stale node in front of every kept one: the head moves on. */
  lemma WalkStale(N: seq<Transaction>, i: nat, nt: Transaction, first: Transaction?)
    requires i < |N| && AtNode(N, i, [], N[i], nt, false, first, null)
    ensures AtNode(N, i + 1, [], N[i].next, nt, false, N[i].next, null)
  {
    FollowNext(N, i);
  }

  /** The call of `insert` for the new node `nt`, in front of `cur` and
      behind the last kept node. */
  method WalkInsert(ghost N: seq<Transaction>, ghost i: nat, ghost pre: seq<Transaction>, nt: Transaction,
                    last: Transaction?, first: Transaction?, cur: Transaction?)
    returns (newFirst: Transaction?)
    requires AtNode(N, i, pre, cur, nt, false, first, last)
    modifies nt, last
    ensures Walking(N, i, pre + [nt], cur, nt, true)
    ensures newFirst == Head(pre + [nt], cur)
  {
    newFirst := Insert(nt, last, cur, first);
    forall j, k | 0 <= j && k == j + 1 && k < |pre| ensures pre[j].next == pre[k] {
      assert old(pre[j].next) == pre[k];
    }
    LinkSnoc(pre, nt, cur);
    forall j, k | i <= j && k == j + 1 && k < |N| ensures N[j].next == N[k] {
      assert old(N[j].next) == N[k];
    }
    if i < |N| {
      assert old(N[|N| - 1].next) == null;
    }
  }

  // The same walk, seen as records. `V` holds the records of the old list,
  // `e` the new record; `R` holds the records of the rebuilt list so far.

  /** One node of the walk: how the evicted prefix and the evicted remainder
      change by the node at `i`. */
  lemma EvictStep(V: seq<Payment>, i: nat, windowEnd: int)
    requires i < |V|
    ensures Stale(windowEnd, V[i].time) ==>
      Evict(V[..i + 1], windowEnd) == Evict(V[..i], windowEnd) && Evict(V[i..], windowEnd) == Evict(V[i + 1..], windowEnd)
    ensures !Stale(windowEnd, V[i].time) ==>
      Evict(V[..i + 1], windowEnd) == Evict(V[..i], windowEnd) + [V[i]]
      && Evict(V[i..], windowEnd) == [V[i]] + Evict(V[i + 1..], windowEnd)
  {
    assert V[..i + 1] == V[..i] + [V[i]];
    EvictAppend(V[..i], [V[i]], windowEnd);
    assert V[i..][1..] == V[i + 1..];
    if Stale(windowEnd, V[i].time) {
      assert Evict(V[..i], windowEnd) + [] == Evict(V[..i], windowEnd);
      assert [] + Evict(V[i + 1..], windowEnd) == Evict(V[i + 1..], windowEnd);
    }
  }

  /** Where the new record stands after `i` nodes: before its insertion, `R`
      is the kept prefix, every record of it earlier than `e`; after it, the
      rebuilt list followed by what is left to keep is the final window. */
  ghost predicate Placed(V: seq<Payment>, i: nat, windowEnd: int, e: Payment, R: seq<Payment>, inserted: bool) {
    && i <= |V|
    && (!inserted ==> R == Evict(V[..i], windowEnd) && forall x :: x in R ==> x.time < e.time)
    && (inserted ==> R + Evict(V[i..], windowEnd) == InsertOrdered(Evict(V, windowEnd), e))
  }

  lemma PlaceStale(V: seq<Payment>, i: nat, windowEnd: int, e: Payment, R: seq<Payment>, inserted: bool)
    requires i < |V| && Stale(windowEnd, V[i].time) && Placed(V, i, windowEnd, e, R, inserted)
    ensures Placed(V, i + 1, windowEnd, e, R, inserted)
  {
    EvictStep(V, i, windowEnd);
  }

  lemma PlaceKeep(V: seq<Payment>, i: nat, windowEnd: int, e: Payment, R: seq<Payment>, inserted: bool)
    requires i < |V| && !Stale(windowEnd, V[i].time) && Placed(V, i, windowEnd, e, R, inserted)
    requires !inserted ==> V[i].time < e.time
    ensures Placed(V, i + 1, windowEnd, e, R + [V[i]], inserted)
  {
    EvictStep(V, i, windowEnd);
    if inserted {
      assert (R + [V[i]]) + Evict(V[i + 1..], windowEnd) == R + ([V[i]] + Evict(V[i + 1..], windowEnd));
    }
  }

  /** Splicing the new record in front of the first kept node at least as late. */
  lemma PlaceNew(V: seq<Payment>, i: nat, windowEnd: int, e: Payment, R: seq<Payment>)
    requires i < |V| && !Stale(windowEnd, V[i].time) && V[i].time >= e.time
    requires Placed(V, i, windowEnd, e, R, false)
    ensures Placed(V, i, windowEnd, e, R + [e], true)
  {
    var rest := Evict(V[i..], windowEnd);
    assert rest == [V[i]] + Evict(V[i + 1..], windowEnd) by {
      EvictStep(V, i, windowEnd);
    }
    assert Evict(V, windowEnd) == R + rest by {
      assert V == V[..i] + V[i..];
      EvictAppend(V[..i], V[i..], windowEnd);
    }
    assert InsertOrdered(R + rest, e) == R + InsertOrdered(rest, e) by {
      forall k | 0 <= k < |R| ensures R[k].time < e.time {
        assert R[k] in R;
      }
      InsertOrderedSkip(R, rest, e);
    }
    assert (R + [e]) + rest == R + ([e] + rest);
  }

  /** Appending the new record behind every kept node. */
  lemma PlaceAtEnd(V: seq<Payment>, windowEnd: int, e: Payment, R: seq<Payment>)
    requires Placed(V, |V|, windowEnd, e, R, false)
    ensures R + [e] == InsertOrdered(Evict(V, windowEnd), e)
  {
    assert V[..|V|] == V;
    forall k | 0 <= k < |R| ensures R[k].time < e.time {
      assert R[k] in R;
    }
    InsertOrderedSkip(R, [], e);
    assert R + [] == R;
  }

  lemma PlaceDone(V: seq<Payment>, windowEnd: int, e: Payment, R: seq<Payment>)
    requires Placed(V, |V|, windowEnd, e, R, true)
    ensures R == InsertOrdered(Evict(V, windowEnd), e)
  {
    assert V[|V|..] == [];
    assert R + [] == R;
  }

  /** `payments[one] += 1` then `payments[two] += 1`, where `one` and `two`
      are the two ends of record `x`, in either order: the tally of `done`
      becomes the tally of `done + [x]`. */
  method CountEnds(payments: map<string, nat>, one: string, two: string, ghost done: seq<Payment>, ghost x: Payment)
    returns (r: map<string, nat>)
    requires payments == Degrees(done)
    requires (one == x.actor && two == x.target) || (one == x.target && two == x.actor)
    ensures r == Degrees(done + [x])
  {
    r := Inc(Inc(payments, one), two);
    DegreesSnoc(done, x);
    IncCommute(payments, x.actor, x.target);
  }

  /** One turn of the `while cur_transaction` loop: a stale node is
      unlinked by moving the head past it; a kept node is tallied, and the
      new node `nt` is linked in front of it when it is the first kept node
      at least as late as `nt`. */
  method Visit(ghost N: seq<Transaction>, ghost i: nat, ghost pre: seq<Transaction>, nt: Transaction,
               cur: Transaction, first: Transaction?, last: Transaction?, inserted: bool,
               payments: map<string, nat>, windowEnd: int)
    returns (first': Transaction?, last': Transaction?, inserted': bool, payments': map<string, nat>,
             ghost pre': seq<Transaction>)
    requires i < |N| && cur == N[i] && AtNode(N, i, pre, cur, nt, inserted, first, last)
    requires Ascending(Records(N)) && (last != null ==> !Stale(windowEnd, last.time))
    requires payments == Degrees([nt.Record()] + Evict(Records(N)[..i], windowEnd))
    requires Placed(Records(N), i, windowEnd, nt.Record(), Records(pre), inserted)
    modifies nt, last
    ensures AtNode(N, i + 1, pre', cur.next, nt, inserted', first', last')
    ensures last' != null ==> !Stale(windowEnd, last'.time)
    ensures payments' == Degrees([nt.Record()] + Evict(Records(N)[..i + 1], windowEnd))
    ensures Placed(Records(N), i + 1, windowEnd, nt.Record(), Records(pre'), inserted')
  {
    ghost var V, e := Records(N), nt.Record();
    assert V[i] == cur.Record();
    assert last != null ==> !Stale(windowEnd, cur.time) by {
      if last != null {
        assert V[i - 1] == last.Record();
        assert V[i - 1].time <= V[i].time;
      }
    }
    EvictStep(V, i, windowEnd);
    first', last', inserted', payments', pre' := first, last, inserted, payments, pre;
    if Stale(windowEnd, cur.time) {
      assert pre == [] && !inserted;
      WalkStale(N, i, nt, first);
      PlaceStale(V, i, windowEnd, e, Records(pre), inserted);
      first' := cur.next;
    } else {
      payments' := CountEnds(payments, cur.target, cur.actor, [e] + Evict(V[..i], windowEnd), V[i]);
      assert ([e] + Evict(V[..i], windowEnd)) + [V[i]] == [e] + Evict(V[..i + 1], windowEnd);
      if !inserted && cur.time >= nt.time {
        PlaceNew(V, i, windowEnd, e, Records(pre));
        first' := WalkInsert(N, i, pre, nt, last, first, cur);
        inserted' := true;
        RecordsSnoc(pre, nt);
        pre' := pre + [nt];
      }
      PlaceKeep(V, i, windowEnd, e, Records(pre'), inserted');
      WalkKeep(N, i, pre', nt, inserted');
      RecordsSnoc(pre', N[i]);
      last' := cur;
      pre' := pre' + [N[i]];
    }
  }

  /** The state `process` keeps across the lines of its input. */
  class Processor {
    var first: Transaction?
    var windowEnd: Option<int>
    var lastMedian: Option<real>
    var output: seq<real>
    /** The list from `first`, node by node. */
    ghost var nodes: seq<Transaction>

    ghost function Abstract(): State
      reads this
    {
      State(Records(nodes), windowEnd, lastMedian, output)
    }

    ghost predicate Valid()
      reads this, nodes
    {
      && WellFormed(nodes, first)
      && Ascending(Records(nodes))
      && (windowEnd.Some? ==> lastMedian.Some?)
    }

    constructor ()
      ensures Valid() && Abstract() == Initial && nodes == []
    {
      first := null;
      windowEnd := None;
      lastMedian := None;
      output := [];
      nodes := [];
    }

    /** One line of input: the body of the `for line in f` loop. */
    method Process(time: int, actor: string, target: string)
      requires Valid()
      modifies this, nodes
      ensures Valid()
      ensures Abstract() == Step(old(Abstract()), Payment(time, actor, target))
      ensures forall n :: n in nodes ==> n in old(nodes) || fresh(n)
    {
      ghost var s := Abstract();
      var e := Payment(time, actor, target);
      var end: int;
      if windowEnd.None? || time > windowEnd.value {
        end := time;
      } else if Stale(windowEnd.value, time) {
        output := output + [lastMedian.value];
        return;
      } else {
        end := windowEnd.value;
      }
      assert end == Advance(s.windowEnd, time) && !Dropped(s, e);
      var head, median;
      ghost var spliced, added;
      head, median, spliced, added := Accept(nodes, first, end, time, actor, target);
      AcceptedStep(s, e);
      Install(head, spliced, end, median);
    }

    /** Stores the outcome of an accepted event: the new list, the
        watermark, and the median, which is also emitted. */
    method Install(head: Transaction?, ghost spliced: seq<Transaction>, end: int, median: real)
      requires WellFormed(spliced, head) && Ascending(Records(spliced))
      modifies this
      ensures Valid()
      ensures first == head && nodes == spliced && windowEnd == Some(end) && lastMedian == Some(median)
      ensures output == old(output) + [median]
    {
      first, nodes, windowEnd, lastMedian, output := head, spliced, Some(end), Some(median), output + [median];
    }
  }

  /** An event that is not dropped, from the start of the walk to the new
      median (lines 134-191 of the source): the new list holds the kept
      records and the event in time order, and `median` is its median
      degree. */
  method Accept(ghost N: seq<Transaction>, first: Transaction?, windowEnd: int, time: int, actor: string, target: string)
    returns (head: Transaction?, median: real, ghost nodes: seq<Transaction>, ghost added: Transaction)
    requires WellFormed(N, first) && Ascending(Records(N))
    modifies set n | n in N
    ensures WellFormed(nodes, head) && Ascending(Records(nodes))
    ensures Records(nodes) == InsertOrdered(Evict(Records(N), windowEnd), Payment(time, actor, target))
    ensures nodes != [] && median == WindowMedian(Records(nodes))
    ensures fresh(added) && forall n :: n in nodes ==> n in N || n == added
  {
    var payments;
    head, payments, nodes, added := Splice(N, first, windowEnd, time, actor, target);
    EvictAscending(Records(N), windowEnd);
    InsertOrderedAscending(Evict(Records(N), windowEnd), Payment(time, actor, target));
    median := MedianDegree(payments, Records(nodes));
  }

  /** The `while cur_transaction` loop and the `insert` after it, over the
      list `N` from `first`: one pass that unlinks the stale prefix, tallies
      every kept node, and links a new node for the event in front of the
      first kept node at least as late (or at the end). Returns the new
      head, the tally with the new event included, and the new list. */
  method Splice(ghost N: seq<Transaction>, first: Transaction?, windowEnd: int, time: int, actor: string, target: string)
    returns (head: Transaction?, payments: map<string, nat>, ghost nodes: seq<Transaction>, ghost added: Transaction)
    requires WellFormed(N, first) && Ascending(Records(N))
    modifies set n | n in N
    ensures WellFormed(nodes, head) && nodes != []
    ensures Records(nodes) == InsertOrdered(Evict(Records(N), windowEnd), Payment(time, actor, target))
    ensures payments == Degrees(Records(nodes))
    ensures fresh(added) && forall n :: n in nodes ==> n in N || n == added
  {
    var nt := new Transaction(time, actor, target);
    added := nt;
    ghost var e, V := nt.Record(), Records(N);
    var last, inserted;
    ghost var pre;
    head, last, inserted, payments, pre := Walk(N, nt, first, windowEnd);
    head, nodes := Finish(N, pre, nt, last, head, inserted);
    WalkDone(V, windowEnd, nt, pre, inserted, payments, nodes);
  }

  /** After the walk, the final list holds the new window, and the tally
      started from the new record and fed every kept record is its tally. */
  lemma WalkDone(V: seq<Payment>, windowEnd: int, nt: Transaction, pre: seq<Transaction>, inserted: bool,
                 payments: map<string, nat>, nodes: seq<Transaction>)
    requires Placed(V, |V|, windowEnd, nt.Record(), Records(pre), inserted)
    requires payments == Degrees([nt.Record()] + Evict(V, windowEnd))
    requires nodes == if inserted then pre else pre + [nt]
    ensures Records(nodes) == InsertOrdered(Evict(V, windowEnd), nt.Record())
    ensures payments == Degrees(Records(nodes))
  {
    var e := nt.Record();
    if inserted {
      PlaceDone(V, windowEnd, e, Records(pre));
    } else {
      PlaceAtEnd(V, windowEnd, e, Records(pre));
      RecordsSnoc(pre, nt);
    }
    InsertOrderedPermutation(Evict(V, windowEnd), e);
    DegreesPermutation([e] + Evict(V, windowEnd), Records(nodes));
  }

  /** `if not inserted: insert(...)` after the walk: a new node not yet
      linked goes behind the last kept node. Returns the new head and the
      final list. */
  method Finish(ghost N: seq<Transaction>, ghost pre: seq<Transaction>, nt: Transaction,
                last: Transaction?, head: Transaction?, inserted: bool)
    returns (newHead: Transaction?, ghost nodes: seq<Transaction>)
    requires AtNode(N, |N|, pre, null, nt, inserted, head, last)
    modifies nt, last
    ensures WellFormed(nodes, newHead) && nodes != []
    ensures nodes == if inserted then pre else pre + [nt]
    ensures forall n :: n in nodes ==> n in N || n == nt
  {
    if inserted {
      newHead, nodes := head, pre;
    } else {
      newHead := WalkInsert(N, |N|, pre, nt, last, head, null);
      nodes := pre + [nt];
    }
  }

  /** The `while cur_transaction` loop over the list `N` from `first`, with
      the tally started from the new node `nt`. */
  method Walk(ghost N: seq<Transaction>, nt: Transaction, first: Transaction?, windowEnd: int)
    returns (head: Transaction?, last: Transaction?, inserted: bool, payments: map<string, nat>,
             ghost pre: seq<Transaction>)
    requires LinkedFrom(N, 0, null) && Distinct(N) && first == Head(N, null) && nt !in N
    requires Ascending(Records(N))
    modifies (set n | n in N), nt
    ensures AtNode(N, |N|, pre, null, nt, inserted, head, last)
    ensures payments == Degrees([nt.Record()] + Evict(Records(N), windowEnd))
    ensures Placed(Records(N), |N|, windowEnd, nt.Record(), Records(pre), inserted)
  {
    ghost var e, V := nt.Record(), Records(N);
    assert Degrees([]) == map[];
    payments := CountEnds(map[], nt.actor, nt.target, [], e);
    ghost var i: nat := 0;
    pre := [];
    var cur := first;
    head, last, inserted := first, null, false;
    assert [] + [e] == [e] + Evict(V[..0], windowEnd);
    while cur != null
      invariant AtNode(N, i, pre, cur, nt, inserted, head, last)
      invariant last != null ==> !Stale(windowEnd, last.time)
      invariant payments == Degrees([e] + Evict(V[..i], windowEnd))
      invariant Placed(V, i, windowEnd, e, Records(pre), inserted)
      decreases |N| - i
    {
      head, last, inserted, payments, pre := Visit(N, i, pre, nt, cur, head, last, inserted, payments, windowEnd);
      cur := cur.next;
      i := i + 1;
    }
    assert V[..i] == V;
  }

  /** The median vertex degree of the lines after the walk: the counts of
      `payments.most_common()` and their middle. */
  method MedianDegree(payments: map<string, nat>, ghost w: seq<Payment>) returns (median: real)
    requires w != [] && payments == Degrees(w)
    ensures median == WindowMedian(w)
  {
    DegreesNonEmpty(w);
    BagSize(payments);
    var degrees := MostCommon(payments);
    median := Median(degrees);
  }

  /** `process` without the file handling: every parsed line in order, and
      the values it would write. */
  method ProcessAll(events: seq<Payment>) returns (output: seq<real>)
    ensures output == Run(events).output
  {
    var p := new Processor();
    for k := 0 to |events|
      invariant p.Valid() && p.Abstract() == Run(events[..k])
      invariant fresh(p) && fresh(set n | n in p.nodes)
    {
      assert events[..k + 1][..k] == events[..k];
      p.Process(events[k].time, events[k].actor, events[k].target);
    }
    assert events[..|events|] == events;
    output := p.output;
  }
}
