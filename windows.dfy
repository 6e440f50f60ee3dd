/** The 60-second window as a value: a payment record, the staleness test,
    eviction of stale records and ordered insertion of a new one. */
module Windows {

  /** Width of the trailing window, in seconds. */
  const WindowSeconds: int := 60

  /** One parsed transaction: time in whole seconds, payer and payee. */
  datatype Payment = Payment(time: int, actor: string, target: string)

  /** A record is stale when it lies more than 60 seconds before the
      watermark, measured in total elapsed seconds. */
  predicate Stale(windowEnd: int, time: int) {
    windowEnd - time > WindowSeconds
  }

  /** The source's own test takes the `seconds` component of a
      `timedelta`, which for a non-negative gap is the gap modulo one day. */
  predicate StaleBySecondsField(windowEnd: int, time: int) {
    (windowEnd - time) % 86400 > WindowSeconds
  }

  /** An event exactly one day older than the watermark passes the
      as-written test. On the stream (0, 86430, 172810) the record at 0 is
      still fresh at both later watermarks while the record at 86430 is
      stale at the last one, so the as-written stale records do not form a
      prefix of a time-ordered list. */
  lemma SecondsFieldMissesWholeDays()
    ensures Stale(86400, 0) && !StaleBySecondsField(86400, 0)
    ensures Stale(86430, 0) && !StaleBySecondsField(86430, 0)
    ensures Stale(172810, 0) && !StaleBySecondsField(172810, 0)
    ensures StaleBySecondsField(172810, 86430)
  {
  }

  /** Staleness is closed downwards: anything older than a stale record is
      stale, and anything newer than a fresh record is fresh. */
  lemma StaleDownwardClosed(windowEnd: int, t: int, u: int)
    requires u <= t
    ensures Stale(windowEnd, t) ==> Stale(windowEnd, u)
    ensures !Stale(windowEnd, u) ==> !Stale(windowEnd, t)
  {
  }

  predicate Ascending(w: seq<Payment>) {
    forall i, j :: 0 <= i < j < |w| ==> w[i].time <= w[j].time
  }

  /** Every suffix of an ascending list is ascending. */
  lemma AscendingSuffix(w: seq<Payment>, k: nat)
    requires Ascending(w) && k <= |w|
    ensures Ascending(w[k..])
  {
    forall i, j | 0 <= i < j < |w| - k ensures w[k..][i].time <= w[k..][j].time {
      assert w[k..][i] == w[k + i] && w[k..][j] == w[k + j];
    }
  }

  /** The records of `w` that are not stale, in their original order. */
  function Evict(w: seq<Payment>, windowEnd: int): seq<Payment> {
    if w == [] then []
    else (if Stale(windowEnd, w[0].time) then [] else [w[0]]) + Evict(w[1..], windowEnd)
  }

  /** The new record goes just before the first record whose time is at
      least its own, or at the end: ties put the new record first. */
  function InsertOrdered(w: seq<Payment>, e: Payment): seq<Payment> {
    if w == [] then [e]
    else if w[0].time >= e.time then [e] + w
    else [w[0]] + InsertOrdered(w[1..], e)
  }

  lemma {:induction false} EvictAppend(a: seq<Payment>, b: seq<Payment>, windowEnd: int)
    ensures Evict(a + b, windowEnd) == Evict(a, windowEnd) + Evict(b, windowEnd)
  {
    if a != [] {
      assert (a + b)[0] == a[0];
      assert (a + b)[1..] == a[1..] + b;
      EvictAppend(a[1..], b, windowEnd);
    } else {
      assert a + b == b;
    }
  }

  /** Eviction keeps exactly the non-stale records, each as often as it occurs. */
  lemma {:induction false} EvictKeepsFresh(w: seq<Payment>, windowEnd: int)
    ensures forall x :: (multiset(Evict(w, windowEnd))[x] ==
      if Stale(windowEnd, x.time) then 0 else multiset(w)[x])
  {
    if w != [] {
      EvictKeepsFresh(w[1..], windowEnd);
      assert w == [w[0]] + w[1..];
    }
  }

  /** The number of stale records at the front of `w`. */
  function StalePrefix(w: seq<Payment>, windowEnd: int): (k: nat)
    ensures k <= |w|
  {
    if w == [] || !Stale(windowEnd, w[0].time) then 0 else 1 + StalePrefix(w[1..], windowEnd)
  }

  /** On a time-ordered list the stale records form a prefix, and eviction
      removes exactly that prefix. */
  lemma {:induction false} EvictDropsStalePrefix(w: seq<Payment>, windowEnd: int)
    requires Ascending(w)
    ensures Evict(w, windowEnd) == w[StalePrefix(w, windowEnd)..]
    ensures forall i :: 0 <= i < |w| ==>
      (Stale(windowEnd, w[i].time) <==> i < StalePrefix(w, windowEnd))
  {
    if w == [] {
    } else if !Stale(windowEnd, w[0].time) {
      forall i | 0 <= i < |w| ensures !Stale(windowEnd, w[i].time) {
        StaleDownwardClosed(windowEnd, w[i].time, w[0].time);
      }
      EvictAllFresh(w, windowEnd);
    } else {
      EvictDropsStalePrefix(w[1..], windowEnd);
      var k := StalePrefix(w[1..], windowEnd);
      assert w[1..][k..] == w[k + 1..];
      forall i | 1 <= i < |w| ensures w[i] == w[1..][i - 1] { }
    }
  }

  lemma {:induction false} EvictAllFresh(w: seq<Payment>, windowEnd: int)
    requires forall i :: 0 <= i < |w| ==> !Stale(windowEnd, w[i].time)
    ensures Evict(w, windowEnd) == w
  {
    if w != [] {
      EvictAllFresh(w[1..], windowEnd);
    }
  }

  /** The index of the first record whose time is at least `t`, or `|w|`. */
  function InsertIndex(w: seq<Payment>, t: int): (k: nat)
    ensures k <= |w|
  {
    if w == [] || w[0].time >= t then 0 else 1 + InsertIndex(w[1..], t)
  }

  /** Where the new record lands: after every record strictly earlier than
      it, before the first record at least as late. */
  lemma {:induction false} InsertOrderedPosition(w: seq<Payment>, e: Payment)
    ensures InsertOrdered(w, e) == w[..InsertIndex(w, e.time)] + [e] + w[InsertIndex(w, e.time)..]
    ensures forall i :: 0 <= i < InsertIndex(w, e.time) ==> w[i].time < e.time
    ensures InsertIndex(w, e.time) < |w| ==> w[InsertIndex(w, e.time)].time >= e.time
  {
    if w != [] && w[0].time < e.time {
      InsertOrderedPosition(w[1..], e);
      var k := InsertIndex(w[1..], e.time);
      assert w[..k + 1] == [w[0]] + w[1..][..k];
      assert w[k + 1..] == w[1..][k..];
      forall i | 1 <= i < |w| ensures w[i] == w[1..][i - 1] { }
    }
  }

  /** Ordered insertion adds exactly one occurrence of the new record. */
  lemma {:induction false} InsertOrderedPermutation(w: seq<Payment>, e: Payment)
    ensures multiset(InsertOrdered(w, e)) == multiset(w) + multiset{e}
  {
    if w != [] && w[0].time < e.time {
      InsertOrderedPermutation(w[1..], e);
      assert w == [w[0]] + w[1..];
    }
  }

  /** Ordered insertion keeps a list in ascending time order. */
  lemma {:induction false} InsertOrderedAscending(w: seq<Payment>, e: Payment)
    requires Ascending(w)
    ensures Ascending(InsertOrdered(w, e))
  {
    InsertOrderedPosition(w, e);
    var k := InsertIndex(w, e.time);
    var r := InsertOrdered(w, e);
    forall i, j | 0 <= i < j < |r| ensures r[i].time <= r[j].time {
      if j < k {
        assert r[i] == w[i] && r[j] == w[j];
      } else if j == k {
        assert r[i] == w[i] && r[j] == e;
      } else if i < k {
        assert r[i] == w[i] && r[j] == w[j - 1];
      } else if i == k {
        assert r[i] == e && r[j] == w[j - 1] && w[k].time <= w[j - 1].time;
      } else {
        assert r[i] == w[i - 1] && r[j] == w[j - 1];
      }
    }
  }

  /** Records strictly earlier than the new one are passed over unchanged. */
  lemma {:induction false} InsertOrderedSkip(a: seq<Payment>, b: seq<Payment>, e: Payment)
    requires forall i :: 0 <= i < |a| ==> a[i].time < e.time
    ensures InsertOrdered(a + b, e) == a + InsertOrdered(b, e)
  {
    if a != [] {
      assert (a + b)[0] == a[0];
      assert (a + b)[1..] == a[1..] + b;
      InsertOrderedSkip(a[1..], b, e);
    } else {
      assert a + b == b;
    }
  }
}
