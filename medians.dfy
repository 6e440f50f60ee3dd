/** The median of a tally: `Counter.most_common` as the descending sequence
    of counts, and the middle element or the mean of the two middle ones. */
module Medians {

  import opened Tally

  /** The counts of a tally, one per key, with repetition. */
  ghost function Bag(counter: map<string, nat>): multiset<nat>
    decreases |counter|
  {
    if counter == map[] then multiset{}
    else
      var k :| k in counter;
      multiset{counter[k]} + Bag(counter - {k})
  }

  /** The bag does not depend on which key is taken first. */
  lemma {:induction false} BagPick(counter: map<string, nat>, k: string)
    requires k in counter
    ensures Bag(counter) == multiset{counter[k]} + Bag(counter - {k})
    decreases |counter|, 1
  {
    var j :| j in counter && Bag(counter) == multiset{counter[j]} + Bag(counter - {j});
    if j != k {
      BagSwap(counter, j, k);
    }
  }

  lemma {:induction false} BagSwap(counter: map<string, nat>, j: string, k: string)
    requires j in counter && k in counter && j != k
    ensures multiset{counter[j]} + Bag(counter - {j}) == multiset{counter[k]} + Bag(counter - {k})
    decreases |counter|, 0
  {
    var withoutJ, withoutK := counter - {j}, counter - {k};
    RemoveTwo(counter, j, k);
    BagPick(withoutJ, k);
    BagPick(withoutK, j);
    SwapSingletons(counter[j], counter[k], Bag(withoutJ), Bag(withoutK), Bag(withoutJ - {k}));
  }

  lemma SwapSingletons(a: nat, b: nat, withoutA: multiset<nat>, withoutB: multiset<nat>, rest: multiset<nat>)
    requires withoutA == multiset{b} + rest && withoutB == multiset{a} + rest
    ensures multiset{a} + withoutA == multiset{b} + withoutB
  {
  }

  lemma {:induction false} BagSize(counter: map<string, nat>)
    ensures |Bag(counter)| == |counter|
    decreases |counter|
  {
    if counter != map[] {
      var k :| k in counter && Bag(counter) == multiset{counter[k]} + Bag(counter - {k});
      RemoveOne(counter, k);
      BagSize(counter - {k});
    }
  }

  predicate Descending(ds: seq<nat>) {
    forall i, j :: 0 <= i < j < |ds| ==> ds[i] >= ds[j]
  }

  /** Puts `x` in front of the first element it is not smaller than. */
  function InsertDescending(x: nat, ds: seq<nat>): seq<nat> {
    if ds == [] || x >= ds[0] then [x] + ds
    else [ds[0]] + InsertDescending(x, ds[1..])
  }

  /** Insertion adds `x` and nothing else, and starts with `x` or with the
      old first element. */
  lemma {:induction false} InsertDescendingCount(x: nat, ds: seq<nat>)
    ensures var r := InsertDescending(x, ds);
      && multiset(r) == multiset(ds) + multiset{x}
      && |r| == |ds| + 1 && (r[0] == x || (ds != [] && r[0] == ds[0]))
  {
    if ds != [] && x < ds[0] {
      InsertDescendingCount(x, ds[1..]);
      assert ds == [ds[0]] + ds[1..];
    }
  }

  lemma {:induction false} InsertDescendingSorted(x: nat, ds: seq<nat>)
    requires Descending(ds)
    ensures Descending(InsertDescending(x, ds))
  {
    InsertDescendingCount(x, ds);
    if ds != [] && x < ds[0] {
      InsertDescendingSorted(x, ds[1..]);
      InsertDescendingCount(x, ds[1..]);
      var r := InsertDescending(x, ds);
      assert r == [ds[0]] + InsertDescending(x, ds[1..]);
      forall j | 0 < j < |r| ensures r[0] >= r[j] {
        assert r[j] in multiset(InsertDescending(x, ds[1..]));
        assert r[j] in multiset(ds[1..]) + multiset{x};
        if r[j] != x {
          assert r[j] in ds[1..];
        }
      }
    }
  }

  /** A descending arrangement of a bag: the reference for `most_common`. */
  ghost function SortDescending(b: multiset<nat>): seq<nat>
    decreases |b|
  {
    if b == multiset{} then []
    else
      var x :| x in b;
      InsertDescending(x, SortDescending(b - multiset{x}))
  }

  /** `SortDescending` arranges exactly the bag, largest first. */
  lemma {:induction false} SortDescendingSpec(b: multiset<nat>)
    ensures multiset(SortDescending(b)) == b && Descending(SortDescending(b))
    decreases |b|
  {
    if b != multiset{} {
      var x :| x in b && SortDescending(b) == InsertDescending(x, SortDescending(b - multiset{x}));
      SortDescendingSpec(b - multiset{x});
      InsertDescendingCount(x, SortDescending(b - multiset{x}));
      InsertDescendingSorted(x, SortDescending(b - multiset{x}));
    }
  }

  /** Two descending arrangements of one bag start with the same, largest, count. */
  lemma DescendingHead(a: seq<nat>, b: seq<nat>)
    requires Descending(a) && Descending(b) && multiset(a) == multiset(b) && a != [] && b != []
    ensures a[0] == b[0]
  {
    assert a[0] in multiset(b) && b[0] in multiset(a);
    var i :| 0 <= i < |b| && b[i] == a[0];
    var j :| 0 <= j < |a| && a[j] == b[0];
    assert i > 0 ==> b[0] >= b[i];
    assert j > 0 ==> a[0] >= a[j];
  }

  lemma DescendingTail(a: seq<nat>)
    requires Descending(a) && a != []
    ensures Descending(a[1..])
  {
    forall i, j | 0 <= i < j < |a| - 1 ensures a[1..][i] >= a[1..][j] {
      assert a[1..][i] == a[i + 1] && a[1..][j] == a[j + 1];
    }
  }

  /** A bag has only one descending arrangement, so the tie order among
      equal counts cannot change the median. */
  lemma {:induction false} DescendingUnique(a: seq<nat>, b: seq<nat>)
    requires Descending(a) && Descending(b) && multiset(a) == multiset(b)
    ensures a == b
    decreases |a|
  {
    assert |a| == |multiset(a)| == |multiset(b)| == |b|;
    if a != [] {
      DescendingHead(a, b);
      assert multiset(a[1..]) == multiset(b[1..]) by {
        assert a == [a[0]] + a[1..];
        assert b == [b[0]] + b[1..];
        assert multiset(a[1..]) == multiset(a) - multiset{a[0]};
        assert multiset(b[1..]) == multiset(b) - multiset{b[0]};
      }
      DescendingTail(a);
      DescendingTail(b);
      DescendingUnique(a[1..], b[1..]);
      assert a == [a[0]] + a[1..] && b == [b[0]] + b[1..];
    }
  }

  /** Moving one key's count from the tally into the sorted prefix keeps
      the loop of `MostCommon` on track. */
  lemma TakeCount(degrees: seq<nat>, rest: map<string, nat>, k: string)
    requires Descending(degrees) && k in rest
    ensures Descending(InsertDescending(rest[k], degrees))
    ensures multiset(InsertDescending(rest[k], degrees)) + Bag(rest - {k}) == multiset(degrees) + Bag(rest)
    ensures |rest - {k}| < |rest|
  {
    BagPick(rest, k);
    InsertDescendingSorted(rest[k], degrees);
    InsertDescendingCount(rest[k], degrees);
    RemoveOne(rest, k);
  }

  /** `counter.most_common()` keeping only the counts: every count of the
      tally once per key, largest first. */
  method MostCommon(counter: map<string, nat>) returns (degrees: seq<nat>)
    ensures Descending(degrees) && multiset(degrees) == Bag(counter)
    ensures degrees == SortDescending(Bag(counter))
  {
    degrees := [];
    var rest := counter;
    while rest.Keys != {}
      invariant Descending(degrees)
      invariant multiset(degrees) + Bag(rest) == Bag(counter)
      decreases |rest|
    {
      var k :| k in rest.Keys;
      TakeCount(degrees, rest, k);
      degrees := InsertDescending(rest[k], degrees);
      rest := rest - {k};
    }
    assert rest == map[];
    assert Bag(rest) == multiset{};
    SortDescendingSpec(Bag(counter));
    DescendingUnique(degrees, SortDescending(Bag(counter)));
  }

  /** The median as the source takes it from the descending counts, with
      Python 2 integer division for the index: the mean of the two middle
      counts, which are the same count when there is an odd number. */
  function Median(degrees: seq<nat>): (r: real)
    requires |degrees| > 0
    ensures r == (degrees[(|degrees| - 1) / 2] + degrees[|degrees| / 2]) as real / 2.0
  {
    var halfway := |degrees| / 2;
    if |degrees| % 2 == 1 then degrees[halfway] as real
    else (degrees[halfway] + degrees[halfway - 1]) as real / 2.0
  }

  /** How many of `ds` are at least `m`, and how many at most `m`. */
  function CountAtLeast(ds: seq<nat>, m: real): nat {
    if ds == [] then 0 else (if ds[0] as real >= m then 1 else 0) + CountAtLeast(ds[1..], m)
  }

  function CountAtMost(ds: seq<nat>, m: real): nat {
    if ds == [] then 0 else (if ds[0] as real <= m then 1 else 0) + CountAtMost(ds[1..], m)
  }

  lemma {:induction false} CountAtLeastPrefix(ds: seq<nat>, m: real, k: nat)
    requires k <= |ds| && forall i :: 0 <= i < k ==> ds[i] as real >= m
    ensures CountAtLeast(ds, m) >= k
  {
    if k > 0 {
      CountAtLeastPrefix(ds[1..], m, k - 1);
    }
  }

  lemma {:induction false} CountAtMostSuffix(ds: seq<nat>, m: real, k: nat)
    requires k <= |ds| && forall i :: k <= i < |ds| ==> ds[i] as real <= m
    ensures CountAtMost(ds, m) >= |ds| - k
  {
    if ds != [] {
      if k > 0 {
        CountAtMostSuffix(ds[1..], m, k - 1);
      } else {
        CountAtMostSuffix(ds[1..], m, 0);
      }
    }
  }

  /** The median of descending counts lies between the smallest and the
      largest count, and splits them in halves: at least half of the counts
      are at least the median and at least half are at most it. */
  lemma MedianIsMiddle(degrees: seq<nat>)
    requires |degrees| > 0 && Descending(degrees)
    ensures degrees[|degrees| - 1] as real <= Median(degrees) <= degrees[0] as real
    ensures 2 * CountAtLeast(degrees, Median(degrees)) >= |degrees|
    ensures 2 * CountAtMost(degrees, Median(degrees)) >= |degrees|
  {
    var n, h, m := |degrees|, |degrees| / 2, Median(degrees);
    if n % 2 == 1 {
      CountAtLeastPrefix(degrees, m, h + 1);
      CountAtMostSuffix(degrees, m, h);
    } else {
      assert degrees[h] as real <= m <= degrees[h - 1] as real;
      CountAtLeastPrefix(degrees, m, h);
      CountAtMostSuffix(degrees, m, h);
    }
  }

  /** An odd number of counts gives a whole median; an even number gives a
      whole or half-whole one. */
  lemma MedianParity(degrees: seq<nat>)
    requires |degrees| > 0
    ensures |degrees| % 2 == 1 ==> Median(degrees) == Median(degrees).Floor as real
    ensures 2.0 * Median(degrees) == (2.0 * Median(degrees)).Floor as real
  {
    var h := |degrees| / 2;
    if |degrees| % 2 == 1 {
      assert (|degrees| - 1) / 2 == h;
      assert Median(degrees) == degrees[h] as real;
      assert (degrees[h] as real).Floor == degrees[h];
      assert 2.0 * Median(degrees) == (2 * degrees[h]) as real;
    } else {
      assert (|degrees| - 1) / 2 == h - 1;
      var sum := degrees[h] + degrees[h - 1];
      assert 2.0 * Median(degrees) == sum as real;
      assert (sum as real).Floor == sum;
    }
  }
}
