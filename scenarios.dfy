/** Small input streams worked through the model end to end. */
module Scenarios {
  import opened Wrappers
  import opened Windows
  import opened Tally
  import opened Medians
  import opened Stream

  /** Adding a new key to a tally adds its count to the bag. */
  lemma BagAdd(m: map<string, nat>, k: string, v: nat)
    requires k !in m
    ensures Bag(m[k := v]) == multiset{v} + Bag(m)
  {
    BagPick(m[k := v], k);
    assert m[k := v] - {k} == m;
  }

  /** Removing one key leaves the other keys, with their counts. */
  lemma RemoveKey(m: map<string, nat>, k: string, rest: set<string>)
    requires m.Keys == {k} + rest && k !in rest
    ensures (m - {k}).Keys == rest
    ensures forall j :: j in rest ==> (m - {k})[j] == m[j]
  {
  }

  lemma BagOfOne(m: map<string, nat>, a: string)
    requires m.Keys == {a}
    ensures Bag(m) == multiset{m[a]}
  {
    BagPick(m, a);
    RemoveKey(m, a, {});
    assert m - {a} == map[];
  }

  lemma BagOfTwo(m: map<string, nat>, a: string, b: string)
    requires a != b && m.Keys == {a, b}
    ensures Bag(m) == multiset{m[b]} + multiset{m[a]}
  {
    BagPick(m, b);
    RemoveKey(m, b, {a});
    BagOfOne(m - {b}, a);
  }

  /** The bag of a tally with three people. */
  lemma BagOfThree(m: map<string, nat>, a: string, b: string, c: string)
    requires a != b && b != c && a != c && m.Keys == {a, b, c}
    ensures Bag(m) == multiset{m[c]} + (multiset{m[b]} + multiset{m[a]})
  {
    BagPick(m, c);
    RemoveKey(m, c, {a, b});
    BagOfTwo(m - {c}, a, b);
  }

  lemma DescendingThree(x: nat, y: nat, z: nat)
    requires x >= y >= z
    ensures Descending([x, y, z])
  {
  }

  /** The tally of one payment between two people. */
  lemma OnePaymentTally(x: Payment)
    requires x.actor != x.target
    ensures Degrees([x]).Keys == {x.actor, x.target}
    ensures Degrees([x])[x.actor] == 1 && Degrees([x])[x.target] == 1
  {
    assert People([x]) == {x.actor, x.target};
    assert [x][..0] == [];
    assert Degree([x], x.actor) == Degree([], x.actor) + Hits(x, x.actor);
    assert Degree([x], x.target) == Degree([], x.target) + Hits(x, x.target);
  }

  /** A single payment between two people has median degree 1. */
  lemma OnePayment(x: Payment)
    requires x.actor != x.target
    ensures WindowMedian([x]) == 1.0
  {
    OnePaymentTally(x);
    BagOfTwo(Degrees([x]), x.actor, x.target);
    assert multiset([1, 1]) == multiset{1} + multiset{1};
    WindowMedianOf([x], [1, 1]);
  }

  // A triangle of payments one second apart.
  const AB := Payment(0, "A", "B")
  const BC := Payment(1, "B", "C")
  const CA := Payment(2, "C", "A")

  lemma TwoSidesDegrees()
    ensures Degree([AB, BC], "A") == 1 && Degree([AB, BC], "B") == 2 && Degree([AB, BC], "C") == 1
  {
    assert [AB, BC][..1] == [AB];
    assert [AB][..0] == [];
    assert Degree([AB], "A") == 1 && Degree([AB], "B") == 1 && Degree([AB], "C") == 0;
  }

  lemma TriangleDegrees()
    ensures Degree([AB, BC, CA], "A") == 2 && Degree([AB, BC, CA], "B") == 2 && Degree([AB, BC, CA], "C") == 2
  {
    assert [AB, BC, CA][..2] == [AB, BC];
    TwoSidesDegrees();
  }

  lemma TwoSidesBag()
    ensures Bag(Degrees([AB, BC])) == multiset{1} + (multiset{2} + multiset{1})
  {
    assert People([AB, BC]) == {"A", "B", "C"};
    TwoSidesDegrees();
    BagOfThree(Degrees([AB, BC]), "A", "B", "C");
  }

  lemma TriangleBag()
    ensures Bag(Degrees([AB, BC, CA])) == multiset{2} + (multiset{2} + multiset{2})
  {
    assert People([AB, BC, CA]) == {"A", "B", "C"};
    TriangleDegrees();
    BagOfThree(Degrees([AB, BC, CA]), "A", "B", "C");
  }

  /** After two payments of the triangle, degrees 1, 2, 1: median 1. */
  lemma TwoSidesMedian()
    ensures WindowMedian([AB, BC]) == 1.0
  {
    TwoSidesBag();
    DescendingThree(2, 1, 1);
    assert multiset([2, 1, 1]) == multiset{1} + (multiset{2} + multiset{1});
    WindowMedianOf([AB, BC], [2, 1, 1]);
  }

  /** After the whole triangle, every degree is 2: median 2. */
  lemma TriangleMedian()
    ensures WindowMedian([AB, BC, CA]) == 2.0
  {
    TriangleBag();
    DescendingThree(2, 2, 2);
    assert multiset([2, 2, 2]) == multiset{2} + (multiset{2} + multiset{2});
    WindowMedianOf([AB, BC, CA], [2, 2, 2]);
  }

  /** The first payment between two people emits 1. */
  lemma FirstPayment(x: Payment)
    requires x.actor != x.target
    ensures Run([x]) == State([x], Some(x.time), Some(1.0), [1.0])
  {
    assert [x][..0] == [];
    OnePayment(x);
  }

  lemma TwoSides()
    ensures Run([AB, BC]) == State([AB, BC], Some(1), Some(1.0), [1.0, 1.0])
  {
    assert [AB, BC][..1] == [AB];
    FirstPayment(AB);
    assert Evict([AB], 1) == [AB];
    TwoSidesMedian();
  }

  /** The triangle emits 1, 1 and 2: the first payment gives two people of
      degree 1, the second three people with degrees 2, 1, 1, the third
      three people of degree 2. */
  lemma Triangle()
    ensures Run([AB, BC, CA]).output == [1.0, 1.0, 2.0]
    ensures Run([AB, BC, CA]).window == [AB, BC, CA]
  {
    assert [AB, BC, CA][..2] == [AB, BC];
    TwoSides();
    assert Evict([AB, BC], 2) == [AB, BC] by {
      assert [AB, BC][1..] == [BC] && [BC][1..] == [];
      assert Evict([BC], 2) == [BC];
    }
    assert InsertOrdered([AB, BC], CA) == [AB, BC, CA] by {
      assert [AB, BC][1..] == [BC] && [BC][1..] == [];
      assert InsertOrdered([BC], CA) == [BC, CA];
    }
    TriangleMedian();
  }

  /** A payment 61 seconds after the first evicts it: the second value
      comes from the second payment alone. */
  lemma EvictedAfterSixtyOne()
    ensures Run([Payment(0, "A", "B"), Payment(61, "C", "D")]).output == [1.0, 1.0]
    ensures Run([Payment(0, "A", "B"), Payment(61, "C", "D")]).window == [Payment(61, "C", "D")]
  {
    var e1, e2 := Payment(0, "A", "B"), Payment(61, "C", "D");
    assert [e1, e2][..1] == [e1];
    FirstPayment(e1);
    OnePayment(e2);
    assert Evict([e1], 61) == [];
    assert InsertOrdered([], e2) == [e2];
  }

  /** A repeated pair a whole day after the first payment evicts it: the
      window counts total elapsed seconds, not the within-day part. */
  lemma WholeDayLater()
    ensures Run([Payment(0, "A", "B"), Payment(86400, "A", "B")]).output == [1.0, 1.0]
    ensures Run([Payment(0, "A", "B"), Payment(86400, "A", "B")]).window == [Payment(86400, "A", "B")]
  {
    var e1, e2 := Payment(0, "A", "B"), Payment(86400, "A", "B");
    assert [e1, e2][..1] == [e1];
    FirstPayment(e1);
    OnePayment(e2);
    assert Evict([e1], 86400) == [];
    assert InsertOrdered([], e2) == [e2];
  }

  /** A payment more than 60 seconds before the watermark is dropped and
      repeats the last value; one exactly 60 seconds before is kept. */
  lemma LateArrivals()
    ensures Run([Payment(100, "A", "B"), Payment(39, "A", "C")]).output == [1.0, 1.0]
    ensures Run([Payment(100, "A", "B"), Payment(39, "A", "C")]).window == [Payment(100, "A", "B")]
    ensures Run([Payment(100, "A", "B"), Payment(40, "A", "C")]).window == [Payment(40, "A", "C"), Payment(100, "A", "B")]
  {
    var e1, d, k := Payment(100, "A", "B"), Payment(39, "A", "C"), Payment(40, "A", "C");
    assert [e1, d][..1] == [e1];
    assert [e1, k][..1] == [e1];
    FirstPayment(e1);
    assert Dropped(Run([e1]), d);
    assert !Dropped(Run([e1]), k);
    assert Evict([e1], 100) == [e1];
  }

  /** A payment at the same second as a record already in the window goes in
      front of it. */
  lemma TiesGoFirst()
    ensures Run([Payment(5, "A", "B"), Payment(5, "C", "D")]).window == [Payment(5, "C", "D"), Payment(5, "A", "B")]
  {
    var e1, e2 := Payment(5, "A", "B"), Payment(5, "C", "D");
    assert [e1, e2][..1] == [e1];
    FirstPayment(e1);
    assert Evict([e1], 5) == [e1];
  }

  /** Somebody paying themselves has degree 2, and is the only person. */
  lemma SelfPayment()
    ensures Degrees([Payment(0, "A", "A")]) == map["A" := 2]
    ensures WindowMedian([Payment(0, "A", "A")]) == 2.0
  {
    var x := Payment(0, "A", "A");
    var m := Degrees([x]);
    assert m == map["A" := 2] by {
      assert People([x]) == {"A"};
      assert [x][..0] == [];
      assert Degree([x], "A") == Degree([], "A") + Hits(x, "A");
    }
    assert Bag(m) == multiset{2} by {
      var empty: map<string, nat> := map[];
      assert Bag(empty) == multiset{};
      assert m == empty["A" := 2];
      BagAdd(empty, "A", 2);
    }
    assert multiset([2]) == multiset{2};
    WindowMedianOf([x], [2]);
  }
}
