/** The vertex-degree tally of a window: the `Counter` the source fills,
    one entry per person, counting the records that name the person as
    actor plus the records that name the person as target. */
module Tally {
  import opened Windows

  /** `counter[k] += 1` on a `Counter`: a missing key counts as 0. */
  function Inc(counter: map<string, nat>, k: string): (r: map<string, nat>)
    ensures r.Keys == counter.Keys + {k}
    ensures r[k] == (if k in counter then counter[k] else 0) + 1
    ensures forall j :: j in counter && j != k ==> r[j] == counter[j]
  {
    counter[k := (if k in counter then counter[k] else 0) + 1]
  }

  /** How many ends of payment `x` are person `p`: a self-payment counts twice. */
  function Hits(x: Payment, p: string): nat {
    (if x.actor == p then 1 else 0) + (if x.target == p then 1 else 0)
  }

  /** The degree of `p` in window `w`. */
  function Degree(w: seq<Payment>, p: string): nat {
    if w == [] then 0 else Degree(w[..|w| - 1], p) + Hits(w[|w| - 1], p)
  }

  /** Everybody named by some record of `w`. */
  function People(w: seq<Payment>): set<string> {
    (set x | x in w :: x.actor) + (set x | x in w :: x.target)
  }

  /** The degree map of window `w`, keyed by the people it names. */
  function Degrees(w: seq<Payment>): map<string, nat> {
    map p | p in People(w) :: Degree(w, p)
  }

  lemma {:induction false} DegreeAppend(a: seq<Payment>, b: seq<Payment>, p: string)
    ensures Degree(a + b, p) == Degree(a, p) + Degree(b, p)
  {
    if b == [] {
      assert a + b == a;
    } else {
      assert (a + b)[..|a + b| - 1] == a + b[..|b| - 1];
      DegreeAppend(a, b[..|b| - 1], p);
    }
  }

  /** A person has a positive degree exactly when some record names them. */
  lemma {:induction false} DegreePositive(w: seq<Payment>, p: string)
    ensures Degree(w, p) > 0 <==> p in People(w)
  {
    if w != [] {
      var init := w[..|w| - 1];
      DegreePositive(init, p);
      assert w == init + [w[|w| - 1]];
      assert People(w) == People(init) + {w[|w| - 1].actor, w[|w| - 1].target};
    }
  }

  lemma PeopleSnoc(w: seq<Payment>, x: Payment)
    ensures People(w + [x]) == People(w) + {x.actor, x.target}
  {
    var w' := w + [x];
    forall y | y in w' ensures y in w || y == x { }
    assert x in w';
    forall y | y in w ensures y in w' { }
  }

  /** Two increments, read at one key. */
  lemma IncTwiceAt(counter: map<string, nat>, a: string, b: string, p: string)
    ensures p in Inc(Inc(counter, a), b) <==> p in counter || p == a || p == b
    ensures p in Inc(Inc(counter, a), b) ==>
      Inc(Inc(counter, a), b)[p] == (if p in counter then counter[p] else 0) + (if a == p then 1 else 0) + (if b == p then 1 else 0)
  {
  }

  /** Adding one record to the window adds one to its actor's tally and one
      to its target's: this is how the source fills the `Counter`, and it
      makes a self-payment count twice for one person. */
  lemma DegreesSnoc(w: seq<Payment>, x: Payment)
    ensures Degrees(w + [x]) == Inc(Inc(Degrees(w), x.actor), x.target)
  {
    var w' := w + [x];
    assert w'[..|w'| - 1] == w;
    PeopleSnoc(w, x);
    var lhs := Degrees(w');
    var rhs := Inc(Inc(Degrees(w), x.actor), x.target);
    forall p ensures (p in lhs <==> p in rhs) && (p in lhs ==> lhs[p] == rhs[p]) {
      IncTwiceAt(Degrees(w), x.actor, x.target, p);
      DegreePositive(w, p);
    }
    assert lhs == rhs;
  }

  /** The order of two increments does not matter. */
  lemma IncCommute(counter: map<string, nat>, a: string, b: string)
    ensures Inc(Inc(counter, a), b) == Inc(Inc(counter, b), a)
  {
  }

  /** Taking out the record at `j` takes its ends out of every degree. */
  lemma DegreeRemoveAt(b: seq<Payment>, j: nat, p: string)
    requires j < |b|
    ensures Degree(b, p) == Degree(b[..j] + b[j + 1..], p) + Hits(b[j], p)
  {
    assert b == (b[..j] + [b[j]]) + b[j + 1..];
    DegreeAppend(b[..j] + [b[j]], b[j + 1..], p);
    DegreeAppend(b[..j], [b[j]], p);
    DegreeAppend(b[..j], b[j + 1..], p);
    assert [b[j]][..0] == [];
  }

  lemma MultisetRemoveAt(b: seq<Payment>, j: nat)
    requires j < |b|
    ensures multiset(b[..j] + b[j + 1..]) == multiset(b) - multiset{b[j]}
  {
    assert b == b[..j] + [b[j]] + b[j + 1..];
  }

  /** Degrees do not depend on the order of the window. */
  lemma {:induction false} DegreePermutation(a: seq<Payment>, b: seq<Payment>, p: string)
    requires multiset(a) == multiset(b)
    ensures Degree(a, p) == Degree(b, p)
    decreases |a|
  {
    if a == [] {
      assert |b| == |multiset(b)| == 0;
    } else {
      var x := a[|a| - 1];
      var init := a[..|a| - 1];
      assert multiset(init) == multiset(a) - multiset{x} by {
        assert a == init + [x];
      }
      assert x in multiset(b);
      var j :| 0 <= j < |b| && b[j] == x;
      MultisetRemoveAt(b, j);
      DegreePermutation(init, b[..j] + b[j + 1..], p);
      DegreeRemoveAt(b, j, p);
    }
  }

  /** Two orderings of the same records have the same degree map. */
  lemma DegreesPermutation(a: seq<Payment>, b: seq<Payment>)
    requires multiset(a) == multiset(b)
    ensures Degrees(a) == Degrees(b)
  {
    forall x ensures x in a <==> x in b {
      assert x in a <==> x in multiset(a);
      assert x in b <==> x in multiset(b);
    }
    assert People(a) == People(b);
    forall p | p in People(a) ensures Degree(a, p) == Degree(b, p) {
      DegreePermutation(a, b, p);
    }
  }

  lemma RemoveOne(counter: map<string, nat>, k: string)
    requires k in counter
    ensures |counter - {k}| == |counter| - 1
  {
    assert (counter - {k}).Keys == counter.Keys - {k};
  }

  lemma RemoveTwo(counter: map<string, nat>, j: string, k: string)
    requires j in counter && k in counter && j != k
    ensures counter - {j} - {k} == counter - {k} - {j}
    ensures |counter - {j}| < |counter| && |counter - {k}| < |counter|
    ensures k in counter - {j} && (counter - {j})[k] == counter[k]
    ensures j in counter - {k} && (counter - {k})[j] == counter[j]
  {
    RemoveOne(counter, j);
    RemoveOne(counter, k);
  }

  /** The sum of the counts of a tally. */
  ghost function Total(counter: map<string, nat>): nat
    decreases |counter|
  {
    if counter == map[] then 0
    else
      var k :| k in counter;
      counter[k] + Total(counter - {k})
  }

  /** The sum does not depend on which key is taken first. */
  lemma {:induction false} TotalPick(counter: map<string, nat>, k: string)
    requires k in counter
    ensures Total(counter) == counter[k] + Total(counter - {k})
    decreases |counter|
  {
    var j :| j in counter && Total(counter) == counter[j] + Total(counter - {j});
    if j != k {
      RemoveTwo(counter, j, k);
      TotalPick(counter - {j}, k);
      TotalPick(counter - {k}, j);
    }
  }

  lemma TotalInc(counter: map<string, nat>, k: string)
    ensures Total(Inc(counter, k)) == Total(counter) + 1
  {
    TotalPick(Inc(counter, k), k);
    if k in counter {
      TotalPick(counter, k);
      assert Inc(counter, k) - {k} == counter - {k};
    } else {
      assert Inc(counter, k) - {k} == counter;
    }
  }

  /** The tallies of a window sum to twice the number of its records. */
  lemma {:induction false} Handshake(w: seq<Payment>)
    ensures Total(Degrees(w)) == 2 * |w|
  {
    if w == [] {
      assert Degrees(w) == map[];
    } else {
      var init := w[..|w| - 1];
      Handshake(init);
      assert w == init + [w[|w| - 1]];
      DegreesSnoc(init, w[|w| - 1]);
      TotalInc(Degrees(init), w[|w| - 1].actor);
      TotalInc(Inc(Degrees(init), w[|w| - 1].actor), w[|w| - 1].target);
    }
  }

  /** A non-empty window gives a non-empty tally. */
  lemma DegreesNonEmpty(w: seq<Payment>)
    requires w != []
    ensures |Degrees(w)| > 0
  {
    assert w[0] in w;
    assert w[0].actor in Degrees(w);
  }
}
