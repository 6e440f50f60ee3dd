/** The per-event step of the rolling-median stream as a function on values:
    the reference that the linked-list implementation is proved against. */
module Stream {
  import opened Wrappers
  import opened Windows
  import opened Tally
  import opened Medians

  /** What `process` keeps between lines: the window in list order, the
      watermark `window_end`, `last_median`, and the values emitted so far. */
  datatype State = State(window: seq<Payment>, windowEnd: Option<int>, lastMedian: Option<real>, output: seq<real>)

  /** Before the first line: empty list, no watermark, no median. */
  const Initial: State := State([], None, None, [])

  /** The median vertex degree of a non-empty window. */
  ghost function WindowMedian(w: seq<Payment>): real
    requires w != []
  {
    DegreesNonEmpty(w);
    BagSize(Degrees(w));
    SortDescendingSpec(Bag(Degrees(w)));
    Median(SortDescending(Bag(Degrees(w))))
  }

  /** Any descending arrangement of a window's tally gives its median,
      whatever order `most_common` puts equal counts in. */
  lemma WindowMedianOf(w: seq<Payment>, ds: seq<nat>)
    requires w != [] && Descending(ds) && multiset(ds) == Bag(Degrees(w))
    ensures |ds| > 0 && WindowMedian(w) == Median(ds)
  {
    DegreesNonEmpty(w);
    BagSize(Degrees(w));
    SortDescendingSpec(Bag(Degrees(w)));
    DescendingUnique(ds, SortDescending(Bag(Degrees(w))));
  }

  /** An event is dropped when it does not advance the watermark and lies
      more than 60 seconds before it; the first test is implied by the
      second, so a drop is exactly an event before the window's start. */
  predicate Dropped(s: State, e: Payment): (b: bool)
    ensures b <==> s.windowEnd.Some? && e.time < s.windowEnd.value - WindowSeconds
  {
    s.windowEnd.Some? && !(e.time > s.windowEnd.value) && Stale(s.windowEnd.value, e.time)
  }

  /** The watermark after event `e`: advanced when `e` is later, or set by the first event. */
  function Advance(windowEnd: Option<int>, t: int): (r: int)
    ensures windowEnd.Some? ==> r >= windowEnd.value
    ensures r >= t
  {
    if windowEnd.None? || t > windowEnd.value then t else windowEnd.value
  }

  /** One input line. A dropped event repeats the last median; any other
      event evicts the stale records, joins the window in time order, and
      emits the median of the new window. */
  ghost function Step(s: State, e: Payment): (r: State)
    requires s.windowEnd.Some? ==> s.lastMedian.Some?
    ensures r.windowEnd.Some? && r.lastMedian.Some?
    ensures r.output == s.output + [r.lastMedian.value]
  {
    if Dropped(s, e) then s.(output := s.output + [s.lastMedian.value])
    else
      var windowEnd := Advance(s.windowEnd, e.time);
      var w := InsertOrdered(Evict(s.window, windowEnd), e);
      InsertOrderedPermutation(Evict(s.window, windowEnd), e);
      assert |multiset(w)| > 0;
      var m := WindowMedian(w);
      State(w, Some(windowEnd), Some(m), s.output + [m])
  }

  /** `Step` on an accepted event, spelled out. */
  lemma AcceptedStep(s: State, e: Payment)
    requires (s.windowEnd.Some? ==> s.lastMedian.Some?) && !Dropped(s, e)
    ensures var windowEnd := Advance(s.windowEnd, e.time);
      var w := InsertOrdered(Evict(s.window, windowEnd), e);
      w != [] && Step(s, e) == State(w, Some(windowEnd), Some(WindowMedian(w)), s.output + [WindowMedian(w)])
  {
    var windowEnd := Advance(s.windowEnd, e.time);
    InsertOrderedPermutation(Evict(s.window, windowEnd), e);
    assert |multiset(InsertOrdered(Evict(s.window, windowEnd), e))| > 0;
  }

  /** What holds between lines: before the first event nothing is set;
      afterwards the window is non-empty, in ascending time order, entirely
      inside the 60-second window of the watermark, and the last median is
      the median of the window and was the last value emitted. */
  ghost predicate Inv(s: State) {
    && (s.windowEnd.None? ==> s.window == [] && s.lastMedian.None?)
    && (s.windowEnd.Some? ==>
         && s.window != []
         && Ascending(s.window)
         && (forall i :: 0 <= i < |s.window| ==>
               s.window[i].time <= s.windowEnd.value && !Stale(s.windowEnd.value, s.window[i].time))
         && s.lastMedian == Some(WindowMedian(s.window))
         && s.output != [] && s.output[|s.output| - 1] == s.lastMedian.value)
  }

  lemma InitialInv()
    ensures Inv(Initial)
  {
  }

  /** The suffix left by eviction of an ascending window is ascending. */
  lemma EvictAscending(w: seq<Payment>, windowEnd: int)
    requires Ascending(w)
    ensures Ascending(Evict(w, windowEnd))
  {
    EvictDropsStalePrefix(w, windowEnd);
    AscendingSuffix(w, StalePrefix(w, windowEnd));
  }

  /** When every old record and the new one lie inside the window of
      `windowEnd`, so does every record after eviction and insertion. */
  lemma InsertedInside(w: seq<Payment>, windowEnd: int, e: Payment)
    requires forall i :: 0 <= i < |w| ==> w[i].time <= windowEnd
    requires e.time <= windowEnd && !Stale(windowEnd, e.time)
    ensures var r := InsertOrdered(Evict(w, windowEnd), e);
      forall i :: 0 <= i < |r| ==> r[i].time <= windowEnd && !Stale(windowEnd, r[i].time)
  {
    var kept := Evict(w, windowEnd);
    var r := InsertOrdered(kept, e);
    InsertOrderedPermutation(kept, e);
    EvictKeepsFresh(w, windowEnd);
    forall i | 0 <= i < |r| ensures r[i].time <= windowEnd && !Stale(windowEnd, r[i].time) {
      assert r[i] in multiset(r);
      if r[i] != e {
        assert r[i] in multiset(kept);
        assert r[i] in multiset(w);
        var j :| 0 <= j < |w| && w[j] == r[i];
      }
    }
  }

  /** Every accepted event leaves a window that is sorted, holds exactly the
      previously kept records plus the new one, and has no stale record; the
      records removed are exactly the stale prefix of the old window. */
  lemma AcceptedEvent(s: State, e: Payment)
    requires Inv(s) && !Dropped(s, e)
    ensures var r, windowEnd := Step(s, e), Advance(s.windowEnd, e.time);
      && r.windowEnd == Some(windowEnd)
      && Ascending(r.window)
      && multiset(r.window) == multiset(Evict(s.window, windowEnd)) + multiset{e}
      && Evict(s.window, windowEnd) == s.window[StalePrefix(s.window, windowEnd)..]
      && (forall i :: 0 <= i < |s.window| ==>
            (Stale(windowEnd, s.window[i].time) <==> i < StalePrefix(s.window, windowEnd)))
      && (forall i :: 0 <= i < |r.window| ==>
            r.window[i].time <= windowEnd && !Stale(windowEnd, r.window[i].time))
      && r.lastMedian == Some(WindowMedian(r.window))
  {
    var windowEnd := Advance(s.windowEnd, e.time);
    var kept := Evict(s.window, windowEnd);
    EvictDropsStalePrefix(s.window, windowEnd);
    EvictAscending(s.window, windowEnd);
    InsertOrderedAscending(kept, e);
    InsertOrderedPermutation(kept, e);
    InsertedInside(s.window, windowEnd, e);
  }

  /** The step keeps the invariant. */
  lemma StepInv(s: State, e: Payment)
    requires Inv(s)
    ensures Inv(Step(s, e))
  {
    if !Dropped(s, e) {
      AcceptedEvent(s, e);
    }
  }

  /** A dropped event changes neither the window, the watermark nor the last
      median, contributes nobody's degree, and repeats the value emitted
      for the line before. */
  lemma DroppedEvent(s: State, e: Payment)
    requires Inv(s) && Dropped(s, e)
    ensures var r := Step(s, e);
      && r.window == s.window && r.windowEnd == s.windowEnd && r.lastMedian == s.lastMedian
      && Degrees(r.window) == Degrees(s.window)
      && r.output == s.output + [s.output[|s.output| - 1]]
  {
  }

  /** The watermark never decreases, and after an accepted event it is the
      later of the old watermark and the event's time. */
  lemma WatermarkMonotone(s: State, e: Payment)
    requires Inv(s)
    ensures s.windowEnd.Some? ==> Step(s, e).windowEnd.value >= s.windowEnd.value
    ensures !Dropped(s, e) ==>
      Step(s, e).windowEnd.value == if s.windowEnd.Some? && s.windowEnd.value > e.time then s.windowEnd.value else e.time
  {
  }

  /** The state after processing `events` from the start. */
  ghost function Run(events: seq<Payment>): (r: State)
    ensures r.windowEnd.Some? ==> r.lastMedian.Some?
  {
    if events == [] then Initial
    else Step(Run(events[..|events| - 1]), events[|events| - 1])
  }

  /** The latest time among `events`. */
  function MaxTime(events: seq<Payment>): int
    requires events != []
  {
    if |events| == 1 then events[0].time
    else
      var m := MaxTime(events[..|events| - 1]);
      if events[|events| - 1].time > m then events[|events| - 1].time else m
  }

  lemma {:induction false} RunInv(events: seq<Payment>)
    ensures Inv(Run(events))
  {
    if events != [] {
      RunInv(events[..|events| - 1]);
      StepInv(Run(events[..|events| - 1]), events[|events| - 1]);
    }
  }

  /** Every processed line emits exactly one value. */
  lemma {:induction false} RunOutputLength(events: seq<Payment>)
    ensures |Run(events).output| == |events|
  {
    if events != [] {
      RunOutputLength(events[..|events| - 1]);
    }
  }

  /** Once an event has been seen, the watermark is the latest time seen. */
  lemma {:induction false} RunWatermarkIsMax(events: seq<Payment>)
    requires events != []
    ensures Run(events).windowEnd == Some(MaxTime(events))
  {
    var init := events[..|events| - 1];
    if |events| > 1 {
      RunWatermarkIsMax(init);
      RunInv(init);
    }
  }
}
