/** The three-second loss window: a pruned deque that must agree with the full history of samples. */
module PlayLoss {

  const WINDOW: int := 3_000_000_000

  datatype Counts = Counts(sent: nat, received: nat)
  datatype Sample = Sample(time: int, counts: Counts)

  /** One of the two counters is lower than in the sample before. */
  predicate Dropped(before: Counts, after: Counts) {
    after.sent < before.sent || after.received < before.received
  }

  predicate ClockAscends(h: seq<Sample>) {
    forall i, j | 0 <= i <= j < |h| :: h[i].time <= h[j].time
  }

  predicate DropsAt(h: seq<Sample>, j: nat)
    requires 0 < j < |h|
  {
    Dropped(h[j - 1].counts, h[j].counts)
  }

  predicate NoDrops(h: seq<Sample>, i: nat) {
    forall j | i < j < |h| :: !DropsAt(h, j)
  }

  /** Sample i belongs to the window of the last sample: at most three seconds old, with no counter drop since. */
  predicate InWindow(h: seq<Sample>, i: nat)
    requires h != []
  {
    i < |h| && h[i].time >= h[|h| - 1].time - WINDOW && NoDrops(h, i)
  }

  /** The oldest sample of the window. */
  predicate IsBaseline(h: seq<Sample>, i: nat)
    requires h != []
  {
    InWindow(h, i) && forall j | 0 <= j < i :: !InWindow(h, j)
  }

  /** A counter is lower at k than just before it. */
  predicate LowerAt(h: seq<Sample>, k: nat) {
    0 < k < |h| && (h[k].counts.sent < h[k - 1].counts.sent || h[k].counts.received < h[k - 1].counts.received)
  }

  /**
   In seconds and counters: sample i is at most three seconds older than the last and no counter is lower since; every
   sample before it is older than that, or a counter is lower between it and i.
   */
  ghost predicate IsOldestOfThreeSeconds(h: seq<Sample>, i: nat) {
    && i < |h| && h[i].time >= h[|h| - 1].time - 3_000_000_000
    && (forall k: nat | i < k :: !LowerAt(h, k))
    && forall j | 0 <= j < i :: h[j].time < h[|h| - 1].time - 3_000_000_000 || exists k: nat | j < k :: LowerAt(h, k)
  }

  lemma BaselineIs(h: seq<Sample>, i: nat)
    requires h != [] && IsBaseline(h, i)
    ensures IsOldestOfThreeSeconds(h, i)
  {
    forall k: nat | i < k ensures !LowerAt(h, k) {
      if k < |h| { assert !DropsAt(h, k); }
    }
    forall j | 0 <= j < i && h[j].time >= h[|h| - 1].time - 3_000_000_000
      ensures exists k: nat | j < k :: LowerAt(h, k)
    {
      assert !InWindow(h, j);
      var k :| j < k < |h| && DropsAt(h, k);
      assert LowerAt(h, k);
    }
  }

  class LossWindow {
    var samples: seq<Sample>
    /** Every sample ever taken. */
    ghost var history: seq<Sample>

    /** The deque is the end of the history, and everything since the last drop that it lacks has expired. */
    ghost predicate Valid()
      reads this
    {
      && ClockAscends(history)
      && |samples| <= |history| && samples == history[|history| - |samples|..]
      && (history != [] ==> samples != [] && IsBaseline(history, |history| - |samples|))
    }

    constructor ()
      ensures Valid() && history == []
    {
      samples, history := [], [];
    }

    /** The counts since the oldest sample of the window; the subtractions never go below zero. */
    method Update(now: int, sent: nat, received: nat) returns (counts: Counts, ghost baseline: nat)
      requires Valid() && (history != [] ==> history[|history| - 1].time <= now)
      modifies this
      ensures Valid() && history == old(history) + [Sample(now, Counts(sent, received))]
      ensures IsBaseline(history, baseline) && IsOldestOfThreeSeconds(history, baseline)
      ensures history[baseline].counts.sent <= sent && history[baseline].counts.received <= received
      ensures counts == Counts(sent - history[baseline].counts.sent, received - history[baseline].counts.received)
    {
      hide ClockAscends, IsBaseline, InWindow, NoDrops;
      ghost var first := Push(now, sent, received);
      ghost var pruned;
      samples, pruned := Prune(samples, now - WINDOW);
      baseline := first + pruned;
      PrunedIsBaseline(history, first, pruned);
      CountsAscend(history, baseline);
      BaselineIs(history, baseline);
      counts := Counts(sent - samples[0].counts.sent, received - samples[0].counts.received);
    }

    /** Clears the deque if a counter has dropped, then appends the new sample. */
    method Push(now: int, sent: nat, received: nat) returns (ghost first: nat)
      requires Valid() && (history != [] ==> history[|history| - 1].time <= now)
      modifies this
      ensures history == old(history) + [Sample(now, Counts(sent, received))] && ClockAscends(history)
      ensures first < |history| && samples == history[first..]
      ensures NoDrops(history, first) && forall j | 0 <= j < first :: !InWindow(history, j)
    {
      hide ClockAscends, IsBaseline, InWindow, NoDrops;
      first := |history| - |samples|;
      if samples != []
         && (sent < samples[|samples| - 1].counts.sent || received < samples[|samples| - 1].counts.received) {
        samples, first := [], |history|;
      }
      OldSamplesStayOut(history, Sample(now, Counts(sent, received)), first);
      samples := samples + [Sample(now, Counts(sent, received))];
      history := history + [Sample(now, Counts(sent, received))];
    }
  }

  /** The pruning loop: pop expired samples, but never the last one. */
  method Prune(taken: seq<Sample>, cutoff: int) returns (samples: seq<Sample>, ghost pruned: nat)
    requires taken != []
    ensures pruned < |taken| && samples == taken[pruned..]
    ensures forall j | 0 <= j < pruned :: taken[j].time < cutoff
    ensures pruned == |taken| - 1 || taken[pruned].time >= cutoff
  {
    samples, pruned := taken, 0;
    while |samples| > 1 && samples[0].time < cutoff
      invariant pruned < |taken| && samples == taken[pruned..]
      invariant forall j | 0 <= j < pruned :: taken[j].time < cutoff
    {
      samples, pruned := samples[1..], pruned + 1;
    }
  }

  lemma PrunedIsBaseline(h: seq<Sample>, start: nat, pruned: nat)
    requires start + pruned < |h| && NoDrops(h, start)
    requires forall j | 0 <= j < start :: !InWindow(h, j)
    requires forall j | 0 <= j < pruned :: h[start..][j].time < h[|h| - 1].time - WINDOW
    requires start + pruned == |h| - 1 || h[start..][pruned].time >= h[|h| - 1].time - WINDOW
    ensures IsBaseline(h, start + pruned) && NoDrops(h, start + pruned)
  {
    forall j | 0 <= j < start + pruned ensures !InWindow(h, j) {
      if j >= start { assert h[start..][j - start] == h[j]; }
    }
  }

  /** A sample outside the window stays outside; after a drop only the new sample is inside. */
  lemma OldSamplesStayOut(h: seq<Sample>, next: Sample, start: nat)
    requires ClockAscends(h) && (h != [] ==> h[|h| - 1].time <= next.time)
    requires start <= |h|
    requires if h != [] && Dropped(h[|h| - 1].counts, next.counts) then start == |h|
             else h != [] ==> IsBaseline(h, start)
    requires h == [] ==> start == 0
    ensures ClockAscends(h + [next]) && NoDrops(h + [next], start)
    ensures forall j | 0 <= j < start :: !InWindow(h + [next], j)
  {
    var all := h + [next];
    assert forall j | 0 < j < |h| :: DropsAt(all, j) == DropsAt(h, j);
    forall j | 0 <= j < start
      ensures !InWindow(all, j)
    {
      if Dropped(h[|h| - 1].counts, next.counts) {
        assert DropsAt(all, |h|);
      } else if h[j].time >= h[|h| - 1].time - WINDOW {
        assert !InWindow(h, j) && !NoDrops(h, j);
        var k :| j < k < |h| && DropsAt(h, k);
        assert DropsAt(all, k);
      }
    }
  }

  lemma {:induction false} CountsAscend(h: seq<Sample>, i: nat)
    requires i < |h| && NoDrops(h, i)
    ensures h[i].counts.sent <= h[|h| - 1].counts.sent && h[i].counts.received <= h[|h| - 1].counts.received
    decreases |h| - i
  {
    if i + 1 < |h| {
      assert !DropsAt(h, i + 1);
      CountsAscend(h, i + 1);
    }
  }
}
