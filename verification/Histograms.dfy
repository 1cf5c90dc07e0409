/** Prometheus histograms that refine a log of observations. */
module Histograms {
  import opened Sequences

  predicate Increasing(bounds: seq<real>) { forall i, j :: 0 <= i < j < |bounds| ==> bounds[i] <= bounds[j] }

  /** The upper bounds of the buckets. */
  type Bounds = b: seq<real> | Increasing(b) witness []

  /** `bisect_left`: the number of bounds below `v`, in sorted bounds. */
  function Slot(bounds: seq<real>, v: real): (i: nat)
    ensures i <= |bounds|
  {
    if bounds == [] || bounds[0] >= v then 0 else 1 + Slot(bounds[1..], v)
  }

  lemma {:induction false} SlotAtMost(bounds: Bounds, v: real, i: nat)
    requires i < |bounds|
    ensures Slot(bounds, v) <= i <==> v <= bounds[i]
  {
    if bounds[0] < v && i > 0 { SlotAtMost(bounds[1..], v, i - 1); }
  }

  // ----- The state of a histogram, and the log it stands for

  /** `counts` are per slot, not cumulative; the last slot is above every bound. */
  datatype State = State(count: nat, sum: real, counts: seq<nat>)

  function Empty(bounds: Bounds): State { State(0, 0.0, seq(|bounds| + 1, i => 0)) }

  function Clamped(v: real): real { if v > 0.0 then v else 0.0 }

  function OneMore(counts: seq<nat>, i: nat): seq<nat> { if i < |counts| then counts[i := counts[i] + 1] else counts }

  function Observed(bounds: Bounds, s: State, value: real): State {
    var v := Clamped(value);
    State(s.count + 1, s.sum + v, OneMore(s.counts, Slot(bounds, v)))
  }

  /** The state after the observations of a log, oldest first. */
  function After(bounds: Bounds, log: seq<real>): (s: State)
    ensures |s.counts| == |bounds| + 1
  {
    if log == [] then Empty(bounds) else Observed(bounds, After(bounds, log[..|log| - 1]), log[|log| - 1])
  }

  lemma AfterOneMore(bounds: Bounds, log: seq<real>, value: real)
    ensures After(bounds, log + [value]) == Observed(bounds, After(bounds, log), value)
  {
    assert (log + [value])[..|log|] == log;
  }

  /** The observations of a log at or below `bound`, negative ones as 0. */
  function AtMost(log: seq<real>, bound: real): nat {
    if log == [] then 0 else AtMost(log[..|log| - 1], bound) + (if Clamped(log[|log| - 1]) <= bound then 1 else 0)
  }

  function Total(log: seq<real>): real { if log == [] then 0.0 else Total(log[..|log| - 1]) + Clamped(log[|log| - 1]) }

  /** One more observation: a negative one counts, and adds, as 0. */
  lemma OneMoreObservation(log: seq<real>, v: real, bound: real)
    ensures AtMost([], bound) == 0 && Total([]) == 0.0
    ensures AtMost(log + [v], bound) == AtMost(log, bound) + if v <= bound && 0.0 <= bound then 1 else 0
    ensures Total(log + [v]) == if v < 0.0 then Total(log) else Total(log) + v
  {
    assert (log + [v])[..|log|] == log;
  }

  function SumTo(counts: seq<nat>, n: nat): nat
    requires n <= |counts|
  {
    if n == 0 then 0 else SumTo(counts, n - 1) + counts[n - 1]
  }

  lemma {:induction false} SumToUpdated(counts: seq<nat>, i: nat, n: nat)
    requires i < |counts| && n <= |counts|
    ensures SumTo(counts[i := counts[i] + 1], n) == SumTo(counts, n) + (if i < n then 1 else 0)
  {
    if n > 0 { SumToUpdated(counts, i, n - 1); }
  }

  lemma {:induction false} SumOfEmpty(bounds: Bounds, n: nat)
    requires n <= |bounds| + 1
    ensures SumTo(Empty(bounds).counts, n) == 0
  {
    if n > 0 { SumOfEmpty(bounds, n - 1); }
  }

  /** The slots up to a bound hold exactly the observations at or below it. */
  lemma {:induction false} CumulativeIsAtMost(bounds: Bounds, log: seq<real>, i: nat)
    requires i < |bounds|
    ensures SumTo(After(bounds, log).counts, i + 1) == AtMost(log, bounds[i])
  {
    if log == [] {
      SumOfEmpty(bounds, i + 1);
    } else {
      var before := log[..|log| - 1];
      var v := Clamped(log[|log| - 1]);
      CumulativeIsAtMost(bounds, before, i);
      SlotAtMost(bounds, v, i);
      SumToUpdated(After(bounds, before).counts, Slot(bounds, v), i + 1);
    }
  }

  /** All slots together hold all observations, and the sum is their sum. */
  lemma {:induction false} CountAndSum(bounds: Bounds, log: seq<real>)
    ensures var s := After(bounds, log);
            s.count == |log| && s.sum == Total(log) && SumTo(s.counts, |s.counts|) == s.count
  {
    if log == [] {
      SumOfEmpty(bounds, |bounds| + 1);
    } else {
      var before := log[..|log| - 1];
      CountAndSum(bounds, before);
      SumToUpdated(After(bounds, before).counts, Slot(bounds, Clamped(log[|log| - 1])), |bounds| + 1);
    }
  }

  lemma {:induction false} AtMostGrows(log: seq<real>, a: real, b: real)
    requires a <= b
    ensures AtMost(log, a) <= AtMost(log, b) <= |log|
  {
    if log != [] { AtMostGrows(log[..|log| - 1], a, b); }
  }

  /** The `_bucket` samples: each is the number of observations at or below its bound; they never
      decrease; the last, for "+Inf", is the number of observations. */
  ghost predicate AreSamples(samples: seq<nat>, bounds: Bounds, log: seq<real>) {
    && |samples| == |bounds| + 1 && samples[|bounds|] == |log|
    && (forall i :: 0 <= i < |bounds| ==> samples[i] == AtMost(log, bounds[i]))
    && (forall i, j :: 0 <= i < j < |samples| ==> samples[i] <= samples[j])
  }

  /** The loop that accumulates the slots. */
  method Samples(bounds: Bounds, s: State, ghost log: seq<real>) returns (samples: seq<nat>)
    requires s == After(bounds, log)
    ensures AreSamples(samples, bounds, log)
  {
    samples := [];
    var cumulative := 0;
    for i := 0 to |bounds|
      invariant |samples| == i && cumulative == SumTo(s.counts, i)
      invariant forall k :: 0 <= k < i ==> samples[k] == AtMost(log, bounds[k])
    {
      CumulativeIsAtMost(bounds, log, i);
      cumulative := cumulative + s.counts[i];
      samples := samples + [cumulative];
    }
    CountAndSum(bounds, log);
    samples := samples + [s.count];
    forall i, j | 0 <= i < j < |samples| ensures samples[i] <= samples[j] {
      AtMostGrows(log, bounds[i], if j < |bounds| then bounds[j] else bounds[i]);
    }
  }

  class Histogram {
    const buckets: Bounds
    var count: nat
    var sum: real
    var counts: seq<nat>

    ghost function Now(): State
      reads this
    {
      State(count, sum, counts)
    }

    constructor (buckets: Bounds)
      ensures Now() == Empty(buckets) && this.buckets == buckets
    {
      this.buckets := buckets;
      count, sum := 0, 0.0;
      counts := seq(|buckets| + 1, i => 0);
    }

    method Observe(value: real)
      requires |counts| == |buckets| + 1
      modifies this
      ensures Now() == Observed(buckets, old(Now()), value)
    {
      var v := if value > 0.0 then value else 0.0;
      count := count + 1;
      sum := sum + v;
      var i := Slot(buckets, v);
      counts := counts[i := counts[i] + 1];
    }

    method Lines(ghost log: seq<real>) returns (samples: seq<nat>)
      requires Now() == After(buckets, log)
      ensures AreSamples(samples, buckets, log)
    {
      samples := Samples(buckets, State(count, sum, counts), log);
    }
  }

  // ----- The lag monitor: the same histogram over buckets it sorts itself

  predicate AtMostReal(a: real, b: real) { a <= b }

  function SortedBounds(bounds: seq<real>): seq<real> { Sorted(bounds, AtMostReal) }

  /** The monitor's buckets are the given ones, in order. */
  lemma SortedIncreasing(bounds: seq<real>)
    ensures Increasing(SortedBounds(bounds)) && multiset(SortedBounds(bounds)) == multiset(bounds)
  {
    SortedOrdered(bounds, AtMostReal);
    SortedCounts(bounds, AtMostReal);
    var s := SortedBounds(bounds);
    forall i, j | 0 <= i < j < |s| ensures s[i] <= s[j] { assert AtMostReal(s[i], s[j]); }
  }

  class EventLoopLagMonitor {
    const samples: Histogram
    /** Every lag that was sampled. */
    ghost var log: seq<real>

    ghost predicate Valid()
      reads this, samples
    {
      samples.Now() == After(samples.buckets, log)
    }

    constructor (buckets: seq<real>)
      ensures Valid() && log == [] && samples.buckets == SortedBounds(buckets) && fresh(samples)
    {
      SortedIncreasing(buckets);
      samples := new Histogram(SortedBounds(buckets));
      log := [];
    }

    method Observe(lag: real)
      requires Valid()
      modifies this, samples
      ensures Valid() && log == old(log) + [lag]
    {
      AfterOneMore(samples.buckets, log, lag);
      samples.Observe(lag);
      log := log + [lag];
    }

    method Exposition() returns (lines: seq<nat>)
      requires Valid()
      ensures AreSamples(lines, samples.buckets, log)
    {
      lines := samples.Lines(log);
    }
  }
}
