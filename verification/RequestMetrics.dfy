/** `RequestMetrics`: counters and histograms of the governed requests, per surface. */
module RequestMetrics {
  import opened Histograms

  datatype Surface = Gateway | Mcp | Integration
  datatype Action = ALLOW | BLOCK | REDACT | CIRCUIT_BREAK | ERROR

  /** A label as a caller gives it: Unknown is a name that is not in the fixed set. */
  datatype Named<+T> = Known(value: T) | Unknown

  const ACTIONS: seq<Action> := [ALLOW, BLOCK, REDACT, CIRCUIT_BREAK, ERROR]

  datatype Request = Request(surface: Surface, action: Action)

  /** The bounds of the two histogram families, and the surfaces that have samples from the start. */
  datatype Config = Config(request: Bounds, governance: Bounds, surfaces: seq<Surface>)

  // ----- The fields, and what one call makes of them

  datatype Fields = Fields(requests: map<Request, nat>, requestDuration: map<Surface, State>,
    governanceDuration: map<Surface, State>)

  function Zeroed(requests: map<Request, nat>, s: Surface, actions: seq<Action>): map<Request, nat>
    decreases |actions|
  {
    if actions == [] then requests else Zeroed(requests[Request(s, actions[0]) := 0], s, actions[1..])
  }

  /** The histogram of a surface; an empty one before its first call. */
  function StateOf(states: map<Surface, State>, s: Surface, bounds: Bounds): State {
    if s in states then states[s] else Empty(bounds)
  }

  /** `_series`: the samples of a surface, at 0, unless it has them. */
  function Live(f: Fields, s: Surface, c: Config): Fields {
    if s in f.requestDuration then f
    else Fields(Zeroed(f.requests, s, ACTIONS), f.requestDuration[s := Empty(c.request)],
      f.governanceDuration[s := Empty(c.governance)])
  }

  datatype Call =
    | Count(surface: Named<Surface>, action: Named<Action>)
    | ObserveRequest(surface: Named<Surface>, seconds: real)
    | ObserveGovernance(surface: Named<Surface>, seconds: real)

  /** A call with a name that is not in its set raises ValueError. */
  predicate Raises(call: Call) { call.surface.Unknown? || (call.Count? && call.action.Unknown?) }

  /** The fields after a call. */
  function Called(f: Fields, call: Call, c: Config): Fields {
    if Raises(call) then f
    else
      var s := call.surface.value;
      var g := Live(f, s, c);
      match call
      case Count(_, action) =>
        var r := Request(s, action.value);
        g.(requests := g.requests[r := (if r in g.requests then g.requests[r] else 0) + 1])
      case ObserveRequest(_, seconds) =>
        var state := StateOf(g.requestDuration, s, c.request);
        g.(requestDuration := g.requestDuration[s := Observed(c.request, state, seconds)])
      case ObserveGovernance(_, seconds) =>
        var state := StateOf(g.governanceDuration, s, c.governance);
        g.(governanceDuration := g.governanceDuration[s := Observed(c.governance, state, seconds)])
  }

  function Started(f: Fields, surfaces: seq<Surface>, c: Config): Fields
    decreases |surfaces|
  {
    if surfaces == [] then f else Started(Live(f, surfaces[0], c), surfaces[1..], c)
  }

  const NO_SAMPLES := Fields(map[], map[], map[])

  function AfterCalls(calls: seq<Call>, c: Config): Fields {
    if calls == [] then Started(NO_SAMPLES, c.surfaces, c)
    else Called(AfterCalls(calls[..|calls| - 1], c), calls[|calls| - 1], c)
  }

  // ----- The class, as it runs

  class RequestMetrics {
    const config: Config
    var requests: map<Request, nat>
    var requestDuration: map<Surface, State>
    var governanceDuration: map<Surface, State>
    /** Every call so far. */
    ghost var calls: seq<Call>

    ghost predicate Valid()
      reads this
    {
      Fields(requests, requestDuration, governanceDuration) == AfterCalls(calls, config)
    }

    constructor (config: Config)
      ensures Valid() && calls == [] && this.config == config
    {
      this.config := config;
      requests, requestDuration, governanceDuration, calls := map[], map[], map[], [];
      new;
      for i := 0 to |config.surfaces|
        invariant calls == [] && this.config == config
        invariant Started(Fields(requests, requestDuration, governanceDuration), config.surfaces[i..], config)
               == Started(NO_SAMPLES, config.surfaces, config)
      {
        assert config.surfaces[i..][1..] == config.surfaces[i + 1..];
        Series(config.surfaces[i]);
      }
      assert config.surfaces[|config.surfaces|..] == [];
    }

    method Series(s: Surface)
      modifies this`requests, this`requestDuration, this`governanceDuration
      ensures Fields(requests, requestDuration, governanceDuration)
           == Live(old(Fields(requests, requestDuration, governanceDuration)), s, config)
    {
      if s in requestDuration { return; }
      for i := 0 to |ACTIONS|
        invariant Zeroed(requests, s, ACTIONS[i..]) == Zeroed(old(requests), s, ACTIONS)
        invariant requestDuration == old(requestDuration) && governanceDuration == old(governanceDuration)
      {
        assert ACTIONS[i..][1..] == ACTIONS[i + 1..];
        requests := requests[Request(s, ACTIONS[i]) := 0];
      }
      assert ACTIONS[|ACTIONS|..] == [];
      requestDuration := requestDuration[s := Empty(config.request)];
      governanceDuration := governanceDuration[s := Empty(config.governance)];
    }

    method Count(surface: Named<Surface>, action: Named<Action>) returns (ok: bool)
      requires Valid()
      modifies this
      ensures Valid() && calls == old(calls) + [Call.Count(surface, action)]
      ensures ok <==> surface.Known? && action.Known?
    {
      Log(Call.Count(surface, action));
      ok := surface.Known? && action.Known?;
      if action.Unknown? { return; }
      if surface.Unknown? { return; }
      Series(surface.value);
      var r := Request(surface.value, action.value);
      Increment(r);
    }

    method Increment(r: Request)
      modifies this`requests
      ensures requests == old(requests)[r := (if r in old(requests) then old(requests)[r] else 0) + 1]
    {
      requests := requests[r := (if r in requests then requests[r] else 0) + 1];
    }

    method ObserveRequest(surface: Named<Surface>, seconds: real) returns (ok: bool)
      requires Valid()
      modifies this
      ensures Valid() && calls == old(calls) + [Call.ObserveRequest(surface, seconds)]
      ensures ok <==> surface.Known?
    {
      ok := surface.Known?;
      Log(Call.ObserveRequest(surface, seconds));
      if surface.Unknown? { return; }
      var s := surface.value;
      Series(s);
      var state := StateOf(requestDuration, s, config.request);
      requestDuration := requestDuration[s := Observed(config.request, state, seconds)];
    }

    method ObserveGovernance(surface: Named<Surface>, seconds: real) returns (ok: bool)
      requires Valid()
      modifies this
      ensures Valid() && calls == old(calls) + [Call.ObserveGovernance(surface, seconds)]
      ensures ok <==> surface.Known?
    {
      ok := surface.Known?;
      Log(Call.ObserveGovernance(surface, seconds));
      if surface.Unknown? { return; }
      var s := surface.value;
      Series(s);
      var state := StateOf(governanceDuration, s, config.governance);
      governanceDuration := governanceDuration[s := Observed(config.governance, state, seconds)];
    }

    /** The counter samples of a surface: one for each action, in the fixed order. */
    method Counters(s: Surface) returns (values: seq<nat>)
      requires Valid() && s in requestDuration
      ensures |values| == |ACTIONS|
      ensures forall k :: 0 <= k < |ACTIONS| ==> values[k] == Counted(calls, Request(s, ACTIONS[k]))
    {
      SurfacesWithSamples(calls, config, s);
      values := [];
      for k := 0 to |ACTIONS|
        invariant |values| == k
        invariant forall j :: 0 <= j < k ==> values[j] == Counted(calls, Request(s, ACTIONS[j]))
      {
        CountersAreCounts(calls, config, Request(s, ACTIONS[k]));
        values := values + [requests[Request(s, ACTIONS[k])]];
      }
    }

    method RequestSamples(s: Surface) returns (samples: seq<nat>)
      requires Valid() && s in requestDuration
      ensures AreSamples(samples, config.request, Durations(calls, s))
    {
      RequestHistogramIsLog(calls, config, s);
      samples := Samples(config.request, requestDuration[s], Durations(calls, s));
    }

    method GovernanceSamples(s: Surface) returns (samples: seq<nat>)
      requires Valid() && s in governanceDuration
      ensures AreSamples(samples, config.governance, Decisions(calls, s))
    {
      GovernanceHistogramIsLog(calls, config, s);
      samples := Samples(config.governance, governanceDuration[s], Decisions(calls, s));
    }

    ghost method Log(call: Call)
      modifies this`calls
      ensures calls == old(calls) + [call]
      ensures AfterCalls(calls, config) == Called(AfterCalls(old(calls), config), call, config)
    {
      calls := calls + [call];
      assert calls[..|calls| - 1] == old(calls);
    }
  }

  // ----- Main results, for every sequence of calls

  /** A surface has samples from the start, or once a call named it without raising. */
  predicate HasSamples(calls: seq<Call>, c: Config, s: Surface) {
    if calls == [] then s in c.surfaces
    else
      || HasSamples(calls[..|calls| - 1], c, s)
      || (!Raises(calls[|calls| - 1]) && calls[|calls| - 1].surface.value == s)
  }

  /** The samples at the start are 0. */
  lemma {:induction false} StartsAtZero(f: Fields, surfaces: seq<Surface>, c: Config, r: Request)
    requires (r in f.requests <==> r.surface in f.requestDuration) && (r in f.requests ==> f.requests[r] == 0)
    requires r.surface in f.requestDuration <==> r.surface in f.governanceDuration
    requires StateOf(f.requestDuration, r.surface, c.request) == Empty(c.request)
    requires StateOf(f.governanceDuration, r.surface, c.governance) == Empty(c.governance)
    ensures var g := Started(f, surfaces, c);
            && (r.surface in g.requestDuration <==> r.surface in f.requestDuration || r.surface in surfaces)
            && (r.surface in g.requestDuration <==> r.surface in g.governanceDuration)
            && (r in g.requests <==> r.surface in g.requestDuration) && (r in g.requests ==> g.requests[r] == 0)
            && StateOf(g.requestDuration, r.surface, c.request) == Empty(c.request)
            && StateOf(g.governanceDuration, r.surface, c.governance) == Empty(c.governance)
    decreases |surfaces|
  {
    if surfaces != [] {
      ZeroedAt(f.requests, surfaces[0], ACTIONS, r);
      AllActions(r.action);
      StartsAtZero(Live(f, surfaces[0], c), surfaces[1..], c, r);
      assert surfaces == [surfaces[0]] + surfaces[1..];
    }
  }

  /** The counted requests of a surface and action. */
  function Counted(calls: seq<Call>, r: Request): nat {
    if calls == [] then 0
    else
      var last := calls[|calls| - 1];
      Counted(calls[..|calls| - 1], r) + (if last == Call.Count(Known(r.surface), Known(r.action)) then 1 else 0)
  }

  function Durations(calls: seq<Call>, s: Surface): seq<real> {
    if calls == [] then []
    else
      var last := calls[|calls| - 1];
      var before := Durations(calls[..|calls| - 1], s);
      if last.ObserveRequest? && last.surface == Known(s) then before + [last.seconds] else before
  }

  function Decisions(calls: seq<Call>, s: Surface): seq<real> {
    if calls == [] then []
    else
      var last := calls[|calls| - 1];
      var before := Decisions(calls[..|calls| - 1], s);
      if last.ObserveGovernance? && last.surface == Known(s) then before + [last.seconds] else before
  }

  lemma {:induction false} ZeroedAt(requests: map<Request, nat>, s: Surface, actions: seq<Action>, r: Request)
    ensures r in Zeroed(requests, s, actions) <==> r in requests || (r.surface == s && r.action in actions)
    ensures r in Zeroed(requests, s, actions) ==>
      Zeroed(requests, s, actions)[r] == if r.surface == s && r.action in actions then 0 else requests[r]
    decreases |actions|
  {
    if actions != [] {
      ZeroedAt(requests[Request(s, actions[0]) := 0], s, actions[1..], r);
      assert actions == [actions[0]] + actions[1..];
    }
  }

  lemma AllActions(a: Action)
    ensures a in ACTIONS
  {
    match a
    case ALLOW => assert ACTIONS[0] == a;
    case BLOCK => assert ACTIONS[1] == a;
    case REDACT => assert ACTIONS[2] == a;
    case CIRCUIT_BREAK => assert ACTIONS[3] == a;
    case ERROR => assert ACTIONS[4] == a;
  }

  lemma {:induction false} SurfacesWithSamples(calls: seq<Call>, c: Config, s: Surface)
    ensures s in AfterCalls(calls, c).requestDuration <==> HasSamples(calls, c, s)
    ensures s in AfterCalls(calls, c).governanceDuration <==> HasSamples(calls, c, s)
  {
    StartsAtZero(NO_SAMPLES, c.surfaces, c, Request(s, ALLOW));
    if calls != [] { SurfacesWithSamples(calls[..|calls| - 1], c, s); }
  }

  /** Every action of a surface with samples has a counter, and it equals the requests counted for it;
      no other counter exists. */
  lemma {:induction false} CountersAreCounts(calls: seq<Call>, c: Config, r: Request)
    ensures var f := AfterCalls(calls, c);
            && (r in f.requests <==> HasSamples(calls, c, r.surface))
            && (if r in f.requests then f.requests[r] == Counted(calls, r) else Counted(calls, r) == 0)
  {
    StartsAtZero(NO_SAMPLES, c.surfaces, c, r);
    if calls != [] {
      var before, last := calls[..|calls| - 1], calls[|calls| - 1];
      var f := AfterCalls(before, c);
      CountersAreCounts(before, c, r);
      SurfacesWithSamples(before, c, r.surface);
      if !Raises(last) {
        ZeroedAt(f.requests, last.surface.value, ACTIONS, r);
        AllActions(r.action);
      }
    }
  }

  lemma DurationStep(f: Fields, call: Call, c: Config, s: Surface)
    ensures StateOf(Called(f, call, c).requestDuration, s, c.request) ==
      if call.ObserveRequest? && call.surface == Known(s)
      then Observed(c.request, StateOf(f.requestDuration, s, c.request), call.seconds)
      else StateOf(f.requestDuration, s, c.request)
  {}

  lemma DecisionStep(f: Fields, call: Call, c: Config, s: Surface)
    requires s in f.requestDuration <==> s in f.governanceDuration
    ensures StateOf(Called(f, call, c).governanceDuration, s, c.governance) ==
      if call.ObserveGovernance? && call.surface == Known(s)
      then Observed(c.governance, StateOf(f.governanceDuration, s, c.governance), call.seconds)
      else StateOf(f.governanceDuration, s, c.governance)
  {}

  /** The request histogram of a surface is that of the durations observed for it. */
  lemma {:induction false} RequestHistogramIsLog(calls: seq<Call>, c: Config, s: Surface)
    ensures StateOf(AfterCalls(calls, c).requestDuration, s, c.request) == After(c.request, Durations(calls, s))
  {
    StartsAtZero(NO_SAMPLES, c.surfaces, c, Request(s, ALLOW));
    if calls != [] {
      var before, last := calls[..|calls| - 1], calls[|calls| - 1];
      RequestHistogramIsLog(before, c, s);
      DurationStep(AfterCalls(before, c), last, c, s);
      if last.ObserveRequest? { AfterOneMore(c.request, Durations(before, s), last.seconds); }
    }
  }

  /** The governance histogram of a surface is that of the decision times observed for it. */
  lemma {:induction false} GovernanceHistogramIsLog(calls: seq<Call>, c: Config, s: Surface)
    ensures StateOf(AfterCalls(calls, c).governanceDuration, s, c.governance)
      == After(c.governance, Decisions(calls, s))
  {
    StartsAtZero(NO_SAMPLES, c.surfaces, c, Request(s, ALLOW));
    if calls != [] {
      var before, last := calls[..|calls| - 1], calls[|calls| - 1];
      GovernanceHistogramIsLog(before, c, s);
      SurfacesWithSamples(before, c, s);
      DecisionStep(AfterCalls(before, c), last, c, s);
      if last.ObserveGovernance? { AfterOneMore(c.governance, Decisions(before, s), last.seconds); }
    }
  }
}

/** The bucket bounds of the two families. */
module MetricBuckets {
  import opened Histograms
  import RequestMetrics

  const REQUEST_BUCKETS: seq<real> :=
    [0.005, 0.01, 0.025, 0.05, 0.1, 0.25, 0.5, 1.0, 2.5, 5.0, 10.0, 30.0, 60.0, 120.0, 300.0]
  const GOVERNANCE_BUCKETS: seq<real> :=
    [0.0005, 0.001, 0.0025, 0.005, 0.01, 0.025, 0.05, 0.1, 0.25, 0.5, 1.0, 2.5, 5.0]

  lemma BucketsIncreasing()
    ensures Increasing(REQUEST_BUCKETS) && Increasing(GOVERNANCE_BUCKETS)
  {}

  method NewRequestMetrics(surfaces: seq<RequestMetrics.Surface>) returns (metrics: RequestMetrics.RequestMetrics)
    ensures metrics.Valid() && metrics.calls == []
    ensures metrics.config == RequestMetrics.Config(REQUEST_BUCKETS, GOVERNANCE_BUCKETS, surfaces)
  {
    BucketsIncreasing();
    metrics := new RequestMetrics.RequestMetrics(RequestMetrics.Config(REQUEST_BUCKETS, GOVERNANCE_BUCKETS, surfaces));
  }
}
