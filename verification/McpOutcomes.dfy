/** The `/mcp` exchange by the raw answers of what surrounds it: answer, decision and effects of every request. */
module McpOutcomes {
  import opened Texts
  import opened McpExchange
  import GP = GovernancePipeline

  // ----- Conditions on the raw answers

  /** The request gets as far as the pipeline. */
  predicate Reaches(e: Env) { e.sessionAllows && e.ipAllows && e.isJson && e.parses && !e.tooLarge }

  /** A forensic record is lost in closed fail mode. */
  predicate Lost(e: Env, store: Store) { e.box && store == Loses && e.forensicClosed }

  /** The store raises another exception than ForensicWriteError. */
  predicate Breaks(e: Env, store: Store) { e.box && store.Fails? }

  predicate GoesOn(e: Env) {
    && Reaches(e) && e.pipeline.Returns? && e.pipeline.value.action == GP.Allow
    && !Lost(e, e.requestStore) && !Breaks(e, e.requestStore)
  }

  /** There is a response to govern. */
  predicate Responds(e: Env) {
    && GoesOn(e)
    && if e.sandboxedTool then e.sandbox == Returns(Ran) && !Lost(e, e.sandboxStore) && !Breaks(e, e.sandboxStore)
       else e.upstream.Returns? || (e.upstream == Raises(true) && e.listsSandboxTools)
  }

  /** A response guard lets the response through. */
  predicate Passes(g: Call<ResponseGuard>, closed: bool) {
    g == Returns(Accepts) || (g == Returns(BreaksContract) && !closed)
  }

  predicate AllPass(e: Env) {
    forall i :: 0 <= i < |e.responseGuards| ==> Passes(e.responseGuards[i], e.guardsClosed)
  }

  /** The guard `n` is the first that does not let the response through. */
  predicate StopsAt(e: Env, n: nat) {
    && n < |e.responseGuards| && !Passes(e.responseGuards[n], e.guardsClosed)
    && forall i :: 0 <= i < n ==> Passes(e.responseGuards[i], e.guardsClosed)
  }

  /** The status of an exception after the allowed request went out. */
  function Failure(e: Env, connect: bool): nat { if connect && !e.sandboxedTool then 502 else 500 }

  /** The decision of an allowed request. */
  function AllowedAs(v: Verdict): Decision { Decision(ALLOW, v.risk, Pipeline, v.piiCount, Some(v.latency)) }

  // ----- The response guards

  lemma {:induction false} FirstStop(guards: seq<Call<ResponseGuard>>, closed: bool, n: nat)
    requires n <= |guards| && forall i :: 0 <= i < n ==> Passes(guards[i], closed)
    requires n < |guards| ==> !Passes(guards[n], closed)
    ensures DecisiveGuard(guards, closed) == if n < |guards| then Some(guards[n]) else None
    decreases n
  {
    if n > 0 { FirstStop(guards[1..], closed, n - 1); }
  }

  /** Every guard lets the response through: the result is returned, and the request stays allowed. */
  lemma AllPassReturns(e: Env)
    requires Responds(e) && e.redaction.Returns? && AllPass(e)
    ensures AnswerOf(e) == if e.sandboxedTool then SandboxResult else UpstreamResult
    ensures FinalDecision(e) == Some(AllowedAs(e.pipeline.value))
  {
    FirstStop(e.responseGuards, e.guardsClosed, |e.responseGuards|);
  }

  /** The first guard that does not: its block is answered 403 and becomes the decision, with its risk; its failure
      in closed mode is a block of high risk, answered as its record ends; its exception is the caller's. */
  lemma FirstStopDecides(e: Env, n: nat)
    requires Responds(e) && e.redaction.Returns? && StopsAt(e, n)
    ensures var d := AllowedAs(e.pipeline.value);
            match e.responseGuards[n]
            case Returns(Rejects(risk)) =>
              && Status(AnswerOf(e)) == Some(403)
              && FinalDecision(e) == Some(d.(action := BLOCK, domain := ResponseGuards,
                                             risk := if risk.Some? then risk.value else GP.High))
            case Returns(BreaksContract) =>
              && FinalDecision(e) == Some(d.(action := BLOCK, domain := ResponseGuards, risk := GP.High))
              && Status(AnswerOf(e)) ==
                   (if Lost(e, e.errorStore) then Some(503)
                    else if Breaks(e, e.errorStore) then Some(Failure(e, e.errorStore.connect)) else Some(403))
            case Returns(Accepts) => false
            case Raises(connect) => Status(AnswerOf(e)) == Some(Failure(e, connect)) && FinalDecision(e) == Some(d)
            case Cancelled => AnswerOf(e) == Propagates && FinalDecision(e) == Some(d)
  {
    FirstStop(e.responseGuards, e.guardsClosed, n);
  }

  /** The redaction of the response fails: no guard sees it. */
  lemma RedactionFails(e: Env)
    requires Responds(e) && !e.redaction.Returns?
    ensures FinalDecision(e) == Some(AllowedAs(e.pipeline.value))
    ensures e.redaction.Raises? ==> Status(AnswerOf(e)) == Some(Failure(e, e.redaction.connect))
    ensures e.redaction.Cancelled? ==> AnswerOf(e) == Propagates
  {}

  lemma {:induction false} SomeStop(guards: seq<Call<ResponseGuard>>, closed: bool) returns (n: nat)
    ensures n <= |guards| && forall i :: 0 <= i < n ==> Passes(guards[i], closed)
    ensures n < |guards| ==> !Passes(guards[n], closed)
  {
    if guards == [] || !Passes(guards[0], closed) {
      n := 0;
    } else {
      n := SomeStop(guards[1..], closed);
      n := n + 1;
    }
  }

  /** A result is returned exactly when there is a response, its redaction succeeds and every guard lets it
      through. */
  lemma ResultExactly(e: Env)
    ensures Status(AnswerOf(e)) == Some(200) <==> Responds(e) && e.redaction.Returns? && AllPass(e)
  {
    var n := SomeStop(e.responseGuards, e.guardsClosed);
    FirstStop(e.responseGuards, e.guardsClosed, n);
  }

  // ----- Before the response

  /** Requests that never reach the pipeline: 429 for a rate limit, 400 for a body that is not JSON, 413 for one
      that is too large. */
  lemma TurnedAway(e: Env)
    requires !Reaches(e)
    ensures FinalDecision(e) == None
    ensures !e.sessionAllows || !e.ipAllows ==> AnswerOf(e) == RateLimited && Status(RateLimited) == Some(429)
    ensures e.sessionAllows && e.ipAllows && !e.isJson ==> Status(AnswerOf(e)) == Some(400)
    ensures e.sessionAllows && e.ipAllows && e.isJson && !e.parses ==> AnswerOf(e) == Propagates
    ensures e.sessionAllows && e.ipAllows && e.isJson && e.parses ==> Status(AnswerOf(e)) == Some(413)
    ensures CountedAs(e) ==
      if !e.sessionAllows || !e.ipAllows || (e.isJson && e.parses && e.tooLarge) then Some(BLOCK) else None
  {}

  /** Requests that end with the verdict of the pipeline, or with its record. */
  lemma JudgedOnly(e: Env)
    requires Reaches(e) && !GoesOn(e)
    ensures match e.pipeline
            case Cancelled => AnswerOf(e) == Propagates && FinalDecision(e) == None
            case Raises(_) =>
              Status(AnswerOf(e)) == Some(500) && FinalDecision(e) == Some(Decision(ERROR, GP.Low, NoDomain, 0, None))
            case Returns(v) =>
              && FinalDecision(e) == Some(AllowedAs(v).(action :=
                   match v.action case Allow => ALLOW case Block => BLOCK case CircuitBreak => CIRCUIT_BREAK))
              && (if Lost(e, e.requestStore) then Status(AnswerOf(e)) == Some(503)
                  else if Breaks(e, e.requestStore) then AnswerOf(e) == Propagates
                  else if v.action == GP.Block then AnswerOf(e) == RequestBlocked && Status(AnswerOf(e)) == Some(403)
                  else AnswerOf(e) == CircuitBroken && Status(AnswerOf(e)) == Some(429))
  {}

  /** Allowed requests without a response to govern. */
  lemma NoResponse(e: Env)
    requires GoesOn(e) && !Responds(e)
    ensures var d := AllowedAs(e.pipeline.value);
            if !e.sandboxedTool then
              && FinalDecision(e) == Some(d)
              && (if e.upstream.Cancelled? then AnswerOf(e) == Propagates
                  else Status(AnswerOf(e)) == Some(Failure(e, e.upstream.connect)))
            else match e.sandbox
              case Cancelled => AnswerOf(e) == Propagates && FinalDecision(e) == Some(d)
              case Raises(_) => Status(AnswerOf(e)) == Some(500) && FinalDecision(e) == Some(d)
              case Returns(run) =>
                if Lost(e, e.sandboxStore) then Status(AnswerOf(e)) == Some(503) && FinalDecision(e) == Some(d)
                else if Breaks(e, e.sandboxStore) then Status(AnswerOf(e)) == Some(500) && FinalDecision(e) == Some(d)
                else if run == Invalid then
                  Status(AnswerOf(e)) == Some(400) && FinalDecision(e) == Some(d.(action := BLOCK, domain := Sandbox))
                else
                  run == Unavailable
                  && Status(AnswerOf(e)) == Some(503)
                  && FinalDecision(e) == Some(d.(action := ERROR, domain := Sandbox))
  {}

  // ----- The effects

  /** The effect of writing a forensic record: none when there is no store, or when it raises. */
  function Wrote(e: Env, store: Store, kind: RecordKind): seq<Effect> {
    if !e.box || Lost(e, store) || Breaks(e, store) then [] else [Recorded(kind, store == Writes)]
  }

  /** The effects of an exchange in the order they happen: the verdict and its record; the run of the tool and its
      record, or the post; the record of a guard that broke its contract. */
  lemma EffectsExactly(e: Env)
    ensures ExchangeEffects(e) ==
      (if Reaches(e) && e.pipeline.Returns?
       then [Judged(e.pipeline.value.action)] + Wrote(e, e.requestStore, OfRequest) else [])
      + (if !GoesOn(e) then []
         else if !e.sandboxedTool then [Posted(e.pipeline.value.body)]
         else [RanTool] + (if e.sandbox.Returns? then Wrote(e, e.sandboxStore, OfSandbox) else []))
      + (if GuardBroke(e) then Wrote(e, e.errorStore, OfResponseError) else [])
  {
    var n := SomeStop(e.responseGuards, e.guardsClosed);
    FirstStop(e.responseGuards, e.guardsClosed, n);
    if GuardBroke(e) {
      var m: nat :| StopsAt(e, m) && e.responseGuards[m] == Returns(BreaksContract);
      assert m == n;
    } else if n < |e.responseGuards| {
      assert StopsAt(e, n);
    }
  }

  ghost predicate GuardBroke(e: Env) {
    Responds(e) && e.redaction.Returns?
    && exists n: nat :: StopsAt(e, n) && e.responseGuards[n] == Returns(BreaksContract)
  }

  // ----- How a decision is recorded

  /** The place of an effect in the record of a decision. */
  function Place(x: Effect): nat {
    match x
    case Counted(_) => 1
    case ObservedGovernance(_) => 2
    case ObservedDuration(_) => 3
    case Emitted(_) => 4
    case Stored(_) => 5
    case _ => 0
  }

  function Fault(fails: Option<RecordStep>): nat {
    match fails
    case None => 6
    case Some(CountStep) => 1
    case Some(GovernanceStep) => 2
    case Some(DurationStep) => 3
    case Some(EmitStep) => 4
    case Some(StoreStep) => 5
  }

  /** The effects that the record of `d` has when nothing fails, one of each place at most. */
  predicate Wanted(x: Effect, d: Decision, duration: nat, clickhouse: bool) {
    match x
    case Counted(action) => action == if d.action == ALLOW && d.piiCount > 0 then REDACT else d.action
    case ObservedGovernance(latency) => d.latency == Some(latency)
    case ObservedDuration(time) => time == duration
    case Emitted(event) => event == d && d.action != ERROR
    case Stored(row) => row == d && d.action != ERROR && clickhouse
    case _ => false
  }

  /** The call that fails is made. */
  predicate FaultMade(d: Decision, clickhouse: bool, fails: Option<RecordStep>) {
    match fails
    case None => false
    case Some(GovernanceStep) => d.latency.Some?
    case Some(EmitStep) => d.action != ERROR
    case Some(StoreStep) => d.action != ERROR && clickhouse
    case _ => true
  }

  /** From place `p` on, `t` is what the record wants, in order, up to the call that fails. */
  ghost predicate RecordsFrom(t: seq<Effect>, p: nat, d: Decision, duration: nat, clickhouse: bool,
    fails: Option<RecordStep>)
  {
    && (forall x :: x in t <==>
          && Wanted(x, d, duration, clickhouse) && Place(x) >= p
          && (FaultMade(d, clickhouse, fails) && Fault(fails) >= p ==> Place(x) < Fault(fails)))
    && (forall i, j :: 0 <= i < j < |t| ==> Place(t[i]) < Place(t[j]))
  }

  /** One more effect in front. */
  lemma RecordsCons(x: Effect, rest: seq<Effect>, d: Decision, duration: nat, clickhouse: bool,
    fails: Option<RecordStep>)
    requires Wanted(x, d, duration, clickhouse)
    requires RecordsFrom(UpTo(rest, fails), Place(x) + 1, d, duration, clickhouse, fails)
    requires FaultMade(d, clickhouse, fails) || Fault(fails) != Place(x)
    ensures RecordsFrom(UpTo([x] + rest, fails), Place(x), d, duration, clickhouse, fails)
  {
    var more := UpTo(rest, fails);
    UpToCons(x, rest, fails);
    assert fails.Some? ==> (IsStep(x, fails.value) <==> Fault(fails) == Place(x));
    if Fault(fails) != Place(x) {
      var t := [x] + more;
      forall y ensures y in t <==>
        && Wanted(y, d, duration, clickhouse) && Place(y) >= Place(x)
        && (FaultMade(d, clickhouse, fails) && Fault(fails) >= Place(x) ==> Place(y) < Fault(fails))
      {
        OnePlace(x, y, d, duration, clickhouse);
        assert y in t <==> y == x || y in more;
      }
      forall j | 0 < j < |t| ensures Place(t[j]) > Place(x) { assert t[j] in more; }
    }
  }

  /** There is one wanted effect of a place at most. */
  lemma OnePlace(x: Effect, y: Effect, d: Decision, duration: nat, clickhouse: bool)
    ensures Wanted(x, d, duration, clickhouse) && Wanted(y, d, duration, clickhouse) && Place(x) == Place(y) ==> x == y
  {}

  lemma EventsExactly(d: Decision, duration: nat, clickhouse: bool, fails: Option<RecordStep>)
    ensures RecordsFrom(UpTo(EventEffects(d, clickhouse), fails), 4, d, duration, clickhouse, fails)
  {
    if d.action != ERROR {
      if clickhouse { RecordsCons(Stored(d), [], d, duration, clickhouse, fails); }
      assert [Stored(d)] + [] == [Stored(d)];
      RecordsCons(Emitted(d), if clickhouse then [Stored(d)] else [], d, duration, clickhouse, fails);
    }
  }

  lemma ObservedExactly(d: Decision, duration: nat, clickhouse: bool, fails: Option<RecordStep>)
    ensures RecordsFrom(UpTo(ObserveEffects(d, duration, clickhouse), fails), 2, d, duration, clickhouse, fails)
  {
    var during := DurationEffects(d, duration, clickhouse);
    EventsExactly(d, duration, clickhouse, fails);
    RecordsCons(ObservedDuration(duration), EventEffects(d, clickhouse), d, duration, clickhouse, fails);
    if d.latency.Some? { RecordsCons(ObservedGovernance(d.latency.value), during, d, duration, clickhouse, fails); }
  }

  /** The record of a decision: what it wants, each once and in order, up to the call that fails. */
  lemma RecordExactly(d: Decision, duration: nat, clickhouse: bool, fails: Option<RecordStep>)
    ensures var t := UpTo(RecordEffects(d, duration, clickhouse), fails);
            && (forall x :: x in t <==>
                  Wanted(x, d, duration, clickhouse) && (FaultMade(d, clickhouse, fails) ==> Place(x) < Fault(fails)))
            && (forall i, j :: 0 <= i < j < |t| ==> Place(t[i]) < Place(t[j]))
  {
    ObservedExactly(d, duration, clickhouse, fails);
    RecordsCons(Counted(MetricAction(d)), ObserveEffects(d, duration, clickhouse), d, duration, clickhouse, fails);
  }
}
