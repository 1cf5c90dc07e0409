/** The `/mcp` exchange: what is forwarded, what is answered, and how the request is recorded. */
module McpExchange {
  import opened Sequences
  import opened Texts
  import GP = GovernancePipeline

  // ----- What the surroundings answer

  /** A call that returns, raises an `Exception` (`connect` when it is httpx.ConnectError), or is cancelled
      (a `BaseException`). */
  datatype Call<+T> = Returns(value: T) | Raises(connect: bool) | Cancelled

  /** The decision of the pipeline, and the body it sends on. */
  datatype Verdict = Verdict(action: GP.Action, risk: GP.Risk, piiCount: nat, body: nat, latency: nat)

  /** A forensic store: with a record not written, `record` raises ForensicWriteError in closed fail mode;
      it can raise another exception too. */
  datatype Store = Writes | Loses | Fails(connect: bool)
  datatype RecordResult = Kept(written: bool) | WriteError | StoreFails(connect: bool)

  function RecordIn(store: Store, closed: bool): RecordResult {
    match store
    case Writes => Kept(true)
    case Loses => if closed then WriteError else Kept(false)
    case Fails(connect) => StoreFails(connect)
  }

  datatype SandboxRun = Ran | Invalid | Unavailable
  datatype ResponseGuard = Accepts | Rejects(risk: Option<GP.Risk>) | BreaksContract

  datatype Env = Env(
    sessionAllows: bool, ipAllows: bool, isJson: bool, parses: bool, tooLarge: bool,
    pipeline: Call<Verdict>,
    box: bool, forensicClosed: bool, requestStore: Store, sandboxStore: Store, errorStore: Store,
    sandboxedTool: bool, sandbox: Call<SandboxRun>, listsSandboxTools: bool,
    upstream: Call<()>, redaction: Call<()>,
    responseGuards: seq<Call<ResponseGuard>>, guardsClosed: bool,
    clickhouse: bool, duration: nat, recordFails: Option<RecordStep>)

  /** The calls that `record_decision` makes, in order; `recordFails` names the one that raises. */
  datatype RecordStep = CountStep | GovernanceStep | DurationStep | EmitStep | StoreStep

  // ----- How a request is recorded

  datatype Label = ALLOW | REDACT | BLOCK | CIRCUIT_BREAK | ERROR
  datatype Domain = Pipeline | ResponseGuards | Sandbox | NoDomain
  /** `latency` is None for a request that failed before its decision. */
  datatype Decision = Decision(action: Label, risk: GP.Risk, domain: Domain, piiCount: nat, latency: Option<nat>)

  function MetricAction(d: Decision): Label { if d.action.ALLOW? && d.piiCount > 0 then REDACT else d.action }

  function LabelOf(a: GP.Action): Label {
    match a case Allow => ALLOW case Block => BLOCK case CircuitBreak => CIRCUIT_BREAK
  }

  function DecisionOf(v: Verdict): Decision {
    Decision(LabelOf(v.action), v.risk, Pipeline, v.piiCount, Some(v.latency))
  }

  const FAILED := Decision(ERROR, GP.Low, NoDomain, 0, None)

  datatype Answer =
    | BadJson | RateLimited | RequestTooLarge | InternalError | ForensicUnavailable | RequestBlocked | CircuitBroken
    | UpstreamResult | SandboxResult | SandboxRefused(invalid: bool) | UpstreamUnreachable | ResponseBlocked
    | Propagates

  /** The HTTP status; an exception that propagates has none here. */
  function Status(a: Answer): Option<nat> {
    match a
    case BadJson => Some(400)
    case RateLimited => Some(429)
    case RequestTooLarge => Some(413)
    case InternalError => Some(500)
    case ForensicUnavailable => Some(503)
    case RequestBlocked => Some(403)
    case CircuitBroken => Some(429)
    case UpstreamResult => Some(200)
    case SandboxResult => Some(200)
    case SandboxRefused(invalid) => Some(if invalid then 400 else 503)
    case UpstreamUnreachable => Some(502)
    case ResponseBlocked => Some(403)
    case Propagates => None
  }

  datatype RecordKind = OfRequest | OfSandbox | OfResponseError

  /** What an exchange does outside itself, in the order it happens. */
  datatype Effect =
    | Judged(verdict: GP.Action)
    | Recorded(kind: RecordKind, written: bool)
    | RanTool
    | Posted(body: nat)
    | Counted(action: Label)
    | ObservedGovernance(latency: nat)
    | ObservedDuration(duration: nat)
    | Emitted(event: Decision)
    | Stored(row: Decision)

  class ProxyState {
    var trace: seq<Effect>

    constructor ()
      ensures trace == []
    {
      trace := [];
    }

    /** `record` of the forensic store, when there is one. */
    method Record(box: bool, store: Store, closed: bool, kind: RecordKind) returns (r: RecordResult)
      modifies this
      ensures r == BoxRecord(box, store, closed)
      ensures trace == old(trace) + RecordEffect(box, store, closed, kind)
    {
      if !box { return Kept(false); }
      r := RecordIn(store, closed);
      if r.Kept? { trace := trace + [Recorded(kind, r.written)]; }
    }

    /** `record_decision`; the call named by `fails`, if it is made, raises. */
    method RecordDecision(d: Decision, duration: nat, clickhouse: bool, fails: Option<RecordStep>)
      modifies this
      ensures trace == old(trace) + UpTo(RecordEffects(d, duration, clickhouse), fails)
    {
      UpToCons(Counted(MetricAction(d)), ObserveEffects(d, duration, clickhouse), fails);
      if fails == Some(CountStep) { return; }
      trace := trace + [Counted(MetricAction(d))];
      RecordGovernance(d, duration, clickhouse, fails);
    }

    /** The rest of `record_decision` from the governance time on. */
    method RecordGovernance(d: Decision, duration: nat, clickhouse: bool, fails: Option<RecordStep>)
      modifies this
      ensures trace == old(trace) + UpTo(ObserveEffects(d, duration, clickhouse), fails)
    {
      if d.latency.Some? {
        UpToCons(ObservedGovernance(d.latency.value), DurationEffects(d, duration, clickhouse), fails);
        if fails == Some(GovernanceStep) { return; }
        trace := trace + [ObservedGovernance(d.latency.value)];
      }
      RecordDuration(d, duration, clickhouse, fails);
    }

    /** ... from the duration on. */
    method RecordDuration(d: Decision, duration: nat, clickhouse: bool, fails: Option<RecordStep>)
      modifies this
      ensures trace == old(trace) + UpTo(DurationEffects(d, duration, clickhouse), fails)
    {
      UpToCons(ObservedDuration(duration), EventEffects(d, clickhouse), fails);
      if fails == Some(DurationStep) { return; }
      trace := trace + [ObservedDuration(duration)];
      RecordEvent(d, clickhouse, fails);
    }

    /** The end of `record_decision`: the bus event and the ClickHouse row. */
    method RecordEvent(d: Decision, clickhouse: bool, fails: Option<RecordStep>)
      modifies this
      ensures trace == old(trace) + UpTo(EventEffects(d, clickhouse), fails)
    {
      if d.action.ERROR? { return; }
      UpToCons(Emitted(d), if clickhouse then [Stored(d)] else [], fails);
      if fails == Some(EmitStep) { return; }
      trace := trace + [Emitted(d)];
      if clickhouse {
        if fails == Some(StoreStep) { return; }
        trace := trace + [Stored(d)];
      }
    }
  }

  function EventEffects(d: Decision, clickhouse: bool): seq<Effect> {
    if d.action.ERROR? then [] else [Emitted(d)] + if clickhouse then [Stored(d)] else []
  }

  function DurationEffects(d: Decision, duration: nat, clickhouse: bool): seq<Effect> {
    [ObservedDuration(duration)] + EventEffects(d, clickhouse)
  }

  function ObserveEffects(d: Decision, duration: nat, clickhouse: bool): seq<Effect> {
    var after := DurationEffects(d, duration, clickhouse);
    if d.latency.Some? then [ObservedGovernance(d.latency.value)] + after else after
  }

  /** What `record_decision` does when nothing fails. */
  function RecordEffects(d: Decision, duration: nat, clickhouse: bool): seq<Effect> {
    [Counted(MetricAction(d))] + ObserveEffects(d, duration, clickhouse)
  }

  lemma UpToCons(x: Effect, rest: seq<Effect>, fails: Option<RecordStep>)
    ensures UpTo([x] + rest, fails) == if fails.Some? && IsStep(x, fails.value) then [] else [x] + UpTo(rest, fails)
  {}

  predicate IsStep(effect: Effect, step: RecordStep) {
    match step
    case CountStep => effect.Counted?
    case GovernanceStep => effect.ObservedGovernance?
    case DurationStep => effect.ObservedDuration?
    case EmitStep => effect.Emitted?
    case StoreStep => effect.Stored?
  }

  /** The effects before the one that fails. */
  function UpTo(effects: seq<Effect>, fails: Option<RecordStep>): seq<Effect> {
    if effects == [] || (fails.Some? && IsStep(effects[0], fails.value)) then []
    else [effects[0]] + UpTo(effects[1..], fails)
  }

  function BoxRecord(box: bool, store: Store, closed: bool): RecordResult {
    if box then RecordIn(store, closed) else Kept(false)
  }

  function RecordEffect(box: bool, store: Store, closed: bool, kind: RecordKind): seq<Effect> {
    if box && RecordIn(store, closed).Kept? then [Recorded(kind, RecordIn(store, closed).written)] else []
  }

  class McpOutcome {
    var decision: Option<Decision>
    var refused: bool

    constructor ()
      ensures decision == None && !refused
    {
      decision, refused := None, false;
    }

    method BlockResponse(risk: GP.Risk)
      modifies this`decision
      ensures decision == if old(decision).None? then None
        else Some(old(decision).value.(action := BLOCK, risk := risk, domain := ResponseGuards))
    {
      if decision.Some? { decision := Some(decision.value.(action := BLOCK, risk := risk, domain := ResponseGuards)); }
    }

    method SandboxRefused(invalid: bool)
      modifies this`decision
      ensures decision == if old(decision).None? then None
        else Some(old(decision).value.(action := if invalid then BLOCK else ERROR, domain := Sandbox))
    {
      if decision.Some? {
        decision := Some(decision.value.(action := if invalid then BLOCK else ERROR, domain := Sandbox));
      }
    }

    /** `record`: an exception of `record_decision` is caught. */
    method Record(state: ProxyState, duration: nat, clickhouse: bool, fails: Option<RecordStep>)
      modifies state
      ensures state.trace == old(state.trace) + FinalEffects(decision, refused, duration, clickhouse, fails)
    {
      if decision.Some? {
        state.RecordDecision(decision.value, duration, clickhouse, fails);
      } else if refused {
        state.trace := state.trace + [Counted(BLOCK)];
        state.trace := state.trace + [ObservedDuration(duration)];
      }
    }
  }

  function FinalEffects(decision: Option<Decision>, refused: bool, duration: nat, clickhouse: bool,
    fails: Option<RecordStep>): seq<Effect>
  {
    if decision.Some? then UpTo(RecordEffects(decision.value, duration, clickhouse), fails)
    else if refused then [Counted(BLOCK), ObservedDuration(duration)]
    else []
  }

  // ----- Specification: each outcome by a condition on the surroundings

  predicate Governed(e: Env) { e.sessionAllows && e.ipAllows && e.isJson && e.parses && !e.tooLarge }

  predicate Refuses(e: Env) { !e.sessionAllows || !e.ipAllows || (e.isJson && e.parses && e.tooLarge) }

  predicate Decided(e: Env) { Governed(e) && e.pipeline.Returns? }

  /** The forensic record of the request does not stop it. */
  predicate RequestKept(e: Env) { BoxRecord(e.box, e.requestStore, e.forensicClosed).Kept? }

  predicate Allowed(e: Env) { Decided(e) && e.pipeline.value.action.Allow? && RequestKept(e) }

  /** The request goes to the upstream. */
  predicate Forwards(e: Env) { Allowed(e) && !e.sandboxedTool }

  predicate SandboxKept(e: Env) { BoxRecord(e.box, e.sandboxStore, e.forensicClosed).Kept? }

  /** There is a result: of the upstream, of the sandbox, or the sandbox's own tool list. */
  predicate HasResult(e: Env) {
    if e.sandboxedTool then e.sandbox == Returns(Ran) && SandboxKept(e)
    else e.upstream.Returns? || (e.upstream == Raises(true) && e.listsSandboxTools)
  }

  predicate ResponseGoverned(e: Env) { Allowed(e) && HasResult(e) && e.redaction.Returns? }

  /** A response guard that ends the inspection. */
  predicate Decisive(g: Call<ResponseGuard>, closed: bool) {
    !g.Returns? || g.value.Rejects? || (g.value.BreaksContract? && closed)
  }

  /** The first decisive guard; None when all let the response through. */
  function DecisiveGuard(guards: seq<Call<ResponseGuard>>, closed: bool): Option<Call<ResponseGuard>> {
    if guards == [] then None
    else if Decisive(guards[0], closed) then Some(guards[0])
    else DecisiveGuard(guards[1..], closed)
  }

  lemma {:induction false} DecisiveIsDecisive(guards: seq<Call<ResponseGuard>>, closed: bool)
    ensures var g := DecisiveGuard(guards, closed); g.Some? ==> g.value in guards && Decisive(g.value, closed)
    ensures DecisiveGuard(guards, closed).None? <==> forall i :: 0 <= i < |guards| ==> !Decisive(guards[i], closed)
  {
    if guards != [] && !Decisive(guards[0], closed) {
      DecisiveIsDecisive(guards[1..], closed);
      assert guards == [guards[0]] + guards[1..];
    }
  }

  function ResponseDecider(e: Env): Option<Call<ResponseGuard>> {
    if ResponseGoverned(e) then DecisiveGuard(e.responseGuards, e.guardsClosed) else None
  }

  /** A response guard blocks the response, by its verdict or by failing in closed mode. */
  predicate BlocksResponse(e: Env) { ResponseDecider(e).Some? && ResponseDecider(e).value.Returns? }

  function ResponseRisk(g: ResponseGuard): GP.Risk { if g.Rejects? && g.risk.Some? then g.risk.value else GP.High }

  /** The decision a request is recorded with. */
  function FinalDecision(e: Env): Option<Decision> {
    if !Governed(e) || e.pipeline.Cancelled? then None
    else if e.pipeline.Raises? then Some(FAILED)
    else
      var d := DecisionOf(e.pipeline.value);
      if BlocksResponse(e) then
        Some(d.(action := BLOCK, risk := ResponseRisk(ResponseDecider(e).value.value), domain := ResponseGuards))
      else if Allowed(e) && e.sandboxedTool && SandboxKept(e) && e.sandbox.Returns? && !e.sandbox.value.Ran?
      then Some(d.(action := if e.sandbox.value.Invalid? then BLOCK else ERROR, domain := Sandbox))
      else Some(d)
  }

  function ErrorRecord(e: Env): RecordResult { BoxRecord(e.box, e.errorStore, e.forensicClosed) }

  /** How an inner call ends: with an answer, with an `Exception` for its caller, or cancelled. */
  datatype Ending = Ends(answer: Answer) | Throws(connect: bool) | Cancels

  /** How the governed response ends. */
  function ResponseEnding(e: Env): Ending {
    if e.redaction.Cancelled? then Cancels
    else if e.redaction.Raises? then Throws(e.redaction.connect)
    else
      var g := DecisiveGuard(e.responseGuards, e.guardsClosed);
      if g.None? then Ends(if e.sandboxedTool then SandboxResult else UpstreamResult)
      else if g.value.Cancelled? then Cancels
      else if g.value.Raises? then Throws(g.value.connect)
      else if g.value.value.Rejects? || ErrorRecord(e).Kept? then Ends(ResponseBlocked)
      else if ErrorRecord(e).WriteError? then Ends(ForensicUnavailable)
      else Throws(ErrorRecord(e).connect)
  }

  function SandboxEnding(e: Env): Ending {
    var recorded := BoxRecord(e.box, e.sandboxStore, e.forensicClosed);
    if e.sandbox.Cancelled? then Cancels
    else if e.sandbox.Raises? then Throws(e.sandbox.connect)
    else if recorded.WriteError? then Ends(ForensicUnavailable)
    else if recorded.StoreFails? then Throws(recorded.connect)
    else if !e.sandbox.value.Ran? then Ends(SandboxRefused(e.sandbox.value.Invalid?))
    else ResponseEnding(e)
  }

  function UpstreamEnding(e: Env): Ending {
    if e.upstream.Cancelled? then Cancels
    else if e.upstream.Raises? && !(e.upstream.connect && e.listsSandboxTools) then Throws(e.upstream.connect)
    else ResponseEnding(e)
  }

  /** The `except` clauses around a call: only the upstream's tells httpx.ConnectError apart. */
  function Caught(r: Ending, connect: Answer): Answer {
    match r
    case Ends(a) => a
    case Throws(isConnect) => if isConnect then connect else InternalError
    case Cancels => Propagates
  }

  function AnswerOf(e: Env): Answer {
    if !e.sessionAllows || !e.ipAllows then RateLimited
    else if !e.isJson then BadJson
    else if !e.parses then Propagates
    else if e.tooLarge then RequestTooLarge
    else if e.pipeline.Cancelled? then Propagates
    else if e.pipeline.Raises? then InternalError
    else if !RequestKept(e) then
      if BoxRecord(e.box, e.requestStore, e.forensicClosed).WriteError? then ForensicUnavailable else Propagates
    else if e.pipeline.value.action.Block? then RequestBlocked
    else if e.pipeline.value.action.CircuitBreak? then CircuitBroken
    else if e.sandboxedTool then Caught(SandboxEnding(e), InternalError)
    else Caught(UpstreamEnding(e), UpstreamUnreachable)
  }

  /** The effects, part by part. */
  function JudgingEffects(e: Env): seq<Effect> {
    if !Decided(e) then []
    else [Judged(e.pipeline.value.action)] + RecordEffect(e.box, e.requestStore, e.forensicClosed, OfRequest)
  }

  function SandboxEffects(e: Env): seq<Effect> {
    [RanTool] + if e.sandbox.Returns? then RecordEffect(e.box, e.sandboxStore, e.forensicClosed, OfSandbox) else []
  }

  function ActingEffects(e: Env): seq<Effect> {
    if !Allowed(e) then [] else if e.sandboxedTool then SandboxEffects(e) else [Posted(e.pipeline.value.body)]
  }

  function GuardEffects(e: Env): seq<Effect> {
    var g := DecisiveGuard(e.responseGuards, e.guardsClosed);
    if e.redaction.Returns? && g.Some? && g.value.Returns? && g.value.value.BreaksContract?
    then RecordEffect(e.box, e.errorStore, e.forensicClosed, OfResponseError) else []
  }

  function ResponseEffects(e: Env): seq<Effect> { if Allowed(e) && HasResult(e) then GuardEffects(e) else [] }

  function ExchangeEffects(e: Env): seq<Effect> { JudgingEffects(e) + ActingEffects(e) + ResponseEffects(e) }

  function RecordingEffects(e: Env): seq<Effect> {
    FinalEffects(FinalDecision(e), Refuses(e), e.duration, e.clickhouse, e.recordFails)
  }

  function Trace(e: Env): seq<Effect> { ExchangeEffects(e) + RecordingEffects(e) }

  // ----- The exchange, as it runs

  /** `_govern_mcp_response`. */
  method GovernResponse(e: Env, state: ProxyState, outcome: McpOutcome, ok: Answer) returns (r: Ending)
    requires ok == if e.sandboxedTool then SandboxResult else UpstreamResult
    modifies outcome`decision, state
    ensures r == ResponseEnding(e)
    ensures state.trace == old(state.trace) + GuardEffects(e)
    ensures var g := DecisiveGuard(e.responseGuards, e.guardsClosed);
            outcome.decision ==
              if e.redaction.Returns? && g.Some? && g.value.Returns? && old(outcome.decision).Some?
              then Some(old(outcome.decision).value.(action := BLOCK, risk := ResponseRisk(g.value.value),
                domain := ResponseGuards))
              else old(outcome.decision)
  {
    if e.redaction.Cancelled? { return Cancels; }
    if e.redaction.Raises? { return Throws(e.redaction.connect); }
    for i := 0 to |e.responseGuards|
      invariant outcome.decision == old(outcome.decision) && state.trace == old(state.trace)
      invariant DecisiveGuard(e.responseGuards, e.guardsClosed) == DecisiveGuard(e.responseGuards[i..], e.guardsClosed)
    {
      assert e.responseGuards[i..][1..] == e.responseGuards[i + 1..];
      match e.responseGuards[i] {
        case Cancelled => return Cancels;
        case Raises(connect) => return Throws(connect);
        case Returns(Accepts) =>
        case Returns(Rejects(risk)) =>
          outcome.BlockResponse(if risk.Some? then risk.value else GP.High);
          return Ends(ResponseBlocked);
        case Returns(BreaksContract) =>
          if e.guardsClosed {
            outcome.BlockResponse(GP.High);
            var recorded := state.Record(e.box, e.errorStore, e.forensicClosed, OfResponseError);
            match recorded {
              case Kept(_) => return Ends(ResponseBlocked);
              case WriteError => return Ends(ForensicUnavailable);
              case StoreFails(connect) => return Throws(connect);
            }
          }
      }
    }
    r := Ends(ok);
  }

  /** `_mcp_sandbox_call`. */
  method SandboxCall(e: Env, state: ProxyState, outcome: McpOutcome) returns (r: Ending)
    requires Allowed(e) && e.sandboxedTool && outcome.decision == Some(DecisionOf(e.pipeline.value))
    modifies outcome`decision, state
    ensures state.trace == old(state.trace) + (SandboxEffects(e) + ResponseEffects(e))
    ensures r == SandboxEnding(e)
    ensures outcome.decision == FinalDecision(e)
  {
    state.trace := state.trace + [RanTool];
    if e.sandbox.Cancelled? { return Cancels; }
    if e.sandbox.Raises? { return Throws(e.sandbox.connect); }
    var recorded := state.Record(e.box, e.sandboxStore, e.forensicClosed, OfSandbox);
    match recorded {
      case Kept(_) =>
      case WriteError => return Ends(ForensicUnavailable);
      case StoreFails(connect) => return Throws(connect);
    }
    if !e.sandbox.value.Ran? {
      outcome.SandboxRefused(e.sandbox.value.Invalid?);
      return Ends(SandboxRefused(e.sandbox.value.Invalid?));
    }
    r := GovernResponse(e, state, outcome, SandboxResult);
  }

  /** The upstream call and its response, inside the exchange's last `try`. */
  method Forward(e: Env, state: ProxyState, outcome: McpOutcome) returns (answer: Answer)
    requires Forwards(e) && outcome.decision == Some(DecisionOf(e.pipeline.value))
    modifies outcome`decision, state
    ensures state.trace == old(state.trace) + ([Posted(e.pipeline.value.body)] + ResponseEffects(e))
    ensures answer == Caught(UpstreamEnding(e), UpstreamUnreachable)
    ensures outcome.decision == FinalDecision(e)
  {
    state.trace := state.trace + [Posted(e.pipeline.value.body)];
    match e.upstream {
      case Cancelled => return Propagates;
      case Raises(connect) =>
        if !connect { return InternalError; }
        if !e.listsSandboxTools { return UpstreamUnreachable; }
      case Returns(_) =>
    }
    var r := GovernResponse(e, state, outcome, UpstreamResult);
    match r
    case Ends(a) => answer := a;
    case Throws(connect) => answer := if connect then UpstreamUnreachable else InternalError;
    case Cancels => answer := Propagates;
  }

  /** The pipeline's decision and its forensic record; None when the exchange goes on. */
  method Judge(e: Env, state: ProxyState, outcome: McpOutcome) returns (answer: Option<Answer>)
    requires Decided(e) && state.trace == []
    modifies outcome`decision, state
    ensures outcome.decision == Some(DecisionOf(e.pipeline.value))
    ensures state.trace == JudgingEffects(e)
    ensures answer == if RequestKept(e) then None else Some(AnswerOf(e))
  {
    state.trace := state.trace + [Judged(e.pipeline.value.action)];
    outcome.decision := Some(DecisionOf(e.pipeline.value));
    var recorded := state.Record(e.box, e.requestStore, e.forensicClosed, OfRequest);
    match recorded
    case Kept(_) => answer := None;
    case WriteError => answer := Some(ForensicUnavailable);
    case StoreFails(_) => answer := Some(Propagates);
  }

  /** `_mcp_exchange`. */
  method Exchange(e: Env, state: ProxyState, outcome: McpOutcome) returns (answer: Answer)
    requires outcome.decision == None && !outcome.refused && state.trace == []
    modifies outcome, state
    ensures answer == AnswerOf(e)
    ensures outcome.decision == FinalDecision(e) && outcome.refused == Refuses(e)
    ensures state.trace == ExchangeEffects(e)
  {
    if !e.sessionAllows || !e.ipAllows {
      outcome.refused := true;
      return RateLimited;
    }
    if !e.isJson { return BadJson; }
    if !e.parses { return Propagates; }
    if e.tooLarge {
      outcome.refused := true;
      return RequestTooLarge;
    }
    if e.pipeline.Cancelled? { return Propagates; }
    if e.pipeline.Raises? {
      outcome.decision := Some(FAILED);
      return InternalError;
    }
    var refusal := Judge(e, state, outcome);
    if refusal.Some? { return refusal.value; }
    if e.pipeline.value.action.Block? { return RequestBlocked; }
    if e.pipeline.value.action.CircuitBreak? { return CircuitBroken; }
    if e.sandboxedTool {
      var r := SandboxCall(e, state, outcome);
      match r
      case Ends(a) => return a;
      case Throws(_) => return InternalError;
      case Cancels => return Propagates;
    }
    answer := Forward(e, state, outcome);
  }

  /** `mcp_proxy`: the exchange, and the record of it whatever its end. */
  method McpProxy(e: Env) returns (answer: Answer, trace: seq<Effect>)
    ensures answer == AnswerOf(e) && trace == Trace(e)
  {
    var state := new ProxyState();
    var outcome := new McpOutcome();
    answer := Exchange(e, state, outcome);
    outcome.Record(state, e.duration, e.clickhouse, e.recordFails);
    trace := state.trace;
  }

  // ----- Main results

  predicate Before(t: seq<Effect>, i: nat, effect: Effect) { exists j :: 0 <= j < i && j < |t| && t[j] == effect }

  /** A post to the upstream, or a run of a sandboxed tool, comes after an ALLOW verdict, in closed fail
      mode after the written forensic record of the request, and before the request is counted; there is
      one of them at most, and a sandboxed tool is never posted. */
  lemma ActsOnceAllowed(e: Env, i: nat)
    requires i < |Trace(e)| && Acts(Trace(e)[i])
    ensures Before(Trace(e), i, Judged(GP.Allow))
    ensures e.box && e.forensicClosed ==> Before(Trace(e), i, Recorded(OfRequest, true))
    ensures Trace(e)[i].Posted? <==> !e.sandboxedTool
    ensures forall j :: 0 <= j < |Trace(e)| && j != i ==> !Acts(Trace(e)[j])
    ensures forall j :: 0 <= j < i ==> !Trace(e)[j].Counted?
  {
    var judging := JudgingEffects(e);
    ActorIsAfterJudging(e, i);
    assert Trace(e)[0] == Judged(GP.Allow);
    if e.box && e.forensicClosed { assert Trace(e)[1] == judging[1] == Recorded(OfRequest, true); }
  }

  /** A post or a run of a tool. */
  predicate Acts(effect: Effect) { effect.Posted? || effect.RanTool? }

  predicate Quiet(t: seq<Effect>) { forall i :: 0 <= i < |t| ==> !Acts(t[i]) }

  lemma OneActor(a: seq<Effect>, b: seq<Effect>, c: seq<Effect>, i: nat)
    requires Quiet(a) && Quiet(c) && (b == [] || Quiet(b[1..])) && i < |a + b + c| && Acts((a + b + c)[i])
    ensures var t := a + b + c;
            && b != [] && i == |a| && t[i] == b[0]
            && (forall j :: 0 <= j < i ==> t[j] == a[j]) && forall j :: i < j < |t| ==> !Acts(t[j])
  {
    var t := a + b + c;
    forall j | 0 <= j < |t| && j != |a| ensures !Acts(t[j]) {
      if |a| < j < |a| + |b| { assert t[j] == b[1..][j - |a| - 1]; }
    }
  }

  lemma ActorIsAfterJudging(e: Env, i: nat)
    requires i < |Trace(e)| && Acts(Trace(e)[i])
    ensures Allowed(e) && i == |JudgingEffects(e)| && Trace(e)[i] == ActingEffects(e)[0]
    ensures forall j :: 0 <= j < i ==> Trace(e)[j] == JudgingEffects(e)[j]
    ensures forall j :: i < j < |Trace(e)| ==> !Acts(Trace(e)[j])
  {
    var judging, acting := JudgingEffects(e), ActingEffects(e);
    var responding, final := ResponseEffects(e), RecordingEffects(e);
    QuietParts(e);
    RecordingQuiet(e);
    QuietCat(responding, final);
    Regroup(judging + acting, responding, final);
    OneActor(judging, acting, responding + final, i);
  }

  lemma QuietCat(a: seq<Effect>, b: seq<Effect>)
    requires Quiet(a) && Quiet(b)
    ensures Quiet(a + b)
  {}

  lemma RecordingQuiet(e: Env)
    ensures Quiet(RecordingEffects(e))
  {
    if FinalDecision(e).Some? {
      UpToQuiet(RecordEffects(FinalDecision(e).value, e.duration, e.clickhouse), e.recordFails);
    }
  }

  lemma QuietParts(e: Env)
    ensures Quiet(JudgingEffects(e)) && Quiet(ResponseEffects(e))
    ensures ActingEffects(e) == [] || Quiet(ActingEffects(e)[1..])
    ensures ActingEffects(e) != [] ==> Allowed(e)
  {}

  function Counts(t: seq<Effect>): nat { if t == [] then 0 else (if t[0].Counted? then 1 else 0) + Counts(t[1..]) }

  lemma {:induction false} CountsCat(a: seq<Effect>, b: seq<Effect>)
    ensures Counts(a + b) == Counts(a) + Counts(b)
  {
    if a == [] { assert a + b == b; } else {
      assert (a + b)[1..] == a[1..] + b;
      CountsCat(a[1..], b);
    }
  }

  lemma {:induction false} NotCounted(t: seq<Effect>)
    requires forall i :: 0 <= i < |t| ==> !t[i].Counted?
    ensures Counts(t) == 0
  {
    if t != [] { NotCounted(t[1..]); }
  }

  /** How the exchange is counted at its end; None when it is not, or when the counter raises. */
  function CountedAs(e: Env): Option<Label> {
    if FinalDecision(e).Some? then
      if e.recordFails == Some(CountStep) then None else Some(MetricAction(FinalDecision(e).value))
    else if Refuses(e) then Some(BLOCK)
    else None
  }

  predicate NoneCounted(t: seq<Effect>) { forall i :: 0 <= i < |t| ==> !t[i].Counted? }

  lemma {:induction false} UpToQuiet(effects: seq<Effect>, fails: Option<RecordStep>)
    ensures Quiet(effects) ==> Quiet(UpTo(effects, fails))
    ensures NoneCounted(effects) ==> NoneCounted(UpTo(effects, fails))
    decreases |effects|
  {
    if effects != [] { UpToQuiet(effects[1..], fails); }
  }

  /** The record of a decision starts with its count, and counts no more. */
  lemma CountsFirst(d: Decision, duration: nat, clickhouse: bool, fails: Option<RecordStep>)
    ensures var t := UpTo(RecordEffects(d, duration, clickhouse), fails);
            if fails == Some(CountStep) then t == []
              else t != [] && t[0] == Counted(MetricAction(d)) && NoneCounted(t[1..])
  {
    var effects := RecordEffects(d, duration, clickhouse);
    assert effects[0] == Counted(MetricAction(d)) && NoneCounted(effects[1..]);
    UpToQuiet(effects[1..], fails);
  }

  lemma RecordingCounts(e: Env)
    ensures var t := RecordingEffects(e);
            if CountedAs(e).None? then NoneCounted(t)
            else t != [] && t[0] == Counted(CountedAs(e).value) && NoneCounted(t[1..])
  {
    if FinalDecision(e).Some? { CountsFirst(FinalDecision(e).value, e.duration, e.clickhouse, e.recordFails); }
  }

  /** The request is counted at most once, last, and with one label: exactly when it was refused, or when
      the pipeline was asked and not cancelled and the counter itself does not raise. */
  lemma CountedOnce(e: Env)
    ensures Counts(Trace(e)) == if CountedAs(e).Some? then 1 else 0
    ensures CountedAs(e).Some?
      <==> Refuses(e) || (Governed(e) && !e.pipeline.Cancelled? && e.recordFails != Some(CountStep))
    ensures CountedAs(e).Some? ==> Counted(CountedAs(e).value) in Trace(e)
  {
    var t := RecordingEffects(e);
    RecordingCounts(e);
    CountsInTrace(e);
    if CountedAs(e).None? {
      NotCounted(t);
    } else {
      NotCounted(t[1..]);
      assert t[0] in t;
    }
  }

  lemma CountsInTrace(e: Env)
    ensures Counts(Trace(e)) == Counts(RecordingEffects(e))
  {
    NotCounted(ExchangeEffects(e));
    CountsCat(ExchangeEffects(e), RecordingEffects(e));
  }

  /** A sandboxed call was allowed, and refused with invalid arguments or because the sandbox is not there. */
  predicate SandboxRefuses(e: Env, run: SandboxRun) {
    Allowed(e) && e.sandboxedTool && e.sandbox == Returns(run) && !run.Ran? && SandboxKept(e)
  }

  /** A response guard broke its contract in closed mode, and its own record could not be written. */
  predicate ResponseErrorLost(e: Env) {
    BlocksResponse(e) && ResponseDecider(e).value.value.BreaksContract? && !ErrorRecord(e).Kept?
  }

  /** What every exchange is counted as. */
  lemma CountedExactly(e: Env)
    ensures e.recordFails == Some(CountStep) ==> CountedAs(e) == if Refuses(e) then Some(BLOCK) else None
    ensures e.recordFails != Some(CountStep) ==>
      && (CountedAs(e) == Some(BLOCK) <==>
            Refuses(e) || (Decided(e) && e.pipeline.value.action.Block?) || BlocksResponse(e)
              || SandboxRefuses(e, Invalid))
      && (CountedAs(e) == Some(ERROR) <==> (Governed(e) && e.pipeline.Raises?) || SandboxRefuses(e, Unavailable))
      && (CountedAs(e) == Some(CIRCUIT_BREAK) <==> Decided(e) && e.pipeline.value.action.CircuitBreak?)
      && (CountedAs(e) == None <==> !Refuses(e) && (!Governed(e) || e.pipeline.Cancelled?))
  {
    DecisiveIsDecisive(e.responseGuards, e.guardsClosed);
  }

  /** 403 is answered exactly when the pipeline blocks and its record does not stop the request, or a
      response guard blocks and its own record is kept; the request is then recorded as a BLOCK of that
      stage. */
  lemma ForbiddenIsRecordedBlock(e: Env)
    ensures Status(AnswerOf(e)) == Some(403) <==>
      (Decided(e) && RequestKept(e) && e.pipeline.value.action.Block?) || (BlocksResponse(e) && !ResponseErrorLost(e))
    ensures Status(AnswerOf(e)) == Some(403) ==>
      && FinalDecision(e).Some? && FinalDecision(e).value.action == BLOCK
      && FinalDecision(e).value.domain == if BlocksResponse(e) then ResponseGuards else Pipeline
  {
    DecisiveIsDecisive(e.responseGuards, e.guardsClosed);
  }

  /** A BLOCK is counted without a 403 in four cases: the request was refused; the pipeline blocked it but
      its forensic record was not kept; a sandboxed call had invalid arguments; a response guard broke its
      contract and its own record was not kept. */
  lemma BlockRecordedWithout403(e: Env)
    ensures CountedAs(e) == Some(BLOCK) && Status(AnswerOf(e)) != Some(403) <==>
      || Refuses(e)
      || (e.recordFails != Some(CountStep) &&
          ((Decided(e) && e.pipeline.value.action.Block? && !RequestKept(e))
           || SandboxRefuses(e, Invalid) || ResponseErrorLost(e)))
  {
    CountedExactly(e);
    ForbiddenIsRecordedBlock(e);
  }

  /** A governed call whose surroundings all answer, with one response guard. */
  function PlainEnv(verdict: GP.Action, store: Store, guard: ResponseGuard): Env {
    Env(true, true, true, true, false, Returns(Verdict(verdict, GP.Low, 0, 0, 0)), true, true, store, Writes, Loses,
        false, Returns(Ran), false, Returns(()), Returns(()), [Returns(guard)], true, false, 0, None)
  }

  /** Two of the cases: a block whose record is lost, and a failing response guard whose record is lost. */
  lemma BlockWithout403Examples()
    ensures var e := PlainEnv(GP.Block, Loses, Accepts); CountedAs(e) == Some(BLOCK) && Status(AnswerOf(e)) == Some(503)
    ensures var e := PlainEnv(GP.Allow, Writes, BreaksContract);
            CountedAs(e) == Some(BLOCK) && Status(AnswerOf(e)) == Some(503)
  {
    var e := PlainEnv(GP.Allow, Writes, BreaksContract);
    assert DecisiveGuard(e.responseGuards, e.guardsClosed) == Some(Returns(BreaksContract));
  }

  /** A result that is returned belongs to a request recorded as allowed, whose response every guard let
      through; and every such request is answered with its result. */
  lemma ResultIsRecordedAllowed(e: Env)
    ensures AnswerOf(e).UpstreamResult? || AnswerOf(e).SandboxResult? <==>
      ResponseGoverned(e) && forall i :: 0 <= i < |e.responseGuards| ==> !Decisive(e.responseGuards[i], e.guardsClosed)
    ensures AnswerOf(e).UpstreamResult? || AnswerOf(e).SandboxResult? ==>
      && (AnswerOf(e).UpstreamResult? <==> Forwards(e))
      && FinalDecision(e) == Some(DecisionOf(e.pipeline.value))
      && MetricAction(FinalDecision(e).value) == if e.pipeline.value.piiCount > 0 then REDACT else ALLOW
  {
    DecisiveIsDecisive(e.responseGuards, e.guardsClosed);
  }

  /** 503 is answered exactly when a closed fail mode lost a record (of the request, the sandboxed run or
      the response error), or the sandbox is not there; with a lost request record nothing acts. */
  lemma UnavailableExactly(e: Env)
    ensures Status(AnswerOf(e)) == Some(503) <==>
      || (Decided(e) && BoxRecord(e.box, e.requestStore, e.forensicClosed).WriteError?)
      || (Allowed(e) && e.sandboxedTool && e.sandbox.Returns?
        && BoxRecord(e.box, e.sandboxStore, e.forensicClosed).WriteError?)
      || SandboxRefuses(e, Unavailable)
      || (ResponseErrorLost(e) && ErrorRecord(e).WriteError?)
    ensures Decided(e) && !RequestKept(e) ==>
      ExchangeEffects(e) == [Judged(e.pipeline.value.action)] && FinalDecision(e) == Some(DecisionOf(e.pipeline.value))
  {
    DecisiveIsDecisive(e.responseGuards, e.guardsClosed);
  }

  /** 502 is answered exactly when httpx.ConnectError leaves the upstream call, the redaction of its
      response, a response guard or the record of its failure. */
  lemma UnreachableExactly(e: Env)
    ensures Status(AnswerOf(e)) == Some(502) <==> Forwards(e) && UpstreamEnding(e) == Throws(true)
    ensures Status(AnswerOf(e)) == Some(502) ==>
      FinalDecision(e).Some? && (FinalDecision(e).value.action == if ResponseErrorLost(e) then BLOCK else ALLOW)
  {
    DecisiveIsDecisive(e.responseGuards, e.guardsClosed);
  }

  /** Requests that end before their verdict: a refused one is only counted and timed, as BLOCK; a
      pipeline that raised is answered 500; a body that is not JSON is answered 400 and not recorded. */
  lemma OtherRecords(e: Env)
    ensures Refuses(e)
      ==> Trace(e) == [Counted(BLOCK), ObservedDuration(e.duration)] && Status(AnswerOf(e)) in {Some(429), Some(413)}
    ensures Governed(e) && e.pipeline.Raises? ==> Status(AnswerOf(e)) == Some(500)
    ensures Governed(e) && e.pipeline.Raises? && e.recordFails == None
      ==> Trace(e) == [Counted(ERROR), ObservedDuration(e.duration)]
    ensures AnswerOf(e).BadJson? ==> Trace(e) == []
  {
    if Governed(e) && e.pipeline.Raises? && e.recordFails == None {
      NothingFails(RecordEffects(FAILED, e.duration, e.clickhouse));
    }
  }

  lemma {:induction false} NothingFails(effects: seq<Effect>)
    ensures UpTo(effects, None) == effects
    decreases |effects|
  {
    if effects != [] { NothingFails(effects[1..]); }
  }
}
