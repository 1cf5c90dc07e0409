/** `run_pipeline`: the stages of governance, each run only while the request is allowed. */
module GovernancePipeline {
  import opened Texts
  import opened PyValues
  import opened RequestTexts
  import opened Redaction

  datatype Action = Allow | Block | CircuitBreak
  datatype Risk = Low | Medium | High | Critical
  datatype Mode = Enforce | Observe | DryRun

  // ----- What the engines answer

  datatype FirewallAnswer = FirewallAnswer(isInjection: bool, risk: Risk)
  type Firewall = Text -> FirewallAnswer
  datatype EgressAnswer = EgressAnswer(allowed: bool, risk: Risk)
  datatype ParamsAnswer = ParamsAnswer(params: Value, entities: seq<nat>, count: nat)

  /** What a guard does: it answers; it raises an exception its contract allows; or another one, which
      leaves the pipeline. */
  datatype GuardAction = Pass | GuardBlock | GuardRedact
  datatype GuardAnswer = Verdict(action: GuardAction, risk: Option<Risk>) | BreaksContract(exception: nat) | Fails
  datatype Guard = Guard(name: Text, answer: GuardAnswer)

  datatype Request = Request(
    body: Value, params: Value, scanTexts: Option<seq<Text>>, scanTruncated: bool,
    loopEnabled: bool, isLoop: bool, injectionEnabled: bool, piiEnabled: bool, failClosed: bool,
    firewall: Firewall, redact: Redactor, redactParams: Option<ParamsAnswer>,
    egress: Option<EgressAnswer>, guards: seq<Guard>)

  // ----- What the pipeline records

  datatype CheckName = LoopCheck | FirewallCheck | DepthCheck | PiiCheck | EgressCheck | GuardCheck(name: Text)
  datatype Check =
    | LoopFound(isLoop: bool)
    | Scanned(answer: FirewallAnswer)
    | DepthExceeded
    | Pii(entities: seq<nat>, count: nat)
    | EgressDecided(decision: EgressAnswer)
    | GuardSaid(action: GuardAction)
    | GuardError(exception: nat)

  type Checks = map<CheckName, Check>

  /** The fields of a result while the stages run. `scanned` and `given` are the texts that the firewall
      and the PII engine were given. */
  datatype State = State(action: Action, risk: Risk, checks: Checks, body: Value, scanned: seq<Text>, given: seq<Text>)

  function Blocked(s: State, risk: Risk): State { s.(action := Block, risk := risk) }
  function With(s: State, name: CheckName, check: Check): State { s.(checks := s.checks[name := check]) }

  // ----- The stages

  function Start(r: Request): State { State(Allow, Low, map[], r.body, [], []) }

  function AfterLoop(r: Request): State {
    if !r.loopEnabled then Start(r)
    else
      var s := With(Start(r), LoopCheck, LoopFound(r.isLoop));
      if r.isLoop then s.(action := CircuitBreak, risk := High) else s
  }

  /** Text lies below the scan depth, where it is neither scanned nor redacted. */
  predicate DeepText(r: Request) {
    r.scanTexts.None? && (r.injectionEnabled || r.piiEnabled) && HasDeepText(r.body, 0)
  }

  function TextsToScan(r: Request): seq<Text> {
    if r.scanTexts.Some? then r.scanTexts.value else Strings(r.body, 0, BOUNDED, true)
  }

  /** The firewall on one text after the other, up to the first injection. */
  function Scan(texts: seq<Text>, firewall: Firewall, s: State): State {
    if texts == [] then s
    else
      var answer := firewall(texts[0]);
      var next := With(s, FirewallCheck, Scanned(answer)).(scanned := s.scanned + [texts[0]]);
      if answer.isInjection then Blocked(next, answer.risk) else Scan(texts[1..], firewall, next)
  }

  function DepthBlocked(s: State): State {
    var next := With(s, DepthCheck, DepthExceeded);
    if s.action.Allow? then Blocked(next, High) else next
  }

  function AfterFirewall(r: Request, s: State): State {
    if !s.action.CircuitBreak? && r.injectionEnabled then
      var scanned := Scan(TextsToScan(r), r.firewall, s);
      if r.scanTruncated || DeepText(r) then DepthBlocked(scanned) else scanned
    else if DeepText(r) && !r.injectionEnabled && s.action.Allow? then DepthBlocked(s)
    else s
  }

  const PARAMS := Ascii("params")

  /** The body with its "params" replaced. */
  function WithParams(body: Value, params: Value): Value
    requires body.Dict?
  {
    Dict(Assign(body.members, TextKey(PARAMS), params))
  }

  /** The strings that the PII engine is given. */
  function TextsToRedact(r: Request): seq<Text> {
    if r.redactParams.Some? then [] else Strings(r.params, 0, BOUNDED, false)
  }

  function RedactedParams(r: Request): ParamsAnswer {
    if r.redactParams.Some? then r.redactParams.value
    else ParamsAnswer(Redacted(r.params, 0, BOUNDED, false, r.redact),
                      TotalEntities(TextsToRedact(r), r.redact), TotalCount(TextsToRedact(r), r.redact))
  }

  function AfterPii(r: Request, s: State): State
    requires r.body.Dict?
  {
    if !(s.action.Allow? && r.piiEnabled) then s
    else
      var answer := RedactedParams(r);
      var next := With(s, PiiCheck, Pii(answer.entities, answer.count)).(given := s.given + TextsToRedact(r));
      if answer.count > 0 then next.(body := WithParams(r.body, answer.params)) else next
  }

  function AfterEgress(r: Request, s: State): State {
    if !(s.action.Allow? && r.egress.Some?) then s
    else
      var answer := r.egress.value;
      var next := With(s, EgressCheck, EgressDecided(answer));
      if answer.allowed then next else Blocked(next, answer.risk)
  }

  /** The guard blocks the request: by its verdict, or by its failure in closed fail mode. */
  predicate GuardBlocks(g: Guard, failClosed: bool) {
    match g.answer
    case Verdict(action, _) => !action.Pass?
    case BreaksContract(_) => failClosed
    case Fails => false
  }

  function GuardRisk(g: Guard): Risk {
    if g.answer.Verdict? && g.answer.risk.Some? then g.answer.risk.value else High
  }

  function GuardRecord(g: Guard): Check
    requires !g.answer.Fails?
  {
    if g.answer.Verdict? then GuardSaid(g.answer.action) else GuardError(g.answer.exception)
  }

  datatype StageResult = Raised | Reached(s: State)

  function RunGuards(guards: seq<Guard>, failClosed: bool, s: State): StageResult {
    if guards == [] then Reached(s)
    else if guards[0].answer.Fails? then Raised
    else
      var next := With(s, GuardCheck(guards[0].name), GuardRecord(guards[0]));
      if GuardBlocks(guards[0], failClosed) then Reached(Blocked(next, GuardRisk(guards[0])))
      else RunGuards(guards[1..], failClosed, next)
  }

  /** The state when all stages have run, before the mode is applied. */
  function Stages(r: Request): StageResult
    requires r.body.Dict?
  {
    var s := AfterEgress(r, AfterPii(r, AfterFirewall(r, AfterLoop(r))));
    if s.action.Allow? then RunGuards(r.guards, r.failClosed, s) else Reached(s)
  }

  // ----- The reason of a block

  datatype Reason = InjectionDetected | ScanDepthExceeded | EgressRefused | GuardBlocked

  predicate GuardCheckBlocks(c: Check) {
    match c
    case GuardSaid(action) => !action.Pass?
    case GuardError(_) => true
    case _ => false
  }

  predicate SomeGuardBlocks(checks: Checks) {
    exists name | name in checks :: name.GuardCheck? && GuardCheckBlocks(checks[name])
  }

  /** `_block_reason` without its fallback: None where the fallback would answer. */
  function NamedReason(checks: Checks): Option<Reason> {
    if FirewallCheck in checks && checks[FirewallCheck].Scanned? && checks[FirewallCheck].answer.isInjection then
      Some(InjectionDetected)
    else if DepthCheck in checks then Some(ScanDepthExceeded)
    else if EgressCheck in checks && checks[EgressCheck].EgressDecided? && !checks[EgressCheck].decision.allowed then
      Some(EgressRefused)
    else if SomeGuardBlocks(checks) then Some(GuardBlocked)
    else None
  }

  function BlockReason(checks: Checks): Reason {
    if NamedReason(checks).Some? then NamedReason(checks).value else InjectionDetected
  }

  // ----- The result

  datatype Result = Result(action: Action, risk: Risk, checks: Checks, body: Value, would: Option<Action>,
    reason: Option<Reason>)

  function Finished(s: State, mode: Mode): Result {
    var downgraded := !mode.Enforce? && !s.action.Allow?;
    var action := if downgraded then Allow else s.action;
    Result(action, s.risk, s.checks, s.body, if downgraded then Some(s.action) else None,
           if action.Block? then Some(BlockReason(s.checks)) else None)
  }

  class GovernanceResult {
    var action: Action
    var risk: Risk
    var checks: Checks
    var redactedBody: Value
    var wouldAction: Option<Action>
    var mode: Mode
    var reason: Option<Reason>
    ghost var scanned: seq<Text>
    ghost var given: seq<Text>

    ghost function Now(): State
      reads this
    {
      State(action, risk, checks, redactedBody, scanned, given)
    }

    ghost function Answer(): Result
      reads this
    {
      Result(action, risk, checks, redactedBody, wouldAction, reason)
    }

    constructor (body: Value, m: Mode)
      ensures Now() == State(Allow, Low, map[], body, [], []) && mode == m && wouldAction == None && reason == None
    {
      action, risk, checks, redactedBody := Allow, Low, map[], body;
      wouldAction, mode, reason := None, m, None;
      scanned, given := [], [];
    }

    method Block(r: Risk)
      modifies this`action, this`risk
      ensures action == Action.Block && risk == r
    {
      action, risk := Action.Block, r;
    }

    method CheckFirewall(texts: seq<Text>, firewall: Firewall)
      modifies this`action, this`risk, this`checks, this`scanned
      ensures Now() == Scan(texts, firewall, old(Now()))
    {
      for i := 0 to |texts|
        invariant Scan(texts, firewall, old(Now())) == Scan(texts[i..], firewall, Now())
      {
        var answer := firewall(texts[i]);
        assert texts[i..][1..] == texts[i + 1..];
        checks := checks[FirewallCheck := Scanned(answer)];
        scanned := scanned + [texts[i]];
        if answer.isInjection {
          Block(answer.risk);
          break;
        }
      }
    }

    method CheckLoop(r: Request)
      requires Now() == Start(r)
      modifies this`action, this`risk, this`checks
      ensures Now() == AfterLoop(r)
    {
      if r.loopEnabled {
        checks := checks[LoopCheck := LoopFound(r.isLoop)];
        if r.isLoop { action, risk := CircuitBreak, High; }
      }
    }

    method RecordDepth()
      modifies this`action, this`risk, this`checks
      ensures Now() == DepthBlocked(old(Now()))
    {
      checks := checks[DepthCheck := DepthExceeded];
      if action.Allow? { Block(High); }
    }

    method ScanRequest(r: Request)
      modifies this`action, this`risk, this`checks, this`scanned
      ensures Now() == AfterFirewall(r, old(Now()))
    {
      var deepText := r.scanTexts.None? && (r.injectionEnabled || r.piiEnabled) && HasDeepText(r.body, 0);
      if !action.CircuitBreak? && r.injectionEnabled {
        var texts;
        if r.scanTexts.Some? { texts := r.scanTexts.value; } else { texts := ExtractTextFields(r.body, 0); }
        CheckFirewall(texts, r.firewall);
        if r.scanTruncated || deepText { RecordDepth(); }
      }
      if deepText && !r.injectionEnabled && action.Allow? { RecordDepth(); }
    }

    method RedactPii(r: Request)
      requires r.body.Dict? && action.Allow? && r.piiEnabled
      modifies this`checks, this`redactedBody, this`given
      ensures Now() == AfterPii(r, old(Now()))
    {
      var answer;
      if r.redactParams.Some? {
        answer := r.redactParams.value;
      } else {
        var acc := new Accumulator();
        var params := acc.DeepRedact(r.params, r.redact, 0, false);
        answer := ParamsAnswer(params, acc.entities, acc.count);
        assert acc.given == TextsToRedact(r);
        given := given + acc.given;
      }
      checks := checks[PiiCheck := Pii(answer.entities, answer.count)];
      if answer.count > 0 { redactedBody := WithParams(r.body, answer.params); }
    }

    method CheckEgress(r: Request)
      modifies this`action, this`risk, this`checks
      ensures Now() == AfterEgress(r, old(Now()))
    {
      if action.Allow? && r.egress.Some? {
        checks := checks[EgressCheck := EgressDecided(r.egress.value)];
        if !r.egress.value.allowed { Block(r.egress.value.risk); }
      }
    }

    method ApplyMode()
      requires wouldAction == None && reason == None
      modifies this`action, this`wouldAction, this`reason
      ensures Answer() == Finished(old(Now()), mode)
    {
      if !mode.Enforce? && !action.Allow? {
        wouldAction := Some(action);
        action := Allow;
      }
      if action.Block? { reason := Some(BlockReason(checks)); }
    }

    method InspectGuards(guards: seq<Guard>, failClosed: bool) returns (raised: bool)
      modifies this`action, this`risk, this`checks
      ensures raised <==> RunGuards(guards, failClosed, old(Now())).Raised?
      ensures !raised ==> Reached(Now()) == RunGuards(guards, failClosed, old(Now()))
    {
      for i := 0 to |guards|
        invariant RunGuards(guards, failClosed, old(Now())) == RunGuards(guards[i..], failClosed, Now())
      {
        assert guards[i..][1..] == guards[i + 1..];
        var g := guards[i];
        match g.answer {
          case Verdict(verdict, risk) =>
            checks := checks[GuardCheck(g.name) := GuardSaid(verdict)];
            if !verdict.Pass? {
              Block(if risk.Some? then risk.value else High);
              return false;
            }
          case BreaksContract(exception) =>
            checks := checks[GuardCheck(g.name) := GuardError(exception)];
            if failClosed {
              Block(High);
              return false;
            }
          case Fails => return true;
        }
      }
      raised := false;
    }
  }

  method RunPipeline(r: Request, mode: Mode) returns (result: GovernanceResult, raised: bool)
    requires r.body.Dict?
    ensures fresh(result)
    ensures raised <==> Stages(r).Raised?
    ensures !raised ==> result.Answer() == Finished(Stages(r).s, mode)
    ensures !raised ==> result.scanned == Stages(r).s.scanned && result.given == Stages(r).s.given
  {
    result := new GovernanceResult(r.body, mode);
    raised := false;
    result.CheckLoop(r);
    result.ScanRequest(r);
    if result.action.Allow? && r.piiEnabled { result.RedactPii(r); }
    result.CheckEgress(r);
    if result.action.Allow? {
      raised := result.InspectGuards(r.guards, r.failClosed);
      if raised { return; }
    }
    result.ApplyMode();
  }
}
