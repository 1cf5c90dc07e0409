/** What the governance pipeline guarantees: who decides, what was scanned, and what the mode changes. */
module GovernanceTheorems {
  import opened Texts
  import opened PyValues
  import opened RequestTexts
  import opened Redaction
  import opened GovernancePipeline

  // ----- The stage that decides, from the request alone

  predicate Flagged(texts: seq<Text>, firewall: Firewall) {
    exists i :: 0 <= i < |texts| && firewall(texts[i]).isInjection
  }

  predicate LoopStops(r: Request) { r.loopEnabled && r.isLoop }
  predicate FirewallStops(r: Request) { r.injectionEnabled && Flagged(TextsToScan(r), r.firewall) }
  predicate DepthStops(r: Request) { (r.injectionEnabled && r.scanTruncated) || DeepText(r) }
  predicate EgressStops(r: Request) { r.egress.Some? && !r.egress.value.allowed }
  predicate GuardStops(g: Guard, failClosed: bool) { g.answer.Fails? || GuardBlocks(g, failClosed) }

  /** The index of the first guard that blocks or fails; the number of guards when all pass. */
  function FirstGuard(guards: seq<Guard>, failClosed: bool): (n: nat)
    ensures n <= |guards|
    ensures forall j :: 0 <= j < n ==> !GuardStops(guards[j], failClosed)
    ensures n < |guards| ==> GuardStops(guards[n], failClosed)
  {
    if guards == [] || GuardStops(guards[0], failClosed) then 0 else 1 + FirstGuard(guards[1..], failClosed)
  }

  datatype Decider = Nobody | Loop | FirewallStage | DepthStage | EgressStage | GuardStage(i: nat)

  /** The first stage, in order, that stops the request. */
  function Decides(r: Request): Decider {
    if LoopStops(r) then Loop
    else if FirewallStops(r) then FirewallStage
    else if DepthStops(r) then DepthStage
    else if EgressStops(r) then EgressStage
    else
      var n := FirstGuard(r.guards, r.failClosed);
      if n < |r.guards| then GuardStage(n) else Nobody
  }

  function DeciderAction(d: Decider): Action { if d.Nobody? then Allow else if d.Loop? then CircuitBreak else Block }

  function DeciderReason(d: Decider): Reason
    requires !d.Nobody? && !d.Loop?
  {
    match d
    case FirewallStage => InjectionDetected
    case DepthStage => ScanDepthExceeded
    case EgressStage => EgressRefused
    case GuardStage(_) => GuardBlocked
  }

  function DeciderRisk(r: Request, d: Decider): Risk
    requires d == Decides(r)
  {
    match d
    case Nobody => Low
    case Loop => High
    case FirewallStage => r.firewall(TextsToScan(r)[FirstFlagged(TextsToScan(r), r.firewall)]).risk
    case DepthStage => High
    case EgressStage => r.egress.value.risk
    case GuardStage(i) => GuardRisk(r.guards[i])
  }

  // ----- Each stage against its condition

  lemma {:induction false} ScanDecides(texts: seq<Text>, firewall: Firewall, s: State)
    ensures var f := Scan(texts, firewall, s);
            && f.body == s.body && f.given == s.given
            && f.checks.Keys == s.checks.Keys + (if texts == [] then {} else {FirewallCheck})
            && (forall k :: k in s.checks && k != FirewallCheck ==> f.checks[k] == s.checks[k])
            && (texts != [] ==>
                  && f.checks[FirewallCheck].Scanned?
                  && (f.checks[FirewallCheck].answer.isInjection <==> Flagged(texts, firewall)))
            && (Flagged(texts, firewall) ==> f.action == Block)
            && (!Flagged(texts, firewall)
              ==> f.action == s.action && f.risk == s.risk && f.scanned == s.scanned + texts)
    decreases |texts|
  {
    if texts != [] {
      var answer := firewall(texts[0]);
      var next := With(s, FirewallCheck, Scanned(answer)).(scanned := s.scanned + [texts[0]]);
      if !answer.isInjection {
        ScanDecides(texts[1..], firewall, next);
        FlaggedTail(texts, firewall);
        assert s.scanned + texts == next.scanned + texts[1..];
      }
    }
  }

  /** The index of the first flagged text; the number of texts when none is. */
  function FirstFlagged(texts: seq<Text>, firewall: Firewall): (n: nat)
    ensures n <= |texts| && (n < |texts| <==> Flagged(texts, firewall))
    ensures n < |texts| ==> firewall(texts[n]).isInjection && forall j :: 0 <= j < n ==> !firewall(texts[j]).isInjection
  {
    if texts == [] || firewall(texts[0]).isInjection then 0
    else
      FlaggedTail(texts, firewall);
      1 + FirstFlagged(texts[1..], firewall)
  }

  /** The firewall stops at the first injection, and its risk level is kept. */
  lemma {:induction false} ScanStopsAtFirst(texts: seq<Text>, firewall: Firewall, s: State)
    requires Flagged(texts, firewall)
    ensures var n := FirstFlagged(texts, firewall);
            Scan(texts, firewall, s).risk == firewall(texts[n]).risk
              && Scan(texts, firewall, s).scanned == s.scanned + texts[..n + 1]
    decreases |texts|
  {
    if firewall(texts[0]).isInjection {
      assert texts[..1] == [texts[0]];
    } else {
      var next := With(s, FirewallCheck, Scanned(firewall(texts[0]))).(scanned := s.scanned + [texts[0]]);
      FlaggedTail(texts, firewall);
      ScanStopsAtFirst(texts[1..], firewall, next);
      var n := FirstFlagged(texts[1..], firewall);
      assert texts[..n + 2] == [texts[0]] + texts[1..][..n + 1];
    }
  }

  lemma FlaggedTail(texts: seq<Text>, firewall: Firewall)
    requires texts != [] && !firewall(texts[0]).isInjection
    ensures Flagged(texts, firewall) <==> Flagged(texts[1..], firewall)
  {
    if Flagged(texts, firewall) {
      var i :| 0 <= i < |texts| && firewall(texts[i]).isInjection;
      assert texts[1..][i - 1] == texts[i];
    }
    if Flagged(texts[1..], firewall) {
      var i :| 0 <= i < |texts[1..]| && firewall(texts[1..][i]).isInjection;
      assert texts[i + 1] == texts[1..][i];
    }
  }

  /** The guards run up to the first that blocks or fails. */
  lemma {:induction false} GuardsDecide(guards: seq<Guard>, failClosed: bool, s: State)
    ensures var n := FirstGuard(guards, failClosed);
            var f := RunGuards(guards, failClosed, s);
            && (f.Raised? <==> n < |guards| && guards[n].answer.Fails?)
            && (f.Reached? ==> f.s.body == s.body && f.s.given == s.given && f.s.scanned == s.scanned)
            && (f.Reached? && n == |guards| ==> f.s.action == s.action && f.s.risk == s.risk)
            && (f.Reached? && n < |guards| ==> f.s.action == Block && f.s.risk == GuardRisk(guards[n]))
    decreases |guards|
  {
    if guards != [] && !GuardStops(guards[0], failClosed) {
      GuardsDecide(guards[1..], failClosed, With(s, GuardCheck(guards[0].name), GuardRecord(guards[0])));
    }
  }

  /** The guards leave the other checks, and the guard that blocks leaves one that says so. */
  lemma {:induction false} GuardsKeepChecks(guards: seq<Guard>, failClosed: bool, s: State, k: CheckName)
    requires RunGuards(guards, failClosed, s).Reached?
    ensures var f := RunGuards(guards, failClosed, s).s;
            && (!k.GuardCheck? ==> (k in f.checks <==> k in s.checks) && (k in f.checks ==> f.checks[k] == s.checks[k]))
            && (FirstGuard(guards, failClosed) < |guards| ==> SomeGuardBlocks(f.checks))
    decreases |guards|
  {
    if guards != [] {
      var name := GuardCheck(guards[0].name);
      var next := With(s, name, GuardRecord(guards[0]));
      if GuardBlocks(guards[0], failClosed) {
        assert name in next.checks && GuardCheckBlocks(next.checks[name]);
      } else {
        GuardsKeepChecks(guards[1..], failClosed, next, k);
      }
    }
  }

  function GuardNames(guards: seq<Guard>): set<CheckName> { set g <- guards :: GuardCheck(g.name) }

  /** The guards that run, the deciding one included. */
  function GuardsRun(guards: seq<Guard>, failClosed: bool): seq<Guard> {
    var n := FirstGuard(guards, failClosed);
    guards[..if n < |guards| then n + 1 else n]
  }

  lemma GuardsRunStep(guards: seq<Guard>, failClosed: bool)
    requires guards != []
    ensures GuardNames(GuardsRun(guards, failClosed)) == {GuardCheck(guards[0].name)}
      + if GuardStops(guards[0], failClosed) then {} else GuardNames(GuardsRun(guards[1..], failClosed))
  {
    var rest := GuardsRun(guards[1..], failClosed);
    if GuardStops(guards[0], failClosed) {
      assert GuardsRun(guards, failClosed) == [guards[0]];
    } else {
      assert GuardsRun(guards, failClosed) == [guards[0]] + rest;
      assert GuardNames([guards[0]] + rest) == {GuardCheck(guards[0].name)} + GuardNames(rest);
    }
  }

  lemma {:induction false} GuardsLeaveChecks(guards: seq<Guard>, failClosed: bool, s: State)
    requires RunGuards(guards, failClosed, s).Reached?
    ensures RunGuards(guards, failClosed, s).s.checks.Keys == s.checks.Keys + GuardNames(GuardsRun(guards, failClosed))
    decreases |guards|
  {
    if guards != [] {
      GuardsRunStep(guards, failClosed);
      if !GuardBlocks(guards[0], failClosed) {
        GuardsLeaveChecks(guards[1..], failClosed, With(s, GuardCheck(guards[0].name), GuardRecord(guards[0])));
      }
    }
  }

  // ----- The state before the guards

  function BeforeGuards(r: Request): State
    requires r.body.Dict?
  {
    AfterEgress(r, AfterPii(r, AfterFirewall(r, AfterLoop(r))))
  }

  /** The names of the checks that the first stages leave. */
  function EarlyChecks(r: Request): set<CheckName> {
    var d := Decides(r);
    var past := !d.Loop? && !d.FirewallStage? && !d.DepthStage?;
    (if r.loopEnabled then {LoopCheck} else {})
    + (if !d.Loop? && r.injectionEnabled && TextsToScan(r) != [] then {FirewallCheck} else {})
    + (if !d.Loop? && DepthStops(r) then {DepthCheck} else {})
    + (if past && r.piiEnabled then {PiiCheck} else {})
    + (if past && r.egress.Some? then {EgressCheck} else {})
  }

  ghost predicate FirewallCheckSays(checks: Checks, flagged: bool) {
    FirewallCheck in checks ==> checks[FirewallCheck].Scanned? && checks[FirewallCheck].answer.isInjection == flagged
  }

  ghost predicate EgressCheckSays(checks: Checks, refused: bool) {
    EgressCheck in checks ==> checks[EgressCheck].EgressDecided? && checks[EgressCheck].decision.allowed == !refused
  }

  lemma AfterFirewallDecides(r: Request)
    ensures var s := AfterFirewall(r, AfterLoop(r));
            && s.body == r.body && s.given == []
            && s.action ==
              (if LoopStops(r) then CircuitBreak else if FirewallStops(r) || DepthStops(r) then Block else Allow)
            && (s.action.Allow? && r.injectionEnabled ==> s.scanned == TextsToScan(r))
  {
    ScanDecides(TextsToScan(r), r.firewall, AfterLoop(r));
  }

  lemma AfterFirewallChecks(r: Request)
    ensures var s := AfterFirewall(r, AfterLoop(r));
            && FirewallCheckSays(s.checks, FirewallStops(r))
            && (FirewallStops(r) && !LoopStops(r) ==> FirewallCheck in s.checks)
            && s.checks.Keys == (if r.loopEnabled then {LoopCheck} else {})
                 + (if !LoopStops(r) && r.injectionEnabled && TextsToScan(r) != [] then {FirewallCheck} else {})
                 + (if !LoopStops(r) && DepthStops(r) then {DepthCheck} else {})
  {
    ScanDecides(TextsToScan(r), r.firewall, AfterLoop(r));
  }

  lemma AfterFirewallRisk(r: Request)
    requires !LoopStops(r)
    ensures AfterFirewall(r, AfterLoop(r)).risk ==
      if FirewallStops(r) then r.firewall(TextsToScan(r)[FirstFlagged(TextsToScan(r), r.firewall)]).risk
      else if DepthStops(r) then High else Low
  {
    var texts := TextsToScan(r);
    if r.injectionEnabled {
      ScanDecides(texts, r.firewall, AfterLoop(r));
      if FirewallStops(r) { ScanStopsAtFirst(texts, r.firewall, AfterLoop(r)); }
    }
  }

  function RedactedBody(r: Request): Value
    requires r.body.Dict?
  {
    if RedactedParams(r).count > 0 then WithParams(r.body, RedactedParams(r).params) else r.body
  }

  lemma AfterPiiDecides(r: Request, s: State)
    requires r.body.Dict? && s.body == r.body && s.given == []
    ensures var f := AfterPii(r, s);
            && f.action == s.action && f.scanned == s.scanned
            && (forall flagged :: FirewallCheckSays(s.checks, flagged) ==> FirewallCheckSays(f.checks, flagged))
            && f.checks.Keys == s.checks.Keys + (if s.action.Allow? && r.piiEnabled then {PiiCheck} else {})
            && (s.action.Allow? && r.piiEnabled ==> f.given == TextsToRedact(r) && f.body == RedactedBody(r))
  {}

  lemma AfterEgressDecides(r: Request, s: State)
    requires EgressCheck !in s.checks
    ensures var f := AfterEgress(r, s);
            && f.action == (if s.action.Allow? && EgressStops(r) then Block else s.action)
            && f.scanned == s.scanned && f.given == s.given && f.body == s.body
            && EgressCheckSays(f.checks, EgressStops(r))
            && (forall flagged :: FirewallCheckSays(s.checks, flagged) ==> FirewallCheckSays(f.checks, flagged))
            && f.checks.Keys == s.checks.Keys + (if s.action.Allow? && r.egress.Some? then {EgressCheck} else {})
  {}

  lemma BeforeGuardsDecides(r: Request)
    requires r.body.Dict?
    ensures var s := BeforeGuards(r);
            && s.action == (if LoopStops(r) then CircuitBreak
                            else if FirewallStops(r) || DepthStops(r) || EgressStops(r) then Block else Allow)
            && s.checks.Keys == EarlyChecks(r)
            && FirewallCheckSays(s.checks, FirewallStops(r)) && EgressCheckSays(s.checks, EgressStops(r))
            && (FirewallStops(r) && !LoopStops(r) ==> FirewallCheck in s.checks)
            && (s.action.Allow? && r.injectionEnabled ==> s.scanned == TextsToScan(r))
            && (s.action.Allow? && r.piiEnabled ==> s.given == TextsToRedact(r) && s.body == RedactedBody(r))
  {
    AfterFirewallDecides(r);
    AfterFirewallChecks(r);
    AfterPiiDecides(r, AfterFirewall(r, AfterLoop(r)));
    AfterEgressDecides(r, AfterPii(r, AfterFirewall(r, AfterLoop(r))));
  }

  lemma RiskBeforeGuards(r: Request)
    requires r.body.Dict?
    ensures BeforeGuards(r).risk == if Decides(r).GuardStage? then Low else DeciderRisk(r, Decides(r))
  {
    AfterFirewallDecides(r);
    if LoopStops(r) { assert AfterFirewall(r, AfterLoop(r)).risk == High; } else { AfterFirewallRisk(r); }
    var s := AfterFirewall(r, AfterLoop(r));
    AfterPiiRisk(r, s);
    AfterEgressRisk(r, AfterPii(r, s));
  }

  lemma AfterPiiRisk(r: Request, s: State)
    requires r.body.Dict?
    ensures AfterPii(r, s).risk == s.risk && AfterPii(r, s).action == s.action
  {}

  lemma AfterEgressRisk(r: Request, s: State)
    ensures AfterEgress(r, s).risk == if s.action.Allow? && EgressStops(r) then r.egress.value.risk else s.risk
  {}

  // ----- Main results

  /** The pipeline ends with the action and risk of the first stage that stops the request, and raises exactly
      when that is a guard that fails outside its contract. */
  lemma FirstStageDecides(r: Request)
    requires r.body.Dict?
    ensures var d := Decides(r);
            && (Stages(r).Raised? <==> d.GuardStage? && r.guards[d.i].answer.Fails?)
            && (Stages(r).Reached? ==> Stages(r).s.action == DeciderAction(d) && Stages(r).s.risk == DeciderRisk(r, d))
  {
    RiskBeforeGuards(r);
    BeforeGuardsDecides(r);
    GuardsDecide(r.guards, r.failClosed, BeforeGuards(r));
  }

  /** The checks of a finished run: those of the stages up to the deciding one, and of the guards up to
      the deciding guard. */
  lemma NoLaterCheck(r: Request)
    requires r.body.Dict? && Stages(r).Reached?
    ensures var d := Decides(r);
            Stages(r).s.checks.Keys == EarlyChecks(r)
              + (match d
                 case Nobody => GuardNames(r.guards)
                 case GuardStage(i) => GuardNames(r.guards[..i + 1])
                 case _ => {})
  {
    BeforeGuardsDecides(r);
    if BeforeGuards(r).action.Allow? { GuardsLeaveChecks(r.guards, r.failClosed, BeforeGuards(r)); }
    assert r.guards[..|r.guards|] == r.guards;
  }

  /** A blocked request names the stage that blocked it, and never by the fallback. */
  lemma ReasonNamesDecider(r: Request)
    requires r.body.Dict? && Stages(r).Reached? && Stages(r).s.action == Block
    ensures !Decides(r).Nobody? && !Decides(r).Loop?
    ensures NamedReason(Stages(r).s.checks) == Some(DeciderReason(Decides(r)))
    ensures Finished(Stages(r).s, Enforce).reason == Some(DeciderReason(Decides(r)))
  {
    FirstStageDecides(r);
    BeforeGuardsDecides(r);
    if Decides(r).GuardStage? {
      forall k | k in {FirewallCheck, DepthCheck, EgressCheck} {
        GuardsKeepChecks(r.guards, r.failClosed, BeforeGuards(r), k);
      }
    }
  }

  /** Observe and dry-run compute what enforce computes, never block, and record the action of enforce
      exactly when it is not ALLOW. */
  lemma ModesAgree(r: Request, mode: Mode)
    requires r.body.Dict? && Stages(r).Reached? && !mode.Enforce?
    ensures var enforced, observed := Finished(Stages(r).s, Enforce), Finished(Stages(r).s, mode);
            && observed.checks == enforced.checks && observed.body == enforced.body && observed.risk == enforced.risk
            && observed.action == Allow && observed.reason == None && enforced.would == None
            && observed.would == (if Decides(r).Nobody? then None else Some(enforced.action))
            && enforced.action == DeciderAction(Decides(r))
  {
    FirstStageDecides(r);
  }

  /** The params of the request are the "params" of its body, or an empty object. */
  predicate ParamsOfBody(r: Request)
    requires r.body.Dict?
  {
    r.params == Dict([]) || exists i :: 0 <= i < |r.body.members| && r.body.members[i] == (TextKey(PARAMS), r.params)
  }

  lemma {:induction false} DeepMember(members: seq<(Key, Value)>, depth: nat, i: nat)
    requires i < |members| && HasDeepText(members[i].1, depth)
    ensures DeepMembers(members, depth)
    decreases |members|
  {
    if i > 0 { DeepMember(members[1..], depth, i - 1); }
  }

  lemma ParamsNotDeep(r: Request)
    requires r.body.Dict? && ParamsOfBody(r) && !HasDeepText(r.body, 0)
    ensures !HasDeepText(r.params, 0)
  {
    if HasDeepText(r.params, 0) {
      var i :| 0 <= i < |r.body.members| && r.body.members[i] == (TextKey(PARAMS), r.params);
      DeepTextMonotone(r.params, 0, 1);
      DeepMember(r.body.members, 1, i);
    }
  }

  /** When enforce allows a request, every string of its body at any depth, keys included, was given to
      the firewall and not flagged; only empty strings may have been left out. */
  lemma AllowedMeansScanned(r: Request, t: Text)
    requires r.body.Dict? && Stages(r).Reached? && Finished(Stages(r).s, Enforce).action == Allow
    requires r.injectionEnabled && r.scanTexts.None?
    requires t in Strings(r.body, 0, None, true) && t.Cons?
    ensures t in Stages(r).s.scanned && !r.firewall(t).isInjection
  {
    FirstStageDecides(r);
    BeforeGuardsDecides(r);
    GuardsDecide(r.guards, r.failClosed, BeforeGuards(r));
    BoundedStringsComplete(r.body, 0, true);
    NonEmptyHas(Strings(r.body, 0, None, true), t);
    NonEmptyHas(Strings(r.body, 0, BOUNDED, true), t);
  }

  /** ... and every string value of its params went through the PII engine: the params that are sent on
      are redacted at every depth. */
  lemma AllowedMeansRedacted(r: Request, t: Text)
    requires r.body.Dict? && Stages(r).Reached? && Finished(Stages(r).s, Enforce).action == Allow
    requires r.piiEnabled && r.scanTexts.None? && r.redactParams.None? && ParamsOfBody(r)
    requires t in Strings(r.params, 0, None, false) && t.Cons?
    ensures t in Stages(r).s.given
  {
    FirstStageDecides(r);
    BeforeGuardsDecides(r);
    GuardsDecide(r.guards, r.failClosed, BeforeGuards(r));
    ParamsNotDeep(r);
    BoundedStringsComplete(r.params, 0, false);
    NonEmptyHas(Strings(r.params, 0, None, false), t);
    NonEmptyHas(Strings(r.params, 0, BOUNDED, false), t);
  }

  lemma AllowedBodyIsRedacted(r: Request)
    requires r.body.Dict? && Stages(r).Reached? && Finished(Stages(r).s, Enforce).action == Allow
    requires r.piiEnabled && r.scanTexts.None? && r.redactParams.None? && ParamsOfBody(r) && KeepsEmpty(r.redact)
    ensures var params := Redacted(r.params, 0, None, false, r.redact);
            Finished(Stages(r).s, Enforce).body
              == if TotalCount(Strings(r.params, 0, BOUNDED, false), r.redact) > 0
                 then WithParams(r.body, params) else r.body
  {
    FirstStageDecides(r);
    BeforeGuardsDecides(r);
    GuardsDecide(r.guards, r.failClosed, BeforeGuards(r));
    ParamsNotDeep(r);
    BoundedRedactionComplete(r.params, 0, false, r.redact);
  }

  /** A request whose one text the firewall flags, and from which deeper text was left out. */
  function FlaggedAndTruncated(): Request {
    Request(Dict([]), Dict([]), Some([Nil]), true, false, false, true, true, false,
            _ => FirewallAnswer(true, Critical), t => Answer(t, [], 0), None, None, [])
  }

  /** The depth check is recorded beside the injection, which stays the reason. */
  lemma DepthBesideInjection()
    ensures var r := FlaggedAndTruncated();
            && Stages(r).Reached? && Stages(r).s.checks.Keys == {FirewallCheck, DepthCheck}
            && Finished(Stages(r).s, Enforce).reason == Some(InjectionDetected) && Stages(r).s.risk == Critical
  {
    var r := FlaggedAndTruncated();
    assert r.firewall(r.scanTexts.value[0]).isInjection;
    FirstStageDecides(r);
    NoLaterCheck(r);
    ReasonNamesDecider(r);
  }
}
