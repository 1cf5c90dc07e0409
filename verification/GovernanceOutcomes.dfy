/** The outcome of the pipeline in terms of the request alone: its texts by their positions, the raw answers of
    the engines and guards, and the body that is sent on. */
module GovernanceOutcomes {
  import opened Texts
  import opened PyValues
  import opened RequestTexts
  import opened ValuePaths
  import opened Redaction
  import opened RedactionTheorems
  import opened GovernancePipeline
  import opened GovernanceTheorems

  // ----- What is scanned, and what is too deep

  /** A text the firewall has to see: one the caller gives, or else a string or key down to level 32. */
  ghost predicate ToScan(r: Request, t: Text) {
    if r.scanTexts.Some? then t in r.scanTexts.value
    else exists p :: StringAt(r.body, p, 0, Some(32), true) && At(r.body, p) == Some(Str(t))
  }

  lemma ToScanIs(r: Request, t: Text)
    ensures t in TextsToScan(r) <==> ToScan(r, t)
  {
    if r.scanTexts.None? { StringsHas(r.body, 0, BOUNDED, true, t); }
  }

  /** The texts reach the firewall in the caller's order, or in document order. */
  lemma ScanOrder(r: Request) returns (places: seq<Path>)
    ensures r.scanTexts.Some? ==> TextsToScan(r) == r.scanTexts.value
    ensures r.scanTexts.None? ==>
      && |places| == |TextsToScan(r)|
      && (forall n :: 0 <= n < |places| ==> At(r.body, places[n]) == Some(Str(TextsToScan(r)[n])))
      && (forall p :: p in places <==> StringAt(r.body, p, 0, Some(32), true))
      && (forall a, b :: 0 <= a < b < |places| ==> Precedes(places[a], places[b]))
  {
    places := StringsExactly(r.body, 0, BOUNDED, true);
  }

  ghost predicate Injected(r: Request) { exists t :: ToScan(r, t) && r.firewall(t).isInjection }

  ghost predicate TooDeep(v: Value) { exists p :: |p| > 32 && TextAt(v, p) }

  /** Text is left out of the scan: the caller says so, or it lies below level 32 of the body. */
  ghost predicate LeftOut(r: Request) {
    || (r.injectionEnabled && r.scanTruncated)
    || (r.scanTexts.None? && (r.injectionEnabled || r.piiEnabled) && TooDeep(r.body))
  }

  /** A guard that does not let the request pass: it blocks, redacts, breaks its contract in closed fail mode, or
      fails. */
  predicate Objects(g: Guard, failClosed: bool) {
    match g.answer
    case Verdict(Pass, _) => false
    case Verdict(GuardBlock, _) => true
    case Verdict(GuardRedact, _) => true
    case BreaksContract(_) => failClosed
    case Fails => true
  }

  predicate Looping(r: Request) { r.loopEnabled && r.isLoop }
  predicate Refused(r: Request) { r.egress.Some? && !r.egress.value.allowed }

  lemma InjectedIs(r: Request)
    ensures Flagged(TextsToScan(r), r.firewall) <==> Injected(r)
  {
    var texts := TextsToScan(r);
    if Flagged(texts, r.firewall) {
      var i :| 0 <= i < |texts| && r.firewall(texts[i]).isInjection;
      ToScanIs(r, texts[i]);
    }
    if t :| ToScan(r, t) && r.firewall(t).isInjection {
      ToScanIs(r, t);
      var i :| 0 <= i < |texts| && texts[i] == t;
      assert r.firewall(texts[i]).isInjection;
    }
  }

  lemma LeftOutIs(r: Request)
    ensures DepthStops(r) <==> LeftOut(r)
  {
    DeepTextExactly(r.body, 0);
    if HasDeepText(r.body, 0) {
      var p :| 0 + |p| > 32 && TextAt(r.body, p);
      assert |p| > 32 && TextAt(r.body, p);
    }
    if TooDeep(r.body) {
      var p :| |p| > 32 && TextAt(r.body, p);
      assert 0 + |p| > 32 && TextAt(r.body, p);
    }
  }

  ghost predicate PassesFirst(r: Request) {
    !Looping(r) && !(r.injectionEnabled && Injected(r)) && !LeftOut(r) && !Refused(r)
  }

  /** The stage that decides, by conditions on the request alone. */
  lemma DeciderExactly(r: Request)
    ensures Decides(r).Loop? <==> Looping(r)
    ensures Decides(r).FirewallStage? <==> !Looping(r) && r.injectionEnabled && Injected(r)
    ensures Decides(r).DepthStage? <==> !Looping(r) && !(r.injectionEnabled && Injected(r)) && LeftOut(r)
    ensures Decides(r).EgressStage? <==>
      !Looping(r) && !(r.injectionEnabled && Injected(r)) && !LeftOut(r) && Refused(r)
    ensures forall i :: 0 <= i < |r.guards| ==>
      (Decides(r) == GuardStage(i) <==>
         PassesFirst(r) && Objects(r.guards[i], r.failClosed)
         && forall j :: 0 <= j < i ==> !Objects(r.guards[j], r.failClosed))
    ensures Decides(r).Nobody? <==>
      PassesFirst(r) && forall i :: 0 <= i < |r.guards| ==> !Objects(r.guards[i], r.failClosed)
  {
    InjectedIs(r);
    LeftOutIs(r);
    assert forall g: Guard :: GuardStops(g, r.failClosed) <==> Objects(g, r.failClosed);
  }

  // ----- Action, risk and reason

  /** The scan stopped at its last text, which alone was flagged. */
  ghost predicate StoppedAtLast(scanned: seq<Text>, texts: seq<Text>, firewall: Firewall) {
    && scanned != [] && scanned <= texts && firewall(scanned[|scanned| - 1]).isInjection
    && forall i :: 0 <= i < |scanned| - 1 ==> !firewall(scanned[i]).isInjection
  }

  lemma ScannedAtEnd(r: Request)
    requires r.body.Dict? && Stages(r).Reached?
    ensures Stages(r).s.scanned == AfterFirewall(r, AfterLoop(r)).scanned
  {
    GuardsDecide(r.guards, r.failClosed, BeforeGuards(r));
  }

  lemma FirewallStopsAtLast(r: Request)
    requires r.body.Dict? && Decides(r).FirewallStage?
    ensures var scanned := AfterFirewall(r, AfterLoop(r)).scanned;
            StoppedAtLast(scanned, TextsToScan(r), r.firewall)
            && DeciderRisk(r, Decides(r)) == r.firewall(scanned[|scanned| - 1]).risk
  {
    var texts := TextsToScan(r);
    ScanStopsAtFirst(texts, r.firewall, AfterLoop(r));
    var n := FirstFlagged(texts, r.firewall);
    assert AfterFirewall(r, AfterLoop(r)).scanned == [] + texts[..n + 1];
  }

  /** The result in enforce mode, stage by stage. */
  lemma OutcomeExactly(r: Request)
    requires r.body.Dict?
    ensures Stages(r).Raised? <==> Decides(r).GuardStage? && r.guards[Decides(r).i].answer == Fails
    ensures Stages(r).Reached? ==>
      var f, scanned := Finished(Stages(r).s, Enforce), Stages(r).s.scanned;
      && f.would == None
      && match Decides(r)
         case Nobody => f.action == Allow && f.risk == Low && f.reason == None
         case Loop => f.action == CircuitBreak && f.risk == High && f.reason == None
         case FirewallStage =>
           && f.action == Block && f.reason == Some(InjectionDetected)
           && StoppedAtLast(scanned, TextsToScan(r), r.firewall)
           && f.risk == r.firewall(scanned[|scanned| - 1]).risk
         case DepthStage => f.action == Block && f.risk == High && f.reason == Some(ScanDepthExceeded)
         case EgressStage => f.action == Block && f.risk == r.egress.value.risk && f.reason == Some(EgressRefused)
         case GuardStage(i) =>
           && f.action == Block && f.reason == Some(GuardBlocked)
           && (match r.guards[i].answer
               case Verdict(_, Some(risk)) => f.risk == risk
               case Verdict(_, None) => f.risk == High
               case BreaksContract(_) => f.risk == High
               case Fails => false)
  {
    FirstStageDecides(r);
    if Stages(r).Reached? {
      if Stages(r).s.action.Block? { ReasonNamesDecider(r); }
      if Decides(r).FirewallStage? {
        ScannedAtEnd(r);
        FirewallStopsAtLast(r);
      }
    }
  }

  // ----- What the checks hold

  function CheckAt(checks: Checks, k: CheckName): Option<Check> { if k in checks then Some(checks[k]) else None }

  lemma {:induction false} ScanLeavesLast(texts: seq<Text>, firewall: Firewall, s: State)
    ensures var f := Scan(texts, firewall, s);
            if texts == [] then f == s
            else
              && |f.scanned| > |s.scanned|
              && CheckAt(f.checks, FirewallCheck) == Some(Scanned(firewall(f.scanned[|f.scanned| - 1])))
    ensures forall k: CheckName :: k != FirewallCheck ==>
      CheckAt(Scan(texts, firewall, s).checks, k) == CheckAt(s.checks, k)
    decreases |texts|
  {
    if texts != [] && !firewall(texts[0]).isInjection {
      var next := With(s, FirewallCheck, Scanned(firewall(texts[0]))).(scanned := s.scanned + [texts[0]]);
      ScanLeavesLast(texts[1..], firewall, next);
    }
  }

  /** What a guard leaves in the checks. */
  predicate Recorded(g: Guard, c: Check) {
    match g.answer
    case Verdict(action, _) => c == GuardSaid(action)
    case BreaksContract(exception) => c == GuardError(exception)
    case Fails => false
  }

  /** The index of the last guard of this name; -1 when there is none. */
  function LastNamed(guards: seq<Guard>, name: Text): (i: int)
    ensures -1 <= i < |guards| && (i >= 0 ==> guards[i].name == name)
    ensures forall j :: i < j < |guards| ==> guards[j].name != name
  {
    if guards == [] then -1
    else
      var i := LastNamed(guards[1..], name);
      if i >= 0 then i + 1 else if guards[0].name == name then 0 else -1
  }

  /** The check under a guard's name: what the last guard of that name left, or what was there before. */
  predicate LastOf(guards: seq<Guard>, name: Text, was: Option<Check>, c: Option<Check>) {
    var i := LastNamed(guards, name);
    if i >= 0 then c.Some? && Recorded(guards[i], c.value) else c == was
  }

  lemma LastOfStep(g: Guard, rest: seq<Guard>, name: Text, was: Option<Check>, left: Check, c: Option<Check>)
    requires Recorded(g, left)
    requires LastOf(rest, name, if g.name == name then Some(left) else was, c)
    ensures LastOf([g] + rest, name, was, c)
  {
    assert ([g] + rest)[1..] == rest;
  }

  lemma {:induction false} GuardsLeaveLast(guards: seq<Guard>, failClosed: bool, s: State, name: Text)
    requires RunGuards(guards, failClosed, s).Reached?
    ensures LastOf(GuardsRun(guards, failClosed), name, CheckAt(s.checks, GuardCheck(name)),
                   CheckAt(RunGuards(guards, failClosed, s).s.checks, GuardCheck(name)))
    ensures forall k: CheckName :: !k.GuardCheck? ==>
      CheckAt(RunGuards(guards, failClosed, s).s.checks, k) == CheckAt(s.checks, k)
    decreases |guards|
  {
    if guards != [] {
      var g := guards[0];
      var next := With(s, GuardCheck(g.name), GuardRecord(g));
      var c := CheckAt(RunGuards(guards, failClosed, s).s.checks, GuardCheck(name));
      if GuardBlocks(g, failClosed) {
        assert GuardsRun(guards, failClosed) == [g] + [];
        LastOfStep(g, [], name, CheckAt(s.checks, GuardCheck(name)), GuardRecord(g), c);
      } else {
        GuardsLeaveLast(guards[1..], failClosed, next, name);
        assert GuardsRun(guards, failClosed) == [g] + GuardsRun(guards[1..], failClosed);
        LastOfStep(g, GuardsRun(guards[1..], failClosed), name, CheckAt(s.checks, GuardCheck(name)), GuardRecord(g), c);
      }
    }
  }

  /** What PII redaction found in the params, text by text. */
  predicate PiiFound(r: Request, c: Check) {
    if r.redactParams.Some? then c == Pii(r.redactParams.value.entities, r.redactParams.value.count)
    else
      var texts := Strings(r.params, 0, Some(32), false);
      c == Pii(TotalEntities(texts, r.redact), TotalCount(texts, r.redact))
  }

  /** The value of a check that is not a guard's. */
  ghost predicate StageCheck(r: Request, k: CheckName, c: Check, scanned: seq<Text>) {
    match k
    case LoopCheck => c == LoopFound(r.isLoop)
    case FirewallCheck => scanned != [] && c == Scanned(r.firewall(scanned[|scanned| - 1]))
    case DepthCheck => c == DepthExceeded
    case PiiCheck => PiiFound(r, c)
    case EgressCheck => r.egress.Some? && c == EgressDecided(r.egress.value)
    case GuardCheck(_) => false
  }

  ghost predicate StageChecks(r: Request, s: State) {
    forall k :: k in s.checks ==> StageCheck(r, k, s.checks[k], s.scanned)
  }

  lemma FirewallChecks(r: Request)
    ensures StageChecks(r, AfterFirewall(r, AfterLoop(r)))
  {
    var s := AfterLoop(r);
    var scanned := Scan(TextsToScan(r), r.firewall, s);
    ScanLeavesLast(TextsToScan(r), r.firewall, s);
    forall k | k in scanned.checks ensures StageCheck(r, k, scanned.checks[k], scanned.scanned) {
      assert k != FirewallCheck ==> CheckAt(scanned.checks, k) == CheckAt(s.checks, k);
    }
  }

  lemma EarlyChecksHold(r: Request)
    requires r.body.Dict?
    ensures StageChecks(r, BeforeGuards(r))
  {
    FirewallChecks(r);
    assert StageChecks(r, AfterPii(r, AfterFirewall(r, AfterLoop(r))));
  }

  /** The values of the checks of a finished run: those of the stages, and under each guard's name what the last
      guard of that name left. */
  lemma ChecksHold(r: Request, k: CheckName)
    requires r.body.Dict? && Stages(r).Reached?
    ensures var s := Stages(r).s;
            if k.GuardCheck? then
              var ran := if PassesFirst(r) then GuardsRun(r.guards, r.failClosed) else [];
              LastOf(ran, k.name, None, CheckAt(s.checks, k))
            else k in s.checks ==> StageCheck(r, k, s.checks[k], s.scanned)
  {
    var s := BeforeGuards(r);
    EarlyChecksHold(r);
    ScannedAtEnd(r);
    BeforeGuardsDecides(r);
    InjectedIs(r);
    LeftOutIs(r);
    if s.action.Allow? {
      GuardsLeaveLast(r.guards, r.failClosed, s, if k.GuardCheck? then k.name else Nil);
      GuardsDecide(r.guards, r.failClosed, s);
      assert !k.GuardCheck? ==> CheckAt(Stages(r).s.checks, k) == CheckAt(s.checks, k);
    }
  }

  // ----- The body that is sent on

  /** PII redaction runs: nothing stopped the request before it. */
  ghost predicate PiiRuns(r: Request) {
    r.piiEnabled && !Looping(r) && !(r.injectionEnabled && Injected(r)) && !LeftOut(r)
  }

  /** The engine counts something in a string of the params, or the caller's redaction does. */
  ghost predicate PiiCounted(r: Request) {
    if r.redactParams.Some? then r.redactParams.value.count > 0
    else
      exists p, t ::
        StringAt(r.params, p, 0, Some(32), false) && At(r.params, p) == Some(Str(t)) && r.redact(t).count > 0
  }

  lemma PiiCountedIs(r: Request)
    ensures RedactedParams(r).count > 0 <==> PiiCounted(r)
  {
    if r.redactParams.None? {
      var texts := TextsToRedact(r);
      CountPositive(texts, r.redact);
      if i :| 0 <= i < |texts| && r.redact(texts[i]).count > 0 { StringsHas(r.params, 0, BOUNDED, false, texts[i]); }
      if p, t :| StringAt(r.params, p, 0, Some(32), false) && At(r.params, p) == Some(Str(t)) && r.redact(t).count > 0 {
        StringsHas(r.params, 0, BOUNDED, false, t);
        var i :| 0 <= i < |texts| && texts[i] == t;
        assert r.redact(texts[i]).count > 0;
      }
    }
  }

  lemma BodyIs(r: Request)
    requires r.body.Dict? && Stages(r).Reached?
    ensures Stages(r).s.body == if PiiRuns(r) then RedactedBody(r) else r.body
  {
    var s := AfterFirewall(r, AfterLoop(r));
    AfterFirewallDecides(r);
    InjectedIs(r);
    LeftOutIs(r);
    assert AfterPii(r, s).body == if PiiRuns(r) then RedactedBody(r) else r.body;
    GuardsDecide(r.guards, r.failClosed, BeforeGuards(r));
  }

  /** At every position of the params (`limit` None is every depth), a string is the engine's text for it, and
      everything else is as it was. */
  ghost predicate RedactedFrom(params: Value, sent: Value, limit: Option<nat>, redact: Redactor) {
    forall p :: !PassesKey(p) ==>
      if At(params, p).None? then At(sent, p).None?
      else At(sent, p).Some? && Becomes(At(params, p).value, At(sent, p).value, |p|, limit, false, redact)
  }

  lemma RedactedEverywhere(params: Value, limit: Option<nat>, redact: Redactor)
    ensures RedactedFrom(params, Redacted(params, 0, limit, false, redact), limit, redact)
  {
    forall p | !PassesKey(p)
      ensures var sent := Redacted(params, 0, limit, false, redact);
              if At(params, p).None? then At(sent, p).None?
              else At(sent, p).Some? && Becomes(At(params, p).value, At(sent, p).value, |p|, limit, false, redact)
    {
      RedactedAt(params, 0, limit, false, redact, p);
    }
  }

  const PARAMS_KEY := TextKey(Ascii("params"))

  /** The body sent on is the body that came, unless PII redaction ran and counted something: then its "params"
      are the redacted ones, and every other member is as it came. */
  lemma SentBody(r: Request, k: Key)
    requires r.body.Dict? && DistinctKeys(r.body.members) && Stages(r).Reached?
    ensures var sent := Stages(r).s.body;
            if !(PiiRuns(r) && PiiCounted(r)) then sent == r.body
            else
              && sent.Dict?
              && (k != PARAMS_KEY ==> Lookup(sent.members, k) == Lookup(r.body.members, k))
              && Lookup(sent.members, PARAMS_KEY).Some?
              && var params := Lookup(sent.members, PARAMS_KEY).value;
                 if r.redactParams.Some? then params == r.redactParams.value.params
                 else RedactedFrom(r.params, params, Some(32), r.redact)
  {
    BodyIs(r);
    PiiCountedIs(r);
    LookupAssigned(r.body.members, PARAMS_KEY, RedactedParams(r).params, k);
    LookupAssigned(r.body.members, PARAMS_KEY, RedactedParams(r).params, PARAMS_KEY);
    if r.redactParams.None? { RedactedEverywhere(r.params, BOUNDED, r.redact); }
  }

  /** The members of the body keep their order, and "params" comes last when it was not there. */
  lemma SentMembers(r: Request, i: nat)
    requires r.body.Dict? && DistinctKeys(r.body.members) && Stages(r).Reached?
    ensures var sent, n := Stages(r).s.body, |r.body.members|;
            && sent.Dict? && n <= |sent.members| <= n + 1
            && (i < n ==> sent.members[i].0 == r.body.members[i].0)
            && (|sent.members| == n + 1 ==> sent.members[n].0 == PARAMS_KEY)
  {
    BodyIs(r);
    AssignedAt(r.body.members, PARAMS_KEY, RedactedParams(r).params);
  }

  /** Text that is not deep in the body is not deep in its params. */
  lemma AllowedParams(r: Request)
    requires r.body.Dict? && Decides(r).Nobody? && r.piiEnabled && r.scanTexts.None? && ParamsOfBody(r)
    ensures !HasDeepText(r.params, 0) && PiiRuns(r)
  {
    DeciderExactly(r);
    LeftOutIs(r);
    ParamsNotDeep(r);
  }

  /** When nothing stops a request whose strings are all inspected, every string of its params, at every depth, is
      sent on as the engine's text for it, once the engine counts something in one of them; otherwise the body is
      sent on as it came. */
  lemma SentParamsRedacted(r: Request)
    requires r.body.Dict? && DistinctKeys(r.body.members) && Stages(r).Reached? && Decides(r).Nobody?
    requires r.piiEnabled && r.scanTexts.None? && r.redactParams.None? && ParamsOfBody(r) && KeepsEmpty(r.redact)
    ensures PiiCounted(r) ==>
      var body := Stages(r).s.body;
      body.Dict? && var sent := Lookup(body.members, PARAMS_KEY);
      sent.Some? && RedactedFrom(r.params, sent.value, None, r.redact)
    ensures !PiiCounted(r) ==> Stages(r).s.body == r.body
  {
    AllowedParams(r);
    BodyIs(r);
    PiiCountedIs(r);
    LookupAssigned(r.body.members, PARAMS_KEY, RedactedParams(r).params, PARAMS_KEY);
    BoundedRedactionComplete(r.params, 0, false, r.redact);
    RedactedEverywhere(r.params, None, r.redact);
  }

  // ----- What an allowed request went through, by position

  /** When enforce allows a request, every string of its body at any depth, keys included, was given to the
      firewall and not flagged; only empty strings may have been left out. */
  lemma StringScanned(r: Request, p: Path, t: Text)
    requires r.body.Dict? && Stages(r).Reached? && Finished(Stages(r).s, Enforce).action == Allow
    requires r.injectionEnabled && r.scanTexts.None?
    requires At(r.body, p) == Some(Str(t)) && t != Nil
    ensures t in Stages(r).s.scanned && !r.firewall(t).isInjection
  {
    assert StringAt(r.body, p, 0, None, true);
    StringsHas(r.body, 0, None, true, t);
    AllowedMeansScanned(r, t);
  }

  /** ... and every string value of its params was given to the PII engine. */
  lemma StringRedacted(r: Request, p: Path, t: Text)
    requires r.body.Dict? && Stages(r).Reached? && Finished(Stages(r).s, Enforce).action == Allow
    requires r.piiEnabled && r.scanTexts.None? && r.redactParams.None? && ParamsOfBody(r)
    requires !PassesKey(p) && At(r.params, p) == Some(Str(t)) && t != Nil
    ensures t in Stages(r).s.given
  {
    assert StringAt(r.params, p, 0, None, false);
    StringsHas(r.params, 0, None, false, t);
    AllowedMeansRedacted(r, t);
  }

  /** A request that nothing loops, flags, refuses or objects to, and that has nothing but empty texts and
      containers below level 32, is allowed. */
  lemma OrdinaryAllowed(r: Request)
    requires r.body.Dict? && !Looping(r) && !Injected(r) && !r.scanTruncated && !Refused(r)
    requires forall p :: |p| > 32 ==> !TextAt(r.body, p)
    requires forall g <- r.guards :: g.answer.Verdict? && g.answer.action.Pass?
    ensures Stages(r).Reached? && Finished(Stages(r).s, Enforce).action == Allow
  {
    DeciderExactly(r);
    OutcomeExactly(r);
  }
}
