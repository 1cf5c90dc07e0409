/** `ForensicWriteProbe`: one cached, time-bounded write check of the forensic store at a time, shared by
    callers and check threads under a lock. */
module ForensicProbe {
  import opened Texts

  type Time = real

  /** What a check reports; None is "cannot tell". */
  type Answer = Option<bool>

  // ----- The fields, and the two sections that run with the lock held

  /** `_store`, `_result`, `_checked_at`, `_running` and `_started_at`; checks are numbered. */
  datatype Fields = Fields(store: Option<nat>, result: Answer, checkedAt: Option<Time>, running: Option<nat>,
    startedAt: Time)

  datatype Decision = Cached(answer: Answer) | TooLate(check: nat) | Wait(check: nat, deadline: Time)

  function Installed(f: Fields, store: nat): Fields {
    if f.store == Some(store) then f else f.(store := Some(store), checkedAt := None, running := None)
  }

  predicate Fresh(f: Fields, now: Time, interval: Time) { f.checkedAt.Some? && now - f.checkedAt.value < interval }

  /** The fields after the locked section of `check`; `next` is the number of the check it may start. */
  function Asked(f: Fields, store: nat, now: Time, next: nat, interval: Time): Fields {
    var g := Installed(f, store);
    if Fresh(g, now, interval) || g.running.Some? then g else g.(running := Some(next), startedAt := now)
  }

  function Decided(f: Fields, store: nat, now: Time, next: nat, interval: Time, timeout: Time): Decision {
    var g := Installed(f, store);
    if Fresh(g, now, interval) then Cached(g.result)
    else
      var a := Asked(f, store, now, next, interval);
      if timeout - (now - a.startedAt) <= 0.0 then TooLate(a.running.value)
      else Wait(a.running.value, a.startedAt + timeout)
  }

  /** The fields after the locked section of the thread of `check`. */
  function CheckFinished(f: Fields, check: nat, answer: Answer, now: Time): Fields {
    if f.running == Some(check) then f.(result := answer, checkedAt := Some(now), running := None) else f
  }

  class ForensicWriteProbe {
    const interval: Time
    const timeout: Time
    var store: Option<nat>
    var result: Answer
    var checkedAt: Option<Time>
    var running: Option<nat>
    var startedAt: Time

    ghost function Now(): Fields
      reads this
    {
      Fields(store, result, checkedAt, running, startedAt)
    }

    constructor (interval: Time, timeout: Time)
      ensures this.interval == interval && this.timeout == timeout
      ensures Now() == Fields(None, None, None, None, 0.0)
    {
      this.interval, this.timeout := interval, timeout;
      store, result, checkedAt, running, startedAt := None, None, None, None, 0.0;
    }

    /** The locked section of `check` for a store that has `writable()`. */
    method Check(asked: nat, now: Time, next: nat) returns (decision: Decision)
      modifies this
      ensures Now() == Asked(old(Now()), asked, now, next, interval)
      ensures decision == Decided(old(Now()), asked, now, next, interval, timeout)
    {
      if store != Some(asked) {
        store := Some(asked);
        checkedAt := None;
        running := None;
      }
      if checkedAt.Some? && now - checkedAt.value < interval { return Cached(result); }
      if running.None? {
        running := Some(next);
        startedAt := now;
      }
      var remaining := timeout - (now - startedAt);
      if remaining <= 0.0 { return TooLate(running.value); }
      decision := Wait(running.value, now + remaining);
    }

    /** The locked section of the thread of `check`. */
    method Finish(check: nat, answer: Answer, now: Time)
      modifies this
      ensures Now() == CheckFinished(old(Now()), check, answer, now)
      ensures old(running) != Some(check) ==> Now() == old(Now())
    {
      if running == Some(check) {
        result := answer;
        checkedAt := Some(now);
        running := None;
      }
    }
  }

  // ----- All interleavings of callers, threads, the clock and store swaps

  /** A check: what it probes, in which installation of that store, and when it ran. */
  datatype Run = Run(store: nat, installation: nat, startedAt: Time, finishedAt: Option<Time>, value: Answer,
    published: bool)

  /** A caller that waits for a check. */
  datatype Waiter = Waiter(store: nat, check: nat, deadline: Time, pending: bool)

  datatype Source = FromCache(check: nat, installation: nat) | FromCheck(check: nat) | TimedOut(check: nat) | NoWritable
  datatype Reply = Reply(store: nat, answer: Answer, at: Time, source: Source)

  /** `cachedFrom` is the check whose result is cached, when `checkedAt` is set. */
  datatype World = World(fields: Fields, now: Time, installation: nat, cachedFrom: nat,
                         runs: seq<Run>, waiters: seq<Waiter>, replies: seq<Reply>)

  datatype Event =
    | Ask(store: nat, writable: bool)
    | Finish(check: nat, value: Answer)
    | Publish(check: nat)
    | Deliver(waiter: nat)
    | Expire(waiter: nat)
    | Tick(time: Time)

  datatype Config = Config(interval: Time, timeout: Time)

  function Init(): World { World(Fields(None, None, None, None, 0.0), 0.0, 0, 0, [], [], []) }

  function ReplyTo(w: World, store: nat, answer: Answer, source: Source): World {
    w.(replies := w.replies + [Reply(store, answer, w.now, source)])
  }

  function AskStep(w: World, store: nat, c: Config): World {
    var fields := Asked(w.fields, store, w.now, |w.runs|, c.interval);
    var installation := if w.fields.store == Some(store) then w.installation else w.installation + 1;
    var started := fields.running == Some(|w.runs|);
    var runs := if started then w.runs + [Run(store, installation, w.now, None, None, false)] else w.runs;
    var next := w.(fields := fields, installation := installation, runs := runs);
    match Decided(w.fields, store, w.now, |w.runs|, c.interval, c.timeout)
    case Cached(answer) => ReplyTo(next, store, answer, FromCache(w.cachedFrom, installation))
    case TooLate(check) => ReplyTo(next, store, Some(false), TimedOut(check))
    case Wait(check, deadline) => next.(waiters := next.waiters + [Waiter(store, check, deadline, true)])
  }

  function FinishStep(w: World, check: nat, value: Answer): World
    requires check < |w.runs|
  {
    w.(fields := CheckFinished(w.fields, check, value, w.now),
       cachedFrom := if w.fields.running == Some(check) then check else w.cachedFrom,
       runs := w.runs[check := w.runs[check].(finishedAt := Some(w.now), value := value)])
  }

  function Answered(w: World, i: nat): World
    requires i < |w.waiters|
  {
    w.(waiters := w.waiters[i := w.waiters[i].(pending := false)])
  }

  predicate Waiting(w: World, i: nat) { i < |w.waiters| && w.waiters[i].pending && w.waiters[i].check < |w.runs| }

  /** One event; an event that cannot happen changes nothing. */
  function Step(w: World, e: Event, c: Config): World {
    match e
    case Ask(store, writable) => if writable then AskStep(w, store, c) else ReplyTo(w, store, None, NoWritable)
    case Finish(check, value) =>
      if check < |w.runs| && w.runs[check].finishedAt.None? then FinishStep(w, check, value) else w
    case Publish(check) =>
      if check < |w.runs| && w.runs[check].finishedAt.Some?
      then w.(runs := w.runs[check := w.runs[check].(published := true)]) else w
    case Deliver(i) =>
      if Waiting(w, i) && w.runs[w.waiters[i].check].published
      then ReplyTo(Answered(w, i), w.waiters[i].store, w.runs[w.waiters[i].check].value, FromCheck(w.waiters[i].check))
      else w
    case Expire(i) =>
      if Waiting(w, i) && w.now >= w.waiters[i].deadline
      then ReplyTo(Answered(w, i), w.waiters[i].store, Some(false), TimedOut(w.waiters[i].check)) else w
    case Tick(time) => if time >= w.now then w.(now := time) else w
  }

  function After(events: seq<Event>, c: Config): World {
    if events == [] then Init() else Step(After(events[..|events| - 1], c), events[|events| - 1], c)
  }

  // ----- What every run keeps

  /** The fields describe the current installation: `running` is its one check that has not finished,
      and the cached result is that of its last finished check. */
  ghost predicate FieldsAgree(w: World) {
    && (w.fields.running.Some? ==>
          var r := w.fields.running.value;
          r < |w.runs| && w.fields.store == Some(w.runs[r].store) && w.runs[r].installation == w.installation
          && w.runs[r].finishedAt.None? && w.runs[r].startedAt == w.fields.startedAt)
    && (w.fields.checkedAt.Some? ==>
          w.cachedFrom < |w.runs| && w.runs[w.cachedFrom].finishedAt == w.fields.checkedAt
          && w.runs[w.cachedFrom].value == w.fields.result && w.runs[w.cachedFrom].installation == w.installation
          && w.fields.store == Some(w.runs[w.cachedFrom].store))
    && (forall i :: 0 <= i < |w.runs| ==> RunAgrees(w, w.runs[i], i))
  }

  ghost predicate RunAgrees(w: World, r: Run, i: nat) {
    && r.installation <= w.installation && r.startedAt <= w.now
    && (r.finishedAt.Some? ==> r.startedAt <= r.finishedAt.value <= w.now)
    && (r.published ==> r.finishedAt.Some?)
    && (r.installation == w.installation ==>
          if r.finishedAt.None? then w.fields.running == Some(i)
          else w.fields.checkedAt.Some? && r.finishedAt.value <= w.fields.checkedAt.value)
  }

  /** Two checks of one installation: the later starts at least `interval` after the earlier finished. */
  ghost predicate Spaced(a: Run, b: Run, c: Config) {
    a.installation == b.installation ==> a.finishedAt.Some? && b.startedAt - a.finishedAt.value >= c.interval
  }

  ghost predicate RunsSpaced(w: World, c: Config) {
    forall i, j :: 0 <= i < j < |w.runs| ==> Spaced(w.runs[i], w.runs[j], c)
  }

  ghost predicate WaiterAgrees(w: World, v: Waiter, c: Config) {
    v.check < |w.runs| && w.runs[v.check].store == v.store && v.deadline == w.runs[v.check].startedAt + c.timeout
  }

  /** A reply that is not a time-out is the result of a finished check of the store that was asked
      about; from the cache it is younger than `interval`; a time-out comes `timeout` after the start. */
  ghost predicate ReplyAgrees(w: World, r: Reply, c: Config) {
    match r.source
    case FromCache(check, installation) =>
      check < |w.runs| && w.runs[check].store == r.store && w.runs[check].installation == installation
      && w.runs[check].finishedAt.Some? && w.runs[check].value == r.answer
      && w.runs[check].finishedAt.value <= r.at < w.runs[check].finishedAt.value + c.interval
    case FromCheck(check) =>
      check < |w.runs| && w.runs[check].store == r.store && w.runs[check].finishedAt.Some?
        && w.runs[check].value == r.answer
    case TimedOut(check) =>
      check < |w.runs| && w.runs[check].store == r.store && r.answer == Some(false)
        && r.at >= w.runs[check].startedAt + c.timeout
    case NoWritable => r.answer == None
  }

  ghost predicate Sound(w: World, c: Config) {
    && FieldsAgree(w) && RunsSpaced(w, c)
    && (forall i :: 0 <= i < |w.waiters| ==> WaiterAgrees(w, w.waiters[i], c))
    && (forall i :: 0 <= i < |w.replies| ==> ReplyAgrees(w, w.replies[i], c))
  }

  /** The section starts a check only when the fields hold no fresh result and no running check. */
  predicate Starts(w: World, store: nat, c: Config) {
    var g := Installed(w.fields, store);
    !Fresh(g, w.now, c.interval) && g.running.None?
  }

  lemma AskRuns(w: World, store: nat, c: Config)
    requires FieldsAgree(w)
    ensures var next := AskStep(w, store, c);
            && next.runs
              == (if Starts(w, store, c) then w.runs + [Run(store, next.installation, w.now, None, None, false)]
                else w.runs)
            && next.fields == Asked(w.fields, store, w.now, |w.runs|, c.interval)
            && next.installation == (if w.fields.store == Some(store) then w.installation else w.installation + 1)
            && next.now == w.now && next.cachedFrom == w.cachedFrom
  {}

  lemma AskFields(w: World, store: nat, c: Config)
    requires FieldsAgree(w)
    ensures FieldsAgree(AskStep(w, store, c))
  {
    var next := AskStep(w, store, c);
    AskRuns(w, store, c);
    forall i | 0 <= i < |next.runs| ensures RunAgrees(next, next.runs[i], i) {
      if i < |w.runs| { assert RunAgrees(w, w.runs[i], i); }
    }
  }

  lemma AskSpaced(w: World, store: nat, c: Config)
    requires FieldsAgree(w) && RunsSpaced(w, c)
    ensures RunsSpaced(AskStep(w, store, c), c)
  {
    var next := AskStep(w, store, c);
    AskRuns(w, store, c);
    forall i, j | 0 <= i < j < |next.runs| ensures Spaced(next.runs[i], next.runs[j], c) {
      assert RunAgrees(w, w.runs[i], i);
      if j < |w.runs| { assert Spaced(w.runs[i], w.runs[j], c); }
    }
  }

  lemma AskReplies(w: World, store: nat, c: Config)
    requires Sound(w, c) && FieldsAgree(AskStep(w, store, c))
    ensures var next := AskStep(w, store, c);
            && (forall i :: 0 <= i < |next.waiters| ==> WaiterAgrees(next, next.waiters[i], c))
            && (forall i :: 0 <= i < |next.replies| ==> ReplyAgrees(next, next.replies[i], c))
  {
    var next := AskStep(w, store, c);
    AskRuns(w, store, c);
    forall i | 0 <= i < |w.waiters| ensures WaiterAgrees(next, w.waiters[i], c) {
      assert WaiterAgrees(w, w.waiters[i], c);
    }
    forall i | 0 <= i < |w.replies| ensures ReplyAgrees(next, w.replies[i], c) {
      assert ReplyAgrees(w, w.replies[i], c);
    }
    if w.fields.checkedAt.Some? { assert RunAgrees(w, w.runs[w.cachedFrom], w.cachedFrom); }
  }

  lemma AskKeeps(w: World, store: nat, c: Config)
    requires Sound(w, c)
    ensures Sound(AskStep(w, store, c), c)
  {
    AskFields(w, store, c);
    AskSpaced(w, store, c);
    AskReplies(w, store, c);
  }

  lemma FinishKeeps(w: World, check: nat, value: Answer, c: Config)
    requires Sound(w, c) && check < |w.runs| && w.runs[check].finishedAt.None?
    ensures Sound(FinishStep(w, check, value), c)
  {
    var next := FinishStep(w, check, value);
    forall i | 0 <= i < |next.runs| ensures RunAgrees(next, next.runs[i], i) { assert RunAgrees(w, w.runs[i], i); }
    forall i, j | 0 <= i < j < |next.runs| ensures Spaced(next.runs[i], next.runs[j], c) {
      assert Spaced(w.runs[i], w.runs[j], c);
    }
    forall i | 0 <= i < |next.waiters| ensures WaiterAgrees(next, next.waiters[i], c) {
      assert WaiterAgrees(w, w.waiters[i], c);
    }
    forall i | 0 <= i < |next.replies| ensures ReplyAgrees(next, next.replies[i], c) {
      assert ReplyAgrees(w, w.replies[i], c);
    }
  }

  lemma PublishKeeps(w: World, check: nat, c: Config)
    requires Sound(w, c)
    ensures Sound(Step(w, Publish(check), c), c)
  {
    var next := Step(w, Publish(check), c);
    forall i | 0 <= i < |next.runs| ensures RunAgrees(next, next.runs[i], i) { assert RunAgrees(w, w.runs[i], i); }
    forall i, j | 0 <= i < j < |next.runs| ensures Spaced(next.runs[i], next.runs[j], c) {
      assert Spaced(w.runs[i], w.runs[j], c);
    }
    forall i | 0 <= i < |next.waiters| ensures WaiterAgrees(next, next.waiters[i], c) {
      assert WaiterAgrees(w, w.waiters[i], c);
    }
    forall i | 0 <= i < |next.replies| ensures ReplyAgrees(next, next.replies[i], c) {
      assert ReplyAgrees(w, w.replies[i], c);
    }
  }

  /** A waiter that is answered. */
  lemma AnswerKeeps(w: World, next: World, i: nat, c: Config)
    requires Sound(w, c) && i < |w.waiters|
    requires next == w.(waiters := w.waiters[i := w.waiters[i].(pending := false)], replies := next.replies)
    requires |next.replies| == |w.replies| + 1 && w.replies <= next.replies
      && ReplyAgrees(w, next.replies[|w.replies|], c)
    ensures Sound(next, c)
  {
    forall j | 0 <= j < |next.runs| ensures RunAgrees(next, next.runs[j], j) { assert RunAgrees(w, w.runs[j], j); }
    forall j | 0 <= j < |next.waiters| ensures WaiterAgrees(next, next.waiters[j], c) {
      assert WaiterAgrees(w, w.waiters[j], c);
    }
    forall j | 0 <= j < |next.replies| ensures ReplyAgrees(next, next.replies[j], c) {
      if j < |w.replies| { assert ReplyAgrees(w, w.replies[j], c); }
    }
  }

  lemma TickKeeps(w: World, time: Time, c: Config)
    requires Sound(w, c)
    ensures Sound(Step(w, Tick(time), c), c)
  {
    var next := Step(w, Tick(time), c);
    forall i | 0 <= i < |next.runs| ensures RunAgrees(next, next.runs[i], i) { assert RunAgrees(w, w.runs[i], i); }
    forall i | 0 <= i < |next.waiters| ensures WaiterAgrees(next, next.waiters[i], c) {
      assert WaiterAgrees(w, w.waiters[i], c);
    }
    forall i | 0 <= i < |next.replies| ensures ReplyAgrees(next, next.replies[i], c) {
      assert ReplyAgrees(w, w.replies[i], c);
    }
  }

  lemma NoWritableKeeps(w: World, store: nat, c: Config)
    requires Sound(w, c)
    ensures Sound(ReplyTo(w, store, None, NoWritable), c)
  {
    var next := ReplyTo(w, store, None, NoWritable);
    forall i | 0 <= i < |next.runs| ensures RunAgrees(next, next.runs[i], i) { assert RunAgrees(w, w.runs[i], i); }
    forall i | 0 <= i < |next.waiters| ensures WaiterAgrees(next, next.waiters[i], c) {
      assert WaiterAgrees(w, w.waiters[i], c);
    }
    forall i | 0 <= i < |next.replies| ensures ReplyAgrees(next, next.replies[i], c) {
      if i < |w.replies| { assert ReplyAgrees(w, w.replies[i], c); }
    }
  }

  /** The invariant of every step. */
  lemma StepKeeps(w: World, e: Event, c: Config)
    requires Sound(w, c)
    ensures Sound(Step(w, e, c), c)
  {
    match e
    case Ask(store, writable) => if writable { AskKeeps(w, store, c); } else { NoWritableKeeps(w, store, c); }
    case Finish(check, value) =>
      if check < |w.runs| && w.runs[check].finishedAt.None? { FinishKeeps(w, check, value, c); }
    case Publish(check) => PublishKeeps(w, check, c);
    case Deliver(i) =>
      if Waiting(w, i) && w.runs[w.waiters[i].check].published {
        assert WaiterAgrees(w, w.waiters[i], c) && RunAgrees(w, w.runs[w.waiters[i].check], w.waiters[i].check);
        AnswerKeeps(w, Step(w, e, c), i, c);
      }
    case Expire(i) =>
      if Waiting(w, i) && w.now >= w.waiters[i].deadline {
        assert WaiterAgrees(w, w.waiters[i], c);
        AnswerKeeps(w, Step(w, e, c), i, c);
      }
    case Tick(time) => TickKeeps(w, time, c);
  }

  /** Every interleaving is sound. */
  lemma {:induction false} EveryRunSound(events: seq<Event>, c: Config)
    ensures Sound(After(events, c), c)
  {
    if events != [] {
      EveryRunSound(events[..|events| - 1], c);
      StepKeeps(After(events[..|events| - 1], c), events[|events| - 1], c);
    }
  }

  // ----- Main results

  /** Within one installation of a store, checks never overlap, and the next one starts at least
      `interval` after the one before finished. */
  lemma ChecksSpaced(events: seq<Event>, c: Config, i: nat, j: nat)
    requires var runs := After(events, c).runs;
             i < j < |runs| && runs[i].installation == runs[j].installation
    ensures var runs := After(events, c).runs;
            runs[i].finishedAt.Some? && runs[j].startedAt >= runs[i].finishedAt.value + c.interval
  {
    EveryRunSound(events, c);
    assert Spaced(After(events, c).runs[i], After(events, c).runs[j], c);
  }

  /** Every answer is what `ReplyAgrees` says of its source. */
  lemma AnswersComeFromChecks(events: seq<Event>, c: Config, i: nat)
    requires i < |After(events, c).replies|
    ensures ReplyAgrees(After(events, c), After(events, c).replies[i], c)
  {
    EveryRunSound(events, c);
  }

  /** A thread of an earlier installation does not touch the result, whenever it finishes. */
  lemma StaleThreadChangesNothing(events: seq<Event>, c: Config, check: nat, value: Answer)
    requires var w := After(events, c); check < |w.runs| && w.runs[check].installation < w.installation
    ensures Step(After(events, c), Finish(check, value), c).fields == After(events, c).fields
  {
    EveryRunSound(events, c);
  }

  function Pending(waiters: seq<Waiter>): nat {
    if waiters == [] then 0
    else Pending(waiters[..|waiters| - 1]) + (if waiters[|waiters| - 1].pending then 1 else 0)
  }

  lemma {:induction false} PendingAnswered(waiters: seq<Waiter>, i: nat)
    requires i < |waiters| && waiters[i].pending
    ensures Pending(waiters[i := waiters[i].(pending := false)]) == Pending(waiters) - 1
  {
    var next := waiters[i := waiters[i].(pending := false)];
    var last := |waiters| - 1;
    if i == last {
      assert next[..last] == waiters[..last];
    } else {
      PendingAnswered(waiters[..last], i);
      assert next[..last] == waiters[..last][i := waiters[i].(pending := false)];
    }
  }

  function Asks(events: seq<Event>): nat {
    if events == [] then 0 else Asks(events[..|events| - 1]) + (if events[|events| - 1].Ask? then 1 else 0)
  }

  lemma AskAnsweredOrWaiting(w: World, store: nat, c: Config)
    ensures var next := AskStep(w, store, c);
            |next.replies| + Pending(next.waiters) == |w.replies| + Pending(w.waiters) + 1
  {
    var next := AskStep(w, store, c);
    if Decided(w.fields, store, w.now, |w.runs|, c.interval, c.timeout).Wait? {
      assert next.waiters[..|w.waiters|] == w.waiters;
    }
  }

  lemma AnswerMovesOne(w: World, e: Event, c: Config)
    requires !e.Ask?
    ensures |Step(w, e, c).replies| + Pending(Step(w, e, c).waiters) == |w.replies| + Pending(w.waiters)
  {
    match e
    case Deliver(i) => if Waiting(w, i) { PendingAnswered(w.waiters, i); }
    case Expire(i) => if Waiting(w, i) { PendingAnswered(w.waiters, i); }
    case _ =>
  }

  /** Every call is answered at most once: the answers and the callers still waiting are the calls. */
  lemma {:induction false} CallsAnsweredOnce(events: seq<Event>, c: Config)
    ensures var w := After(events, c); |w.replies| + Pending(w.waiters) == Asks(events)
  {
    if events != [] {
      var w, e := After(events[..|events| - 1], c), events[|events| - 1];
      CallsAnsweredOnce(events[..|events| - 1], c);
      if !e.Ask? { AnswerMovesOne(w, e, c); }
      else if e.writable { AskAnsweredOrWaiting(w, e.store, c); }
    }
  }

  // ----- What one call gets

  /** What a caller gets, from the fields alone: the cached result of its own store when that is younger than
      `interval`; else the check of its store that runs, or the one it starts, until `timeout` after that began. */
  lemma AskExactly(f: Fields, store: nat, now: Time, next: nat, interval: Time, timeout: Time)
    ensures var same := f.store == Some(store);
            var cached := same && f.checkedAt.Some? && f.checkedAt.value + interval > now;
            var joins := same && !cached && f.running.Some?;
            var g, d := Asked(f, store, now, next, interval), Decided(f, store, now, next, interval, timeout);
            && g.store == Some(store) && g.result == f.result
            && g.checkedAt == (if same then f.checkedAt else None)
            && (cached ==> d == Cached(f.result) && g.running == f.running && g.startedAt == f.startedAt)
            && (joins ==>
                  && g.running == f.running && g.startedAt == f.startedAt
                  && d == if now < f.startedAt + timeout then Wait(f.running.value, f.startedAt + timeout)
                          else TooLate(f.running.value))
            && (!cached && !joins ==>
                  && g.running == Some(next) && g.startedAt == now
                  && d == if timeout > 0.0 then Wait(next, now + timeout) else TooLate(next))
  {}

  /** The thread of the current check leaves its result, and only that thread does. */
  lemma FinishExactly(f: Fields, check: nat, answer: Answer, now: Time)
    ensures var g := CheckFinished(f, check, answer, now);
            if f.running == Some(check) then
              g.store == f.store && g.result == answer && g.checkedAt == Some(now) && g.running == None
            else g == f
  {}
}
