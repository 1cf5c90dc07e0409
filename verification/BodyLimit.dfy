/** `BodyLimitMiddleware`: 413 for a body over the limit, around an arbitrary application. */
module BodyLimit {
  import opened Texts

  // ----- An application, as the middleware sees it

  /** A message from the server: a part of the body, or another one (a disconnect). */
  datatype Incoming = BodyPart(size: nat) | OtherIncoming

  /** A message of the application: the start of its response, a part of it, or another kind. */
  datatype Outgoing = ResponseStart | ResponseBody(part: nat) | OtherOutgoing(kind: nat)

  /** What an application does: it receives (and gets the next message or an error) or sends. */
  datatype Action = Receive(incoming: Incoming) | Send(message: Outgoing)

  /** How it ends: `Raise` is an `Exception`, `Cancel` a `BaseException` that is none. */
  datatype End = Return | Raise | Cancel

  /** What reaches the client: a message of the application, or the middleware's own 413 response. */
  datatype Seen = FromApp(message: Outgoing) | TooLarge

  // ----- The closure variables, and one action of the application

  datatype State = State(received: nat, exceeded: bool, appStarted: bool, answered: bool, seen: seq<Seen>, handed: nat)

  function Received(s: State, m: Incoming, limit: int): State {
    match m
    case BodyPart(size) =>
      var received := s.received + size;
      if received > limit then s.(received := received, exceeded := true)
      else s.(received := received, handed := s.handed + size)
    case OtherIncoming => s
  }

  function Sent(s: State, m: Outgoing): State {
    if s.exceeded && !s.appStarted then (if s.answered then s else s.(answered := true, seen := s.seen + [TooLarge]))
    else s.(appStarted := s.appStarted || m.ResponseStart?, seen := s.seen + [FromApp(m)])
  }

  function Perform(s: State, a: Action, limit: int): State {
    match a case Receive(m) => Received(s, m, limit) case Send(m) => Sent(s, m)
  }

  function Run(s: State, actions: seq<Action>, limit: int): State
    decreases |actions|
  {
    if actions == [] then s else Run(Perform(s, actions[0], limit), actions[1..], limit)
  }

  const START := State(0, false, false, false, [], 0)

  datatype Outcome = Returned | Raised

  /** The end of the call: an exception after a refused read becomes the 413. */
  function Ended(s: State, end: End): (State, Outcome) {
    match end
    case Return => (s, Returned)
    case Cancel => (s, Raised)
    case Raise =>
      if !s.exceeded || s.appStarted then (s, Raised)
      else if s.answered then (s, Returned)
      else (s.(seen := s.seen + [TooLarge]), Returned)
  }

  // ----- The middleware, as it runs

  datatype Header = Header(isContentLength: bool, number: Option<int>)

  /** The first `Content-Length`, when it is a number. */
  function DeclaredLength(headers: seq<Header>): Option<int> {
    if headers == [] then None
    else if headers[0].isContentLength then headers[0].number
    else DeclaredLength(headers[1..])
  }

  method FindDeclaredLength(headers: seq<Header>) returns (length: Option<int>)
    ensures length == DeclaredLength(headers)
  {
    for i := 0 to |headers|
      invariant DeclaredLength(headers) == DeclaredLength(headers[i..])
    {
      assert headers[i..][1..] == headers[i + 1..];
      if headers[i].isContentLength { return headers[i].number; }
    }
    length := None;
  }

  class Exchange {
    var received: nat
    var exceeded: bool
    var appStarted: bool
    var answered: bool
    var seen: seq<Seen>
    ghost var handed: nat

    ghost function Now(): State
      reads this
    {
      State(received, exceeded, appStarted, answered, seen, handed)
    }

    constructor ()
      ensures Now() == START
    {
      received, exceeded, appStarted, answered, seen, handed := 0, false, false, false, [], 0;
    }

    /** `limited_receive`; `refused` is RequestBodyTooLarge. */
    method LimitedReceive(m: Incoming, limit: int) returns (refused: bool)
      modifies this
      ensures Now() == Received(old(Now()), m, limit)
      ensures refused <==> m.BodyPart? && old(received) + m.size > limit
    {
      if m.BodyPart? {
        received := received + m.size;
        if received > limit {
          exceeded := true;
          return true;
        }
        handed := handed + m.size;
      }
      refused := false;
    }

    /** `guarded_send`. */
    method GuardedSend(m: Outgoing)
      modifies this
      ensures Now() == Sent(old(Now()), m)
    {
      if exceeded && !appStarted {
        if !answered {
          answered := true;
          seen := seen + [TooLarge];
        }
        return;
      }
      if m.ResponseStart? { appStarted := true; }
      seen := seen + [FromApp(m)];
    }
  }

  /** The call: `actions` and `end` are what the application does, which may depend on what it received. */
  method Call(isHttp: bool, configured: int, headers: seq<Header>, actions: seq<Action>, end: End)
    returns (seen: seq<Seen>, outcome: Outcome)
    ensures seen == ClientSees(isHttp, configured, headers, actions, end)
    ensures outcome == CallEnds(isHttp, configured, headers, actions, end)
  {
    var limit := if isHttp then configured else 0;
    if limit <= 0 {
      seen := [];
      for i := 0 to |actions|
        invariant seen + Sends(actions[i..]) == Sends(actions)
      {
        assert actions[i..][1..] == actions[i + 1..];
        if actions[i].Send? { seen := seen + [FromApp(actions[i].message)]; }
      }
      return seen, if end.Return? then Returned else Raised;
    }
    var declared := FindDeclaredLength(headers);
    if declared.Some? && declared.value > limit { return [TooLarge], Returned; }
    var x := new Exchange();
    for i := 0 to |actions|
      invariant Run(x.Now(), actions[i..], limit) == Run(START, actions, limit)
    {
      assert actions[i..][1..] == actions[i + 1..];
      match actions[i] {
        case Receive(m) => var refused := x.LimitedReceive(m, limit);
        case Send(m) => x.GuardedSend(m);
      }
    }
    assert actions[|actions|..] == [];
    RunSeen(actions, limit);
    seen, outcome := x.seen, if end.Return? then Returned else Raised;
    if end.Raise? && x.exceeded && !x.appStarted {
      if !x.answered { seen := seen + [TooLarge]; }
      outcome := Returned;
    }
  }

  // ----- What the client sees, from the application's actions alone

  /** All messages the application sends. */
  function Sends(actions: seq<Action>): seq<Seen> {
    if actions == [] then []
    else (if actions[0].Send? then [FromApp(actions[0].message)] else []) + Sends(actions[1..])
  }

  /** The application starts its response. */
  predicate Starts(actions: seq<Action>) {
    actions != [] && (actions[0] == Send(ResponseStart) || Starts(actions[1..]))
  }

  /** A read that passes the limit, when `left` bytes are left. */
  predicate Passes(a: Action, left: int) { a.Receive? && a.incoming.BodyPart? && a.incoming.size > left }

  function Left(a: Action, left: int): int {
    if a.Receive? && a.incoming.BodyPart? then left - a.incoming.size else left
  }

  /** The actions before the read that passes the limit; all of them when none does. */
  function Early(actions: seq<Action>, left: int): seq<Action> {
    if actions == [] || Passes(actions[0], left) then [] else [actions[0]] + Early(actions[1..], Left(actions[0], left))
  }

  /** The read that passes the limit and the actions after it; none when no read does. */
  function Late(actions: seq<Action>, left: int): seq<Action> {
    if actions == [] || Passes(actions[0], left) then actions else Late(actions[1..], Left(actions[0], left))
  }

  lemma {:induction false} EarlyThenLate(actions: seq<Action>, left: int)
    ensures Early(actions, left) + Late(actions, left) == actions
  {
    if actions != [] && !Passes(actions[0], left) { EarlyThenLate(actions[1..], Left(actions[0], left)); }
  }

  /** The limit is passed before the application starts its response. */
  predicate RefusedEarly(actions: seq<Action>, limit: int) {
    Late(actions, limit) != [] && !Starts(Early(actions, limit))
  }

  /** After the limit is passed the application sends something, or it fails. */
  predicate Reacts(actions: seq<Action>, end: End, limit: int) { end.Raise? || Sends(Late(actions, limit)) != [] }

  function LimitedClientSees(actions: seq<Action>, end: End, limit: int): seq<Seen> {
    if !RefusedEarly(actions, limit) then Sends(actions)
    else Sends(Early(actions, limit)) + (if Reacts(actions, end, limit) then [TooLarge] else [])
  }

  predicate Limited(isHttp: bool, configured: int) { isHttp && configured > 0 }

  predicate DeclaredTooLarge(headers: seq<Header>, limit: int) {
    DeclaredLength(headers).Some? && DeclaredLength(headers).value > limit
  }

  function ClientSees(isHttp: bool, configured: int, headers: seq<Header>, actions: seq<Action>, end: End): seq<Seen> {
    if !Limited(isHttp, configured) then Sends(actions)
    else if DeclaredTooLarge(headers, configured) then [TooLarge]
    else LimitedClientSees(actions, end, configured)
  }

  function CallEnds(isHttp: bool, configured: int, headers: seq<Header>, actions: seq<Action>, end: End): Outcome {
    if Limited(isHttp, configured) && DeclaredTooLarge(headers, configured) then Returned
    else if Limited(isHttp, configured) && RefusedEarly(actions, configured) && end.Raise? then Returned
    else if end.Return? then Returned else Raised
  }

  lemma {:induction false} RunStarted(s: State, actions: seq<Action>, limit: int)
    requires s.appStarted
    ensures var f := Run(s, actions, limit);
            f.seen == s.seen + Sends(actions) && f.appStarted && f.answered == s.answered
    decreases |actions|
  {
    if actions != [] { RunStarted(Perform(s, actions[0], limit), actions[1..], limit); }
  }

  lemma {:induction false} RunRefused(s: State, actions: seq<Action>, limit: int)
    requires s.exceeded && !s.appStarted
    ensures var f := Run(s, actions, limit);
            && f.exceeded && !f.appStarted && f.answered == (s.answered || Sends(actions) != [])
            && f.seen == s.seen + (if !s.answered && Sends(actions) != [] then [TooLarge] else [])
    decreases |actions|
  {
    if actions != [] { RunRefused(Perform(s, actions[0], limit), actions[1..], limit); }
  }

  /** The end of a run that starts with `before` seen and `left` bytes left. */
  ghost predicate SeenFrom(before: seq<Seen>, f: State, actions: seq<Action>, left: int) {
    && ((f.exceeded && !f.appStarted) == RefusedEarly(actions, left))
    && f.answered == (RefusedEarly(actions, left) && Sends(Late(actions, left)) != [])
    && f.seen == before + LimitedClientSees(actions, Return, left)
  }

  lemma PrependSeen(before: seq<Seen>, first: seq<Seen>, a: seq<Seen>, b: seq<Seen>)
    ensures (before + first) + (a + b) == before + ((first + a) + b)
    ensures (before + first) + a == before + (first + a)
  {}

  lemma SeenFromStep(before: seq<Seen>, f: State, actions: seq<Action>, left: int)
    requires actions != [] && !Passes(actions[0], left) && actions[0] != Send(ResponseStart)
    requires SeenFrom(before + Sends([actions[0]]), f, actions[1..], Left(actions[0], left))
    ensures SeenFrom(before, f, actions, left)
  {
    var rest, next := actions[1..], Left(actions[0], left);
    var early := Early(rest, next);
    assert ([actions[0]] + early)[1..] == early;
    PrependSeen(before, Sends([actions[0]]), Sends(early), if f.answered then [TooLarge] else []);
    PrependSeen(before, Sends([actions[0]]), Sends(rest), []);
    assert Sends([actions[0]] + early) == Sends([actions[0]]) + Sends(early);
    assert Starts([actions[0]] + early) == Starts(early);
  }

  lemma StartedEarly(actions: seq<Action>, left: int)
    requires actions != [] && actions[0] == Send(ResponseStart)
    ensures !RefusedEarly(actions, left)
  {
    assert Early(actions, left)[0] == actions[0];
  }

  lemma RunRefusedNow(s: State, actions: seq<Action>, limit: int)
    requires !s.exceeded && !s.appStarted && !s.answered && actions != [] && Passes(actions[0], limit - s.received)
    ensures SeenFrom(s.seen, Run(s, actions, limit), actions, limit - s.received)
  {
    RunRefused(Perform(s, actions[0], limit), actions[1..], limit);
  }

  lemma RunStartedNow(s: State, actions: seq<Action>, limit: int)
    requires !s.exceeded && !s.appStarted && !s.answered && actions != [] && actions[0] == Send(ResponseStart)
    ensures SeenFrom(s.seen, Run(s, actions, limit), actions, limit - s.received)
  {
    StartedEarly(actions, limit - s.received);
    RunStarted(Perform(s, actions[0], limit), actions[1..], limit);
  }

  /** The run of an application that has neither started its response nor passed the limit. */
  lemma {:induction false} RunEarly(s: State, actions: seq<Action>, limit: int)
    requires !s.exceeded && !s.appStarted && !s.answered && s.received <= limit
    ensures SeenFrom(s.seen, Run(s, actions, limit), actions, limit - s.received)
    decreases |actions|
  {
    if actions != [] {
      if Passes(actions[0], limit - s.received) {
        RunRefusedNow(s, actions, limit);
      } else if actions[0] == Send(ResponseStart) {
        RunStartedNow(s, actions, limit);
      } else {
        RunEarly(Perform(s, actions[0], limit), actions[1..], limit);
        SeenFromStep(s.seen, Run(s, actions, limit), actions, limit - s.received);
      }
    }
  }

  lemma RunSeen(actions: seq<Action>, limit: int)
    requires limit > 0
    ensures var f := Run(START, actions, limit);
            && ((f.exceeded && !f.appStarted) == RefusedEarly(actions, limit))
            && f.answered == (RefusedEarly(actions, limit) && Sends(Late(actions, limit)) != [])
            && LimitedClientSees(actions, Raise, limit) == f.seen
               + (if RefusedEarly(actions, limit) && !f.answered && Reacts(actions, Raise, limit) then [TooLarge]
                  else [])
            && f.seen == LimitedClientSees(actions, Return, limit) == LimitedClientSees(actions, Cancel, limit)
  {
    RunEarly(START, actions, limit);
  }

  // ----- Main results

  /** The application is never handed more bytes than the limit, whatever it does. */
  lemma {:induction false} HandedWithinLimit(s: State, actions: seq<Action>, limit: int)
    requires s.handed <= limit && (if s.exceeded then s.received > limit else s.received == s.handed)
    ensures Run(s, actions, limit).handed <= limit
    decreases |actions|
  {
    if actions != [] { HandedWithinLimit(Perform(s, actions[0], limit), actions[1..], limit); }
  }

  function Count413(seen: seq<Seen>): nat {
    if seen == [] then 0 else (if seen[0].TooLarge? then 1 else 0) + Count413(seen[1..])
  }

  lemma {:induction false} Count413Cat(a: seq<Seen>, b: seq<Seen>)
    ensures Count413(a + b) == Count413(a) + Count413(b)
  {
    if a == [] { assert a + b == b; } else {
      assert (a + b)[1..] == a[1..] + b;
      Count413Cat(a[1..], b);
    }
  }

  lemma {:induction false} SendsAreTheApps(actions: seq<Action>)
    ensures Count413(Sends(actions)) == 0
  {
    if actions != [] {
      SendsAreTheApps(actions[1..]);
      Count413Cat(if actions[0].Send? then [FromApp(actions[0].message)] else [], Sends(actions[1..]));
    }
  }

  /** The client never sees two 413 responses, and sees exactly one when the declared length is over the
      limit, or when the limit is passed before the response starts and the application then sends or
      fails. */
  lemma At413Once(isHttp: bool, configured: int, headers: seq<Header>, actions: seq<Action>, end: End)
    ensures Count413(ClientSees(isHttp, configured, headers, actions, end)) ==
      if Limited(isHttp, configured)
         && (DeclaredTooLarge(headers, configured)
             || (RefusedEarly(actions, configured) && Reacts(actions, end, configured)))
      then 1 else 0
  {
    SendsAreTheApps(actions);
    SendsAreTheApps(Early(actions, configured));
    Count413Cat(Sends(Early(actions, configured)), [TooLarge]);
    assert Count413([TooLarge]) == 1;
    assert Sends(Early(actions, configured)) + [] == Sends(Early(actions, configured));
  }

  /** The client sees messages of the application and a 413. */
  predicate Mixed(seen: seq<Seen>) { 0 < Count413(seen) < |seen| }

  /** The 413 comes alone unless the application sent a message that does not start a response before the
      limit was passed: the middleware counts only `http.response.start` as a start. */
  lemma MixedExactly(isHttp: bool, configured: int, headers: seq<Header>, actions: seq<Action>, end: End)
    ensures Mixed(ClientSees(isHttp, configured, headers, actions, end)) <==>
      && Limited(isHttp, configured) && !DeclaredTooLarge(headers, configured)
      && RefusedEarly(actions, configured) && Reacts(actions, end, configured)
      && Sends(Early(actions, configured)) != []
  {
    var seen, early := ClientSees(isHttp, configured, headers, actions, end), Sends(Early(actions, configured));
    At413Once(isHttp, configured, headers, actions, end);
    if Limited(isHttp, configured) && DeclaredTooLarge(headers, configured) {
      assert |seen| == 1;
    } else if Limited(isHttp, configured) && RefusedEarly(actions, configured) && Reacts(actions, end, configured) {
      assert seen == early + [TooLarge] && |seen| == |early| + 1;
    }
  }

  /** The first message the application sends, as ASGI demands, starts its response. */
  predicate StartsFirst(actions: seq<Action>) {
    actions == [] || (if actions[0].Send? then actions[0].message.ResponseStart? else StartsFirst(actions[1..]))
  }

  lemma {:induction false} StartsFirstEarly(actions: seq<Action>, left: int)
    requires StartsFirst(actions) && Sends(Early(actions, left)) != []
    ensures Starts(Early(actions, left))
    decreases |actions|
  {
    if actions != [] && !Passes(actions[0], left) {
      assert Early(actions, left)[1..] == Early(actions[1..], Left(actions[0], left));
      if actions[0].Receive? { StartsFirstEarly(actions[1..], Left(actions[0], left)); }
    }
  }

  /** For such an application the client sees its messages or one 413, never both. */
  lemma NeverMixed(isHttp: bool, configured: int, headers: seq<Header>, actions: seq<Action>, end: End)
    requires StartsFirst(actions)
    ensures !Mixed(ClientSees(isHttp, configured, headers, actions, end))
  {
    MixedExactly(isHttp, configured, headers, actions, end);
    if Sends(Early(actions, configured)) != [] { StartsFirstEarly(actions, configured); }
  }

  /** Without that, both can reach the client. */
  lemma MixedExample()
    ensures var actions := [Send(OtherOutgoing(0)), Receive(BodyPart(11))];
            ClientSees(true, 10, [], actions, Raise) == [FromApp(OtherOutgoing(0)), TooLarge]
  {
    var actions := [Send(OtherOutgoing(0)), Receive(BodyPart(11))];
    assert actions[1..] == [Receive(BodyPart(11))];
    assert Early(actions, 10) == [Send(OtherOutgoing(0))];
    assert Late(actions, 10) == [Receive(BodyPart(11))];
  }

  // ----- The call by sizes, headers and ends alone

  /** The bytes of the body parts that are read. */
  function Bytes(actions: seq<Action>): nat {
    if actions == [] then 0
    else
      var last := actions[|actions| - 1];
      Bytes(actions[..|actions| - 1]) + (if last.Receive? && last.incoming.BodyPart? then last.incoming.size else 0)
  }

  lemma {:induction false} BytesCat(a: seq<Action>, b: seq<Action>)
    ensures Bytes(a + b) == Bytes(a) + Bytes(b)
    decreases |b|
  {
    if b == [] {
      assert a + b == a;
    } else {
      assert (a + b)[..|a + b| - 1] == a + b[..|b| - 1];
      BytesCat(a, b[..|b| - 1]);
    }
  }

  lemma BytesOne(a: Action)
    ensures Bytes([a]) == if a.Receive? && a.incoming.BodyPart? then a.incoming.size else 0
  {
    assert [a][..0] == [];
  }

  /** The early actions are those before the read with which the bytes first exceed the limit. */
  lemma {:induction false} EarlyExactly(actions: seq<Action>, left: int)
    requires left >= 0
    ensures var n := |Early(actions, left)|;
            && n <= |actions| && Early(actions, left) == actions[..n] && Late(actions, left) == actions[n..]
            && Bytes(actions[..n]) <= left && (n < |actions| ==> Bytes(actions[..n + 1]) > left)
    decreases |actions|
  {
    if actions != [] {
      var first, rest := actions[0], actions[1..];
      BytesOne(first);
      if Passes(first, left) {
        assert actions[..1] == [first];
      } else {
        EarlyExactly(rest, Left(first, left));
        var n := |Early(rest, Left(first, left))|;
        BytesCat([first], rest[..n]);
        assert actions[..n + 1] == [first] + rest[..n];
        if n < |rest| {
          BytesCat([first], rest[..n + 1]);
          assert actions[..n + 2] == [first] + rest[..n + 1];
        }
      }
    }
  }

  /** The first Content-Length is the number `n`. */
  predicate Declares(headers: seq<Header>, n: int) {
    exists i :: 0 <= i < |headers| && headers[i].isContentLength && headers[i].number == Some(n)
      && forall j :: 0 <= j < i ==> !headers[j].isContentLength
  }

  lemma {:induction false} DeclaredExactly(headers: seq<Header>, n: int)
    ensures DeclaredLength(headers) == Some(n) <==> Declares(headers, n)
  {
    if headers != [] {
      DeclaredExactly(headers[1..], n);
      if !headers[0].isContentLength {
        if Declares(headers[1..], n) {
          var i :| 0 <= i < |headers[1..]| && headers[1..][i].isContentLength && headers[1..][i].number == Some(n)
            && forall j :: 0 <= j < i ==> !headers[1..][j].isContentLength;
          assert headers[i + 1] == headers[1..][i];
          forall j | 0 <= j < i + 1 ensures !headers[j].isContentLength {
            if j > 0 { assert headers[j] == headers[1..][j - 1]; }
          }
        }
        if Declares(headers, n) {
          var i :| 0 <= i < |headers| && headers[i].isContentLength && headers[i].number == Some(n)
            && forall j :: 0 <= j < i ==> !headers[j].isContentLength;
          assert headers[1..][i - 1] == headers[i];
          forall j | 0 <= j < i - 1 ensures !headers[1..][j].isContentLength {
            assert headers[1..][j] == headers[j + 1];
          }
        }
      } else if headers[0].number == Some(n) {
        assert headers[0].isContentLength && Declares(headers, n);
      }
    }
  }

  /** The messages of the application, one after the other. */
  lemma {:induction false} SendsCat(a: seq<Action>, b: seq<Action>)
    ensures Sends(a + b) == Sends(a) + Sends(b)
  {
    if a == [] {
      assert a + b == b;
    } else {
      var first := if a[0].Send? then [FromApp(a[0].message)] else [];
      assert (a + b)[1..] == a[1..] + b && (a + b)[0] == a[0];
      SendsCat(a[1..], b);
      PrependSeen(first, Sends(a[1..]), Sends(b), []);
    }
  }

  lemma SendsOne(a: Action)
    ensures Sends([]) == [] && Sends([a]) == if a.Send? then [FromApp(a.message)] else []
  {
    assert [a][1..] == [];
  }

  /** The application starts its response before the bytes exceed the limit. */
  predicate StartsInTime(actions: seq<Action>, n: nat)
    requires n <= |actions|
  {
    exists i :: 0 <= i < n && actions[i] == Send(ResponseStart)
  }

  lemma {:induction false} StartsExactly(actions: seq<Action>)
    ensures Starts(actions) <==> exists i :: 0 <= i < |actions| && actions[i] == Send(ResponseStart)
  {
    if actions != [] {
      StartsExactly(actions[1..]);
      assert actions == [actions[0]] + actions[1..];
    }
  }

  /** Requests that are not counted: another protocol, or no limit. */
  lemma NotLimited(isHttp: bool, configured: int, headers: seq<Header>, actions: seq<Action>, end: End)
    requires !isHttp || configured <= 0
    ensures ClientSees(isHttp, configured, headers, actions, end) == Sends(actions)
    ensures CallEnds(isHttp, configured, headers, actions, end) == if end == Return then Returned else Raised
  {}

  /** A declared length over the limit is answered at once. */
  lemma DeclaredOver(configured: int, headers: seq<Header>, n: int, actions: seq<Action>, end: End)
    requires configured > 0 && Declares(headers, n) && n > configured
    ensures ClientSees(true, configured, headers, actions, end) == [TooLarge]
    ensures CallEnds(true, configured, headers, actions, end) == Returned
  {
    DeclaredExactly(headers, n);
  }

  /** Every other request, by the number `n` of actions before the bytes exceed the limit: all messages reach the
      client when they never do, or the response was started before; otherwise those before, and one 413 when the
      application then sends or fails. Its failure is swallowed then, and a cancellation never is. */
  lemma CountedExactly(configured: int, headers: seq<Header>, actions: seq<Action>, end: End, n: nat)
    requires configured > 0 && forall d :: Declares(headers, d) ==> d <= configured
    requires n <= |actions| && Bytes(actions[..n]) <= configured
    requires n < |actions| ==> Bytes(actions[..n + 1]) > configured
    ensures var seen := ClientSees(true, configured, headers, actions, end);
            var ends := CallEnds(true, configured, headers, actions, end);
            if n == |actions| || StartsInTime(actions, n) then
              seen == Sends(actions) && ends == (if end == Return then Returned else Raised)
            else
              && seen == Sends(actions[..n])
                   + (if end == Raise || Sends(actions[n..]) != [] then [TooLarge] else [])
              && ends == (if end == Cancel then Raised else Returned)
  {
    EarlyExactly(actions, configured);
    SameCount(actions, configured, n, |Early(actions, configured)|);
    StartsExactly(actions[..n]);
    if StartsInTime(actions, n) {
      var i :| 0 <= i < n && actions[i] == Send(ResponseStart);
      assert actions[..n][i] == actions[i];
    }
    if DeclaredLength(headers).Some? { DeclaredExactly(headers, DeclaredLength(headers).value); }
  }

  lemma {:induction false} BytesGrow(actions: seq<Action>, m: nat, n: nat)
    requires m <= n <= |actions|
    ensures Bytes(actions[..m]) <= Bytes(actions[..n])
  {
    assert actions[..n] == actions[..m] + actions[m..n];
    BytesCat(actions[..m], actions[m..n]);
  }

  lemma SameCount(actions: seq<Action>, limit: int, m: nat, n: nat)
    requires m <= |actions| && Bytes(actions[..m]) <= limit && (m < |actions| ==> Bytes(actions[..m + 1]) > limit)
    requires n <= |actions| && Bytes(actions[..n]) <= limit && (n < |actions| ==> Bytes(actions[..n + 1]) > limit)
    ensures m == n
  {
    if m < n { BytesGrow(actions, m + 1, n); }
    if n < m { BytesGrow(actions, n + 1, m); }
  }
}
