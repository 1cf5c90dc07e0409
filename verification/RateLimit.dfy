/** The fixed-window rate limits of `/mcp`: INCR, EXPIRE and the comparison of many requests, interleaved. */
module RateLimit {
  type Key = nat

  /** A Redis counter: its value, whether it expires, and which lifetime of its key this is. */
  datatype Cell = Cell(count: nat, expires: bool, lifetime: nat)

  /** One use of a limit by one request. `count` is what INCR returned in `lifetime` of the key. */
  datatype Status = Counted | Expiring | Passed | Refused
  datatype Ticket = Ticket(key: Key, limit: int, lifetime: nat, count: nat, status: Status)

  /** `lifetimes` counts the lifetimes of a key that have ended. */
  datatype World = World(cells: map<Key, Cell>, lifetimes: map<Key, nat>, tickets: seq<Ticket>)

  function Ended(w: World, key: Key): nat { if key in w.lifetimes then w.lifetimes[key] else 0 }

  datatype Event =
    | Incr(key: Key, limit: int)
    | Expire(ticket: nat, succeeds: bool)
    | Compare(ticket: nat)
    | Lapse(key: Key)

  /** The value of a key that INCR creates or increments. */
  function Incremented(w: World, key: Key): Cell {
    if key in w.cells then w.cells[key].(count := w.cells[key].count + 1) else Cell(1, false, Ended(w, key))
  }

  function IncrStep(w: World, key: Key, limit: int): World {
    var cell := Incremented(w, key);
    var status := if cell.count == 1 then Expiring else Counted;
    w.(cells := w.cells[key := cell], tickets := w.tickets + [Ticket(key, limit, cell.lifetime, cell.count, status)])
  }

  function WithStatus(w: World, i: nat, status: Status): World
    requires i < |w.tickets|
  {
    w.(tickets := w.tickets[i := w.tickets[i].(status := status)])
  }

  /** EXPIRE of the request that created the key. When it raises, the comparison is skipped and the
      request passes; on a key that lapsed meanwhile it does nothing. */
  function ExpireStep(w: World, i: nat, succeeds: bool): World
    requires i < |w.tickets|
  {
    var key := w.tickets[i].key;
    if !succeeds then WithStatus(w, i, Passed)
    else if key !in w.cells then WithStatus(w, i, Counted)
    else WithStatus(w.(cells := w.cells[key := w.cells[key].(expires := true)]), i, Counted)
  }

  /** One atomic operation of one request, or the expiry of a key; an event that cannot happen changes
      nothing. A request whose INCR raises uses no ticket. */
  function Step(w: World, e: Event): World {
    match e
    case Incr(key, limit) => IncrStep(w, key, limit)
    case Expire(i, succeeds) =>
      if i < |w.tickets| && w.tickets[i].status.Expiring? then ExpireStep(w, i, succeeds) else w
    case Compare(i) =>
      if i < |w.tickets| && w.tickets[i].status.Counted?
      then WithStatus(w, i, if w.tickets[i].count > w.tickets[i].limit then Refused else Passed) else w
    case Lapse(key) =>
      if key in w.cells && w.cells[key].expires
      then w.(cells := w.cells - {key}, lifetimes := w.lifetimes[key := Ended(w, key) + 1]) else w
  }

  function After(events: seq<Event>): World {
    if events == [] then World(map[], map[], []) else Step(After(events[..|events| - 1]), events[|events| - 1])
  }

  // ----- What every interleaving keeps

  /** A ticket holds a count that its lifetime of the key has reached. */
  ghost predicate TicketAgrees(w: World, t: Ticket) {
    && t.count >= 1 && t.lifetime <= Ended(w, t.key)
    && (t.lifetime == Ended(w, t.key) ==> t.key in w.cells && t.count <= w.cells[t.key].count)
    && (t.status.Passed? ==> t.count <= t.limit || t.count == 1)
    && (t.status.Refused? ==> t.count > t.limit)
    && (t.status.Expiring? ==> t.count == 1 && t.lifetime == Ended(w, t.key) && !w.cells[t.key].expires)
  }

  ghost predicate SameLifetime(a: Ticket, b: Ticket) { a.key == b.key && a.lifetime == b.lifetime }

  ghost predicate Sound(w: World) {
    && (forall k :: k in w.cells ==> w.cells[k].lifetime == Ended(w, k) && w.cells[k].count >= 1)
    && (forall i :: 0 <= i < |w.tickets| ==> TicketAgrees(w, w.tickets[i]))
    && (forall i, j :: 0 <= i < j < |w.tickets| && SameLifetime(w.tickets[i], w.tickets[j])
          ==> w.tickets[i].count < w.tickets[j].count)
  }

  lemma IncrKeeps(w: World, key: Key, limit: int)
    requires Sound(w)
    ensures Sound(IncrStep(w, key, limit))
  {
    var next := IncrStep(w, key, limit);
    forall i | 0 <= i < |next.tickets| ensures TicketAgrees(next, next.tickets[i]) {
      if i < |w.tickets| { assert TicketAgrees(w, w.tickets[i]); }
    }
    forall i | 0 <= i < |w.tickets| && SameLifetime(w.tickets[i], next.tickets[|w.tickets|])
      ensures w.tickets[i].count < next.tickets[|w.tickets|].count
    {
      assert TicketAgrees(w, w.tickets[i]);
    }
  }

  /** The tickets of `next` are those of `w`, each with its count. */
  ghost predicate SameTickets(w: World, next: World) {
    |next.tickets| == |w.tickets|
    && forall i :: 0 <= i < |w.tickets| ==> next.tickets[i] == w.tickets[i].(status := next.tickets[i].status)
  }

  lemma CountsKept(w: World, next: World)
    requires Sound(w) && SameTickets(w, next)
    requires forall k :: k in next.cells ==> next.cells[k].lifetime == Ended(next, k) && next.cells[k].count >= 1
    requires forall i :: 0 <= i < |next.tickets| ==> TicketAgrees(next, next.tickets[i])
    ensures Sound(next)
  {
    forall i, j | 0 <= i < j < |next.tickets| && SameLifetime(next.tickets[i], next.tickets[j])
      ensures next.tickets[i].count < next.tickets[j].count
    {
      assert SameLifetime(w.tickets[i], w.tickets[j]);
    }
  }

  /** At most one EXPIRE is pending for a key. */
  lemma OneExpiring(w: World, i: nat, j: nat)
    requires Sound(w) && i < |w.tickets| && j < |w.tickets| && i != j
    requires w.tickets[i].status.Expiring? && w.tickets[j].status.Expiring?
    ensures w.tickets[i].key != w.tickets[j].key
  {
    assert TicketAgrees(w, w.tickets[i]) && TicketAgrees(w, w.tickets[j]);
    if w.tickets[i].key == w.tickets[j].key {
      assert SameLifetime(w.tickets[i], w.tickets[j]) && SameLifetime(w.tickets[j], w.tickets[i]);
    }
  }

  lemma ExpireKeeps(w: World, i: nat, succeeds: bool)
    requires Sound(w) && i < |w.tickets| && w.tickets[i].status.Expiring?
    ensures Sound(ExpireStep(w, i, succeeds))
  {
    var next := ExpireStep(w, i, succeeds);
    forall j | 0 <= j < |next.tickets| ensures TicketAgrees(next, next.tickets[j]) {
      assert TicketAgrees(w, w.tickets[i]) && TicketAgrees(w, w.tickets[j]);
      if j != i && next.tickets[j].status.Expiring? { OneExpiring(w, i, j); }
    }
    CountsKept(w, next);
  }

  lemma CompareKeeps(w: World, i: nat)
    requires Sound(w)
    ensures Sound(Step(w, Compare(i)))
  {
    var next := Step(w, Compare(i));
    forall j | 0 <= j < |next.tickets| ensures TicketAgrees(next, next.tickets[j]) {
      assert TicketAgrees(w, w.tickets[j]);
    }
    CountsKept(w, next);
  }

  lemma LapseKeeps(w: World, key: Key)
    requires Sound(w)
    ensures Sound(Step(w, Lapse(key)))
  {
    var next := Step(w, Lapse(key));
    forall j | 0 <= j < |next.tickets| ensures TicketAgrees(next, next.tickets[j]) {
      assert TicketAgrees(w, w.tickets[j]);
    }
    CountsKept(w, next);
  }

  lemma StepKeeps(w: World, e: Event)
    requires Sound(w)
    ensures Sound(Step(w, e))
  {
    match e
    case Incr(key, limit) => IncrKeeps(w, key, limit);
    case Expire(i, succeeds) => if i < |w.tickets| && w.tickets[i].status.Expiring? { ExpireKeeps(w, i, succeeds); }
    case Compare(i) => CompareKeeps(w, i);
    case Lapse(key) => LapseKeeps(w, key);
  }

  lemma {:induction false} EveryRunSound(events: seq<Event>)
    ensures Sound(After(events))
  {
    if events != [] {
      EveryRunSound(events[..|events| - 1]);
      StepKeeps(After(events[..|events| - 1]), events[|events| - 1]);
    }
  }

  // ----- A count is a rank

  /** The tickets of one lifetime of a key. */
  function CountIn(tickets: seq<Ticket>, key: Key, lifetime: nat): nat {
    if tickets == [] then 0
    else
      var last := tickets[|tickets| - 1];
      CountIn(tickets[..|tickets| - 1], key, lifetime) + (if last.key == key && last.lifetime == lifetime then 1 else 0)
  }

  lemma {:induction false} NoneAhead(tickets: seq<Ticket>, key: Key, lifetime: nat)
    requires forall i :: 0 <= i < |tickets| && tickets[i].key == key ==> tickets[i].lifetime < lifetime
    ensures CountIn(tickets, key, lifetime) == 0
  {
    if tickets != [] { NoneAhead(tickets[..|tickets| - 1], key, lifetime); }
  }

  /** A new status does not change the number. */
  lemma {:induction false} StatusIrrelevant(tickets: seq<Ticket>, i: nat, status: Status, key: Key, lifetime: nat)
    requires i < |tickets|
    ensures CountIn(tickets[i := tickets[i].(status := status)], key, lifetime) == CountIn(tickets, key, lifetime)
  {
    var next, n := tickets[i := tickets[i].(status := status)], |tickets| - 1;
    if i == n {
      assert next[..n] == tickets[..n];
    } else {
      assert next[..n] == tickets[..n][i := tickets[i].(status := status)];
      StatusIrrelevant(tickets[..n], i, status, key, lifetime);
    }
  }

  /** The tickets after a step: one more, or one with a new status, or the same. */
  lemma StepTickets(w: World, e: Event, key: Key, lifetime: nat)
    ensures CountIn(Step(w, e).tickets, key, lifetime) == CountIn(w.tickets, key, lifetime)
      + if e.Incr? && e.key == key && Incremented(w, key).lifetime == lifetime then 1 else 0
  {
    match e
    case Incr(k, limit) => assert Step(w, e).tickets[..|w.tickets|] == w.tickets;
    case Expire(i, succeeds) =>
      if i < |w.tickets| && w.tickets[i].status.Expiring? {
        StatusIrrelevant(w.tickets, i, if succeeds then Counted else Passed, key, lifetime);
      }
    case Compare(i) =>
      if i < |w.tickets| && w.tickets[i].status.Counted? {
        var status := if w.tickets[i].count > w.tickets[i].limit then Refused else Passed;
        StatusIrrelevant(w.tickets, i, status, key, lifetime);
      }
    case Lapse(_) =>
  }

  function CellCount(w: World, key: Key): nat { if key in w.cells then w.cells[key].count else 0 }

  lemma LapsedIsZero(w: World, key: Key, lapsed: Key)
    requires Sound(w) && CellCount(w, key) == CountIn(w.tickets, key, Ended(w, key))
    ensures var next := Step(w, Lapse(lapsed)); CellCount(next, key) == CountIn(next.tickets, key, Ended(next, key))
  {
    forall i | 0 <= i < |w.tickets| && w.tickets[i].key == key ensures w.tickets[i].lifetime < Ended(w, key) + 1 {
      assert TicketAgrees(w, w.tickets[i]);
    }
    NoneAhead(w.tickets, key, Ended(w, key) + 1);
  }

  lemma CellStep(w: World, e: Event, key: Key)
    requires Sound(w) && !e.Lapse?
    ensures Ended(Step(w, e), key) == Ended(w, key)
    ensures CellCount(Step(w, e), key) == CellCount(w, key) + if e.Incr? && e.key == key then 1 else 0
    ensures Incremented(w, key).lifetime == Ended(w, key)
  {}

  /** The value of a key is the number of requests that counted in its lifetime. */
  lemma {:induction false} CellIsCount(events: seq<Event>, key: Key)
    ensures var w := After(events); CellCount(w, key) == CountIn(w.tickets, key, Ended(w, key))
  {
    if events != [] {
      var w, e := After(events[..|events| - 1]), events[|events| - 1];
      CellIsCount(events[..|events| - 1], key);
      EveryRunSound(events[..|events| - 1]);
      if e.Lapse? {
        LapsedIsZero(w, key, e.key);
      } else {
        CellStep(w, e, key);
        StepTickets(w, e, key, Ended(w, key));
      }
    }
  }

  /** What INCR returned to a request is its place among the requests of that lifetime. */
  lemma {:induction false} CountIsRank(events: seq<Event>, i: nat)
    requires i < |After(events).tickets|
    ensures var t := After(events).tickets; t[i].count == 1 + CountIn(t[..i], t[i].key, t[i].lifetime)
  {
    var before, e := events[..|events| - 1], events[|events| - 1];
    var w, t := After(before), After(events).tickets;
    if i < |w.tickets| {
      CountIsRank(before, i);
      EarlierKept(w, e, i);
    } else {
      CellIsCount(before, e.key);
      EveryRunSound(before);
      assert t[..i] == w.tickets;
    }
  }

  lemma EarlierKept(w: World, e: Event, i: nat)
    requires i < |w.tickets|
    ensures var t := Step(w, e).tickets;
            && i < |t| && t[i].key == w.tickets[i].key && t[i].lifetime == w.tickets[i].lifetime
              && t[i].count == w.tickets[i].count
            && CountIn(t[..i], t[i].key, t[i].lifetime) == CountIn(w.tickets[..i], t[i].key, t[i].lifetime)
  {
    var t := Step(w, e).tickets;
    if e.Incr? {
      assert t[..i] == w.tickets[..i];
    } else if (e.Expire? || e.Compare?) && e.ticket < i {
      assert t[..i] == w.tickets[..i][e.ticket := w.tickets[e.ticket].(status := t[e.ticket].status)];
      StatusIrrelevant(w.tickets[..i], e.ticket, t[e.ticket].status, t[i].key, t[i].lifetime);
    } else {
      assert t[..i] == w.tickets[..i];
    }
  }

  // ----- Main results: who passes

  /** EXPIRE raised for this ticket, so its comparison was skipped. */
  predicate ExpireFailed(events: seq<Event>, i: nat) {
    events != [] && (
      ExpireFailed(events[..|events| - 1], i)
      || (events[|events| - 1] == Expire(i, false) && i < |After(events[..|events| - 1]).tickets|
          && After(events[..|events| - 1]).tickets[i].status.Expiring?))
  }

  /** A comparison was made for this ticket. */
  predicate Compared(events: seq<Event>, i: nat) {
    events != [] && (
      Compared(events[..|events| - 1], i)
      || (events[|events| - 1] == Compare(i) && i < |After(events[..|events| - 1]).tickets|
          && After(events[..|events| - 1]).tickets[i].status.Counted?))
  }

  /** A request passes exactly when it is compared and among the first `limit` of its lifetime, or it
      created the key and its EXPIRE failed; it is refused exactly when it is compared and at least
      `limit` others counted before it in that lifetime. */
  lemma {:induction false} PassesExactly(events: seq<Event>, i: nat)
    requires i < |After(events).tickets|
    ensures var t := After(events).tickets;
            var others := CountIn(t[..i], t[i].key, t[i].lifetime);
            && (t[i].status.Passed? <==> ExpireFailed(events, i) || (Compared(events, i) && others < t[i].limit))
            && (t[i].status.Refused? <==> Compared(events, i) && others >= t[i].limit)
            && (ExpireFailed(events, i) ==> others == 0 && !Compared(events, i))
  {
    CountIsRank(events, i);
    StatusExactly(events, i);
  }

  /** An event concerns only tickets there are. */
  lemma {:induction false} NoTicketYet(events: seq<Event>, i: nat)
    requires i >= |After(events).tickets|
    ensures !ExpireFailed(events, i) && !Compared(events, i)
  {
    if events != [] { NoTicketYet(events[..|events| - 1], i); }
  }

  /** How one event changes the status of a ticket. */
  lemma StatusStep(w: World, e: Event, i: nat)
    requires i < |w.tickets|
    ensures var t := w.tickets[i];
            i < |Step(w, e).tickets| && Step(w, e).tickets[i] ==
              if t.status.Expiring? && e == Expire(i, false) then t.(status := Passed)
              else if t.status.Expiring? && e == Expire(i, true) then t.(status := Counted)
              else if t.status.Counted? && e == Compare(i) then
                t.(status := if t.count > t.limit then Refused else Passed)
              else t
  {}

  lemma {:induction false} StatusExactly(events: seq<Event>, i: nat)
    requires i < |After(events).tickets|
    ensures var t := After(events).tickets[i];
            && (t.status.Passed? <==> ExpireFailed(events, i) || (Compared(events, i) && t.count <= t.limit))
            && (t.status.Refused? <==> Compared(events, i) && t.count > t.limit)
            && (ExpireFailed(events, i) ==> t.count == 1 && !Compared(events, i))
  {
    var before, e := events[..|events| - 1], events[|events| - 1];
    var w := After(before);
    if i < |w.tickets| {
      StatusExactly(before, i);
      EveryRunSound(before);
      assert TicketAgrees(w, w.tickets[i]);
      StatusStep(w, e, i);
    } else {
      NoTicketYet(before, i);
    }
  }

  lemma {:induction false} FindRank(tickets: seq<Ticket>, key: Key, lifetime: nat, c: nat) returns (j: nat)
    requires 1 <= c <= CountIn(tickets, key, lifetime)
    ensures j < |tickets| && tickets[j].key == key && tickets[j].lifetime == lifetime
    ensures CountIn(tickets[..j], key, lifetime) == c - 1
  {
    var n := |tickets| - 1;
    if c <= CountIn(tickets[..n], key, lifetime) {
      j := FindRank(tickets[..n], key, lifetime, c);
      assert tickets[..n][..j] == tickets[..j];
    } else {
      j := n;
    }
  }

  /** Every count up to that of a ticket was returned to a request before it in the same lifetime. */
  lemma EveryCountHeld(events: seq<Event>, i: nat, c: nat) returns (j: nat)
    requires i < |After(events).tickets| && 1 <= c < After(events).tickets[i].count
    ensures var t := After(events).tickets; j < i && SameLifetime(t[j], t[i]) && t[j].count == c
  {
    var t := After(events).tickets;
    CountIsRank(events, i);
    j := FindRank(t[..i], t[i].key, t[i].lifetime, c);
    assert t[..i][..j] == t[..j];
    CountIsRank(events, j);
  }

  /** A request is refused only when at least `limit` others counted before it in the same lifetime. */
  lemma RefusedOverLimit(events: seq<Event>, i: nat)
    requires i < |After(events).tickets| && After(events).tickets[i].status.Refused?
    ensures var t := After(events).tickets;
            t[i].count > t[i].limit && CountIn(t[..i], t[i].key, t[i].lifetime) >= t[i].limit
  {
    PassesExactly(events, i);
    CountIsRank(events, i);
  }

  /** The tickets of one limit that passed in one lifetime of a key. */
  function PassedIn(w: World, key: Key, lifetime: nat, limit: int): set<nat> {
    set i: nat | i < |w.tickets| && w.tickets[i].key == key && w.tickets[i].lifetime == lifetime
                 && w.tickets[i].limit == limit && w.tickets[i].status.Passed?
  }

  /** Indices whose tickets have pairwise different counts between 1 and `n` are at most `n`. */
  lemma {:induction false} DistinctCounts(tickets: seq<Ticket>, s: set<nat>, n: nat)
    requires forall i :: i in s ==> i < |tickets| && 1 <= tickets[i].count <= n
    requires forall i, j :: i in s && j in s && i < j ==> tickets[i].count != tickets[j].count
    ensures |s| <= n
    decreases n
  {
    if n == 0 {
      assert s == {};
    } else if top :| top in s && tickets[top].count == n {
      var rest := s - {top};
      DistinctCounts(tickets, rest, n - 1);
      assert s == rest + {top};
    } else {
      DistinctCounts(tickets, s, n - 1);
    }
  }

  /** However the requests interleave, at most `limit` of those that count on a key with that limit pass
      in one lifetime of the key; under a limit of 0 or less, which a multiplier of 0 or less gives, one. */
  lemma AtMostLimitPass(events: seq<Event>, key: Key, lifetime: nat, limit: int)
    ensures |PassedIn(After(events), key, lifetime, limit)| <= if limit >= 1 then limit else 1
  {
    var w := After(events);
    var most := if limit >= 1 then limit else 1;
    EveryRunSound(events);
    var s := PassedIn(w, key, lifetime, limit);
    forall i, j | i in s && j in s && i < j ensures w.tickets[i].count != w.tickets[j].count {
      assert SameLifetime(w.tickets[i], w.tickets[j]);
    }
    forall i | i in s ensures 1 <= w.tickets[i].count <= most { assert TicketAgrees(w, w.tickets[i]); }
    DistinctCounts(w.tickets, s, most);
  }

  /** Under a limit of 0 or less a request passes exactly when it created the key and its EXPIRE failed. */
  lemma NoLimitPassesExactly(events: seq<Event>, i: nat)
    requires i < |After(events).tickets| && After(events).tickets[i].limit <= 0
    ensures After(events).tickets[i].status.Passed? <==> ExpireFailed(events, i)
    ensures ExpireFailed(events, i) ==> After(events).tickets[i].count == 1
  {
    PassesExactly(events, i);
    StatusExactly(events, i);
  }

  lemma AfterTwo(a: Event, b: Event)
    ensures After([a, b]) == Step(Step(World(map[], map[], []), a), b)
  {
    assert [a, b][..1] == [a] && [a][..0] == [];
    assert After([a]) == Step(After([]), a);
  }

  /** One request passes under the limit 0. */
  lemma ZeroLimitExample()
    ensures PassedIn(After([Incr(0, 0), Expire(0, false)]), 0, 0, 0) == {0}
  {
    AfterTwo(Incr(0, 0), Expire(0, false));
  }

  // ----- Main results: when a key can expire

  /** The key does not expire, and no EXPIRE is pending for it. */
  ghost predicate Stuck(w: World, key: Key) {
    && key in w.cells && !w.cells[key].expires
    && forall i :: 0 <= i < |w.tickets| && w.tickets[i].key == key ==> !w.tickets[i].status.Expiring?
  }

  /** A key is stuck as soon as the EXPIRE of its first request fails. */
  lemma FailedExpireSticks(events: seq<Event>, i: nat)
    requires i < |After(events).tickets| && After(events).tickets[i].status.Expiring?
    ensures Stuck(Step(After(events), Expire(i, false)), After(events).tickets[i].key)
  {
    var w := After(events);
    EveryRunSound(events);
    assert TicketAgrees(w, w.tickets[i]);
    forall j | 0 <= j < |w.tickets| && j != i && w.tickets[j].key == w.tickets[i].key
      ensures !w.tickets[j].status.Expiring?
    {
      if w.tickets[j].status.Expiring? { OneExpiring(w, i, j); }
    }
  }

  lemma StuckExample(limit: int)
    ensures Stuck(After([Incr(0, limit), Expire(0, false)]), 0)
  {
    AfterTwo(Incr(0, limit), Expire(0, false));
  }

  lemma StuckStep(w: World, e: Event, key: Key)
    requires Sound(w) && Stuck(w, key)
    ensures var next := Step(w, e);
            && Stuck(next, key) && next.cells[key].count >= w.cells[key].count && Ended(next, key) == Ended(w, key)
  {
    var next := Step(w, e);
    forall i | 0 <= i < |next.tickets| && next.tickets[i].key == key ensures !next.tickets[i].status.Expiring? {
      if i < |w.tickets| { assert TicketAgrees(w, w.tickets[i]); }
    }
  }

  lemma AfterOne(events: seq<Event>, e: Event)
    ensures After(events + [e]) == Step(After(events), e)
  {
    var all := events + [e];
    assert all[..|all| - 1] == events;
  }

  lemma SplitLast<T>(a: seq<T>, b: seq<T>)
    requires b != []
    ensures a + b == (a + b[..|b| - 1]) + [b[|b| - 1]]
  {}

  lemma AfterMore(events: seq<Event>, more: seq<Event>)
    requires more != []
    ensures After(events + more) == Step(After(events + more[..|more| - 1]), more[|more| - 1])
  {
    SplitLast(events, more);
    AfterOne(events + more[..|more| - 1], more[|more| - 1]);
  }

  /** A stuck key stays in its lifetime, its count never falling, whatever happens afterwards. */
  lemma {:induction false} StuckForever(events: seq<Event>, more: seq<Event>, key: Key)
    requires Stuck(After(events), key)
    ensures var w, next := After(events), After(events + more);
            Stuck(next, key) && next.cells[key].count >= w.cells[key].count && Ended(next, key) == Ended(w, key)
    decreases |more|
  {
    if more == [] {
      assert events + more == events;
    } else {
      StuckForever(events, more[..|more| - 1], key);
      EveryRunSound(events + more[..|more| - 1]);
      AfterMore(events, more);
      StuckStep(After(events + more[..|more| - 1]), more[|more| - 1], key);
    }
  }

  /** The lifetime of the key ends within `more`. */
  predicate LapsesWithin(events: seq<Event>, more: seq<Event>, key: Key) {
    Ended(After(events + more), key) > Ended(After(events), key)
  }

  /** A live key can still lapse exactly when it expires already, or the EXPIRE of its first request is
      pending. */
  lemma CanLapseExactly(events: seq<Event>, key: Key)
    requires key in After(events).cells
    ensures var w := After(events);
            (exists more :: LapsesWithin(events, more, key)) <==>
              || w.cells[key].expires
              || exists i ::
                   0 <= i < |w.tickets| && w.tickets[i].key == key && w.tickets[i].status.Expiring?
  {
    var w := After(events);
    if w.cells[key].expires {
      AfterOne(events, Lapse(key));
      assert LapsesWithin(events, [Lapse(key)], key);
    } else if i :| 0 <= i < |w.tickets| && w.tickets[i].key == key && w.tickets[i].status.Expiring? {
      var first, both := [Expire(i, true)], [Expire(i, true), Lapse(key)];
      AfterOne(events, Expire(i, true));
      AfterMore(events, both);
      assert both[..1] == first;
      assert LapsesWithin(events, both, key);
    } else {
      forall more ensures !LapsesWithin(events, more, key) { StuckForever(events, more, key); }
    }
  }

  // ----- What each event does to a key, and to the requests

  predicate Live(w: World, key: Key) { key in w.cells }

  /** The EXPIRE of a pending ticket of this key. */
  predicate ExpiresNow(w: World, e: Event, key: Key) {
    e.Expire? && e.succeeds && e.ticket < |w.tickets| && w.tickets[e.ticket].key == key
    && w.tickets[e.ticket].status.Expiring?
  }

  predicate LapsesNow(w: World, e: Event, key: Key) { e == Lapse(key) && Live(w, key) && w.cells[key].expires }

  /** A key is created by its first INCR and counts the others; only its EXPIRE makes it expire, no INCR does or
      undoes it; only an expiring key lapses. */
  lemma KeyStep(w: World, e: Event, key: Key)
    requires Sound(w)
    ensures var next := Step(w, e);
            && (Live(next, key) <==> (Live(w, key) && !LapsesNow(w, e, key)) || (e.Incr? && e.key == key))
            && (Live(next, key) ==>
                  && next.cells[key].count
                       == (if Live(w, key) then w.cells[key].count else 0) + (if e.Incr? && e.key == key then 1 else 0)
                  && (next.cells[key].expires <==> Live(w, key) && (w.cells[key].expires || ExpiresNow(w, e, key))))
  {
    if e.Expire? && e.ticket < |w.tickets| { assert TicketAgrees(w, w.tickets[e.ticket]); }
  }

  /** A request that counts gets a ticket of its own; it has to set the expiry exactly when it created the key. */
  lemma NewTicket(w: World, key: Key, limit: int)
    requires Sound(w)
    ensures var next := Step(w, Incr(key, limit));
            && |next.tickets| == |w.tickets| + 1 && next.tickets[..|w.tickets|] == w.tickets
            && var t := next.tickets[|w.tickets|];
               && t.key == key && t.limit == limit && t.lifetime == Ended(w, key)
               && t.count == (if Live(w, key) then w.cells[key].count else 0) + 1
               && t.status == if Live(w, key) then Counted else Expiring
  {}

  /** Only an INCR adds a ticket. */
  lemma NoOtherTicket(w: World, e: Event)
    requires !e.Incr?
    ensures |Step(w, e).tickets| == |w.tickets|
  {}
}
