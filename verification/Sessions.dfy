/** The session store of the admin UI: expiry, logout, and lookups that read and then remove. */
module Sessions {
  import opened Wrappers

  datatype User = User(username: string, principal: string)

  type Id = string

  /** Moments of a monotone clock. */
  type Instant = nat

  datatype Record = Record(user: User, password: Option<string>, capabilities: set<string>, csrfToken: string,
                           expiresAt: Instant)

  predicate IsExpired(record: Record, now: Instant) {
    now >= record.expiresAt
  }

  /** `now.checked_add(ttl).unwrap_or(now)`, where `latest` is the last moment the clock can represent. */
  function ExpiryOf(now: Instant, ttl: nat, latest: Instant): Instant {
    if now + ttl <= latest then now + ttl else now
  }

  /** What a create asks for. */
  datatype Request = Request(user: User, password: Option<string>, capabilities: set<string>, csrfToken: string)

  function MakeRecord(request: Request, now: Instant, ttl: nat, latest: Instant): Record {
    Record(request.user, request.password, request.capabilities, request.csrfToken, ExpiryOf(now, ttl, latest))
  }

  type Table = map<Id, Record>

  /** The records that are not expired at `now`. */
  function Retained(sessions: Table, now: Instant): Table {
    map id | id in sessions && !IsExpired(sessions[id], now) :: sessions[id]
  }

  /** The store itself. Each method is one critical section of the lock. */
  class SessionStore {
    const ttl: nat
    const latest: Instant
    var sessions: Table

    constructor (ttl: nat, latest: Instant)
      ensures this.ttl == ttl && this.latest == latest && sessions == map[]
    {
      this.ttl, this.latest, sessions := ttl, latest, map[];
    }

    /** The locked part of `create_record`, with the moment read before the lock. */
    method CreateRecord(id: Id, now: Instant, request: Request)
      modifies this
      ensures sessions == Retained(old(sessions), now)[id := MakeRecord(request, now, ttl, latest)]
      ensures forall other :: other in sessions && other != id ==> !IsExpired(sessions[other], now)
    {
      var record := MakeRecord(request, now, ttl, latest);
      sessions := Retained(sessions, now);
      sessions := sessions[id := record];
    }

    /** The read of `get`. */
    method Read(id: Id) returns (record: Option<Record>)
      ensures record == if id in sessions then Some(sessions[id]) else None
    {
      record := if id in sessions then Some(sessions[id]) else None;
    }

    /** `remove`, and the write of `get`. */
    method Remove(id: Id) returns (removed: bool)
      modifies this
      ensures removed == (id in old(sessions)) && sessions == old(sessions) - {id}
    {
      removed := id in sessions;
      sessions := sessions - {id};
    }

    /** `get` when nothing runs between its read and its write. */
    method Get(id: Id, now: Instant) returns (record: Option<Record>)
      modifies this
      ensures record == if id in old(sessions) && !IsExpired(old(sessions)[id], now) then Some(old(sessions)[id])
                        else None
      ensures sessions == if record.None? then old(sessions) - {id} else old(sessions)
    {
      record := Read(id);
      if record.Some? && IsExpired(record.value, now) {
        var _ := Remove(id);
        record := None;
      } else {
        assert record.None? ==> sessions == sessions - {id};
      }
    }
  }

  // ----- Interleavings

  /** A create that has its id and its moment, and waits for the lock. */
  datatype Creating = Creating(id: Id, now: Instant, record: Record)

  /** A lookup that waits to read, or that read an expired record and waits to remove it. */
  datatype Looking = Began(id: Id, now: Instant) | FoundExpired(id: Id, now: Instant)

  datatype State = State(ttl: nat, latest: Instant, sessions: Table, clock: Instant, used: set<Id>,
                         creating: map<nat, Creating>, looking: map<nat, Looking>)

  datatype Event =
    | Tick(later: Instant)
    | BeginCreate(call: nat, id: Id, request: Request)
    | CommitCreate(call: nat)
    | BeginLookup(call: nat, id: Id)
    | ReadLookup(call: nat)
    | RemoveLookup(call: nat)
    | Logout(id: Id)

  function Initial(ttl: nat, latest: Instant, clock: Instant): State {
    State(ttl, latest, map[], clock, {}, map[], map[])
  }

  /** What can happen next: the clock never goes back, and a new session id was never used before. */
  predicate Enabled(s: State, e: Event) {
    match e
    case Tick(later) => later >= s.clock
    case BeginCreate(call, id, _) => call !in s.creating && id !in s.used
    case CommitCreate(call) => call in s.creating
    case BeginLookup(call, id) => call !in s.looking
    case ReadLookup(call) => call in s.looking && s.looking[call].Began?
    case RemoveLookup(call) => call in s.looking && s.looking[call].FoundExpired?
    case Logout(_) => true
  }

  function Next(s: State, e: Event): State
    requires Enabled(s, e)
  {
    match e
    case Tick(later) => s.(clock := later)
    case BeginCreate(call, id, request) =>
      var record := MakeRecord(request, s.clock, s.ttl, s.latest);
      s.(used := s.used + {id}, creating := s.creating[call := Creating(id, s.clock, record)])
    case CommitCreate(call) =>
      var c := s.creating[call];
      s.(sessions := Retained(s.sessions, c.now)[c.id := c.record], creating := s.creating - {call})
    case BeginLookup(call, id) => s.(looking := s.looking[call := Began(id, s.clock)])
    case ReadLookup(call) =>
      var l := s.looking[call];
      if l.id in s.sessions && IsExpired(s.sessions[l.id], l.now) then
        s.(looking := s.looking[call := FoundExpired(l.id, l.now)])
      else s.(looking := s.looking - {call})
    case RemoveLookup(call) =>
      s.(sessions := s.sessions - {s.looking[call].id}, looking := s.looking - {call})
    case Logout(id) => s.(sessions := s.sessions - {id})
  }

  /** What the read of a lookup returns to its caller, if it returns a record. */
  function Reply(s: State, call: nat): Option<Record>
    requires Enabled(s, ReadLookup(call))
  {
    var l := s.looking[call];
    if l.id in s.sessions && !IsExpired(s.sessions[l.id], l.now) then Some(s.sessions[l.id]) else None
  }

  /**
    One step on a store that holds what the state says: the store then holds what the next state says,
    and a read gives its caller the reply.
   */
  method Perform(store: SessionStore, s: State, e: Event) returns (reply: Option<Record>)
    requires Inv(s) && Enabled(s, e)
    requires store.sessions == s.sessions && store.ttl == s.ttl && store.latest == s.latest
    modifies store
    ensures store.sessions == Next(s, e).sessions
    ensures reply == if e.ReadLookup? then Reply(s, e.call) else None
  {
    reply := None;
    match e
    case Tick(_) =>
    case BeginCreate(_, _, _) =>
    case BeginLookup(_, _) =>
    case CommitCreate(call) =>
      var c := s.creating[call];
      assert CreatingOk(s, call);
      store.CreateRecord(c.id, c.now, RequestOf(c.record));
    case ReadLookup(call) =>
      var found := store.Read(s.looking[call].id);
      if found.Some? && !IsExpired(found.value, s.looking[call].now) {
        reply := found;
      }
    case RemoveLookup(call) =>
      var _ := store.Remove(s.looking[call].id);
    case Logout(id) =>
      var _ := store.Remove(id);
  }

  function RequestOf(record: Record): Request {
    Request(record.user, record.password, record.capabilities, record.csrfToken)
  }

  /** The record of a create is the one that its request and its moment make. */
  predicate Requested(s: State, c: Creating) {
    c.record == MakeRecord(RequestOf(c.record), c.now, s.ttl, s.latest)
  }

  // ----- What every step keeps

  ghost predicate Inv(s: State) {
    && (forall id :: id in s.sessions ==> id in s.used)
    && (forall call :: call in s.creating ==> CreatingOk(s, call))
    && (forall a, b :: a in s.creating && b in s.creating && a != b ==> s.creating[a].id != s.creating[b].id)
    && (forall call :: call in s.looking ==> LookingOk(s, s.looking[call]))
  }

  ghost predicate CreatingOk(s: State, call: nat)
    requires call in s.creating
  {
    var c := s.creating[call];
    c.id in s.used && c.id !in s.sessions && c.now <= s.clock && Requested(s, c)
  }

  ghost predicate LookingOk(s: State, l: Looking) {
    && l.now <= s.clock
    && (l.FoundExpired? ==>
          && l.id in s.used
          && (l.id in s.sessions ==> IsExpired(s.sessions[l.id], l.now))
          && forall call :: call in s.creating ==> s.creating[call].id != l.id)
  }

  lemma {:induction false} StepKeepsInv(s: State, e: Event)
    requires Inv(s) && Enabled(s, e)
    ensures Inv(Next(s, e))
  {
    var t := Next(s, e);
    forall call | call in t.looking
      ensures LookingOk(t, t.looking[call])
    {
      if call in s.looking {
        assert LookingOk(s, s.looking[call]);
      }
    }
    forall call | call in t.creating
      ensures CreatingOk(t, call)
    {
      if call in s.creating {
        assert CreatingOk(s, call);
      }
    }
  }

  /** Why a record may leave the store. */
  predicate MayLeave(s: State, e: Event, id: Id)
    requires id in s.sessions
  {
    e == Logout(id) || IsExpired(s.sessions[id], s.clock)
  }

  /** One step: a record leaves only by logout or after its expiry, and none is replaced or revived. */
  lemma {:induction false} StepIsSafe(s: State, e: Event, id: Id)
    requires Inv(s) && Enabled(s, e)
    ensures id in s.sessions && id !in Next(s, e).sessions ==> MayLeave(s, e, id)
    ensures id in s.sessions && id in Next(s, e).sessions ==> Next(s, e).sessions[id] == s.sessions[id]
    ensures id in s.used && id !in s.sessions && (forall call :: call in s.creating ==> s.creating[call].id != id)
            ==> id !in Next(s, e).sessions
    ensures s.clock <= Next(s, e).clock && s.used <= Next(s, e).used
  {
    if e.RemoveLookup? {
      assert LookingOk(s, s.looking[e.call]);
    } else if e.CommitCreate? {
      assert CreatingOk(s, e.call);
    }
  }

  // ----- Whole runs

  predicate Runs(s: State, events: seq<Event>)
    decreases |events|
  {
    events == [] || (Enabled(s, events[0]) && Runs(Next(s, events[0]), events[1..]))
  }

  function After(s: State, events: seq<Event>): State
    requires Runs(s, events)
    decreases |events|
  {
    if events == [] then s else After(Next(s, events[0]), events[1..])
  }

  lemma {:induction false} RunKeepsInv(s: State, events: seq<Event>)
    requires Inv(s) && Runs(s, events)
    ensures Inv(After(s, events)) && s.clock <= After(s, events).clock && s.used <= After(s, events).used
    decreases |events|
  {
    if events != [] {
      StepKeepsInv(s, events[0]);
      StepIsSafe(s, events[0], "");
      RunKeepsInv(Next(s, events[0]), events[1..]);
    }
  }

  /** The id was used, and nothing that could still store it is under way. */
  ghost predicate Gone(s: State, id: Id) {
    id in s.used && id !in s.sessions && forall call :: call in s.creating ==> s.creating[call].id != id
  }

  /** An id that left the store never comes back, in any run. */
  lemma {:induction false} GoneStaysGone(s: State, events: seq<Event>, id: Id)
    requires Inv(s) && Runs(s, events) && Gone(s, id)
    ensures Gone(After(s, events), id)
    decreases |events|
  {
    if events != [] {
      StepKeepsInv(s, events[0]);
      StepIsSafe(s, events[0], id);
      GoneStaysGone(Next(s, events[0]), events[1..], id);
    }
  }

  lemma StoredIsNotCreating(s: State, e: Event, id: Id)
    requires Inv(s) && Enabled(s, e) && id in s.sessions && id !in Next(s, e).sessions
    ensures Gone(Next(s, e), id)
  {
    forall call | call in Next(s, e).creating
      ensures Next(s, e).creating[call].id != id
    {
      if call in s.creating {
        assert CreatingOk(s, call);
      }
    }
  }

  /**
    Over every interleaving: a stored record is never replaced, it leaves only if its id was logged
    out or its expiry has passed, and then its id stays out.
   */
  lemma {:induction false} RunIsSafe(s: State, events: seq<Event>, id: Id)
    requires Inv(s) && Runs(s, events) && id in s.sessions
    ensures var t := After(s, events);
            if id in t.sessions then t.sessions[id] == s.sessions[id]
            else (Logout(id) in events || IsExpired(s.sessions[id], t.clock)) && Gone(t, id)
    decreases |events|
  {
    if events != [] {
      var e, t := events[0], Next(s, events[0]);
      StepKeepsInv(s, e);
      StepIsSafe(s, e, id);
      RunKeepsInv(t, events[1..]);
      if id in t.sessions {
        RunIsSafe(t, events[1..], id);
        assert Logout(id) in events[1..] ==> Logout(id) in events;
      } else {
        StoredIsNotCreating(s, e, id);
        GoneStaysGone(t, events[1..], id);
      }
    }
  }

  lemma {:induction false} LookupWaits(s: State, events: seq<Event>, call: nat)
    requires Runs(s, events) && call in s.looking && s.looking[call].Began?
    requires ReadLookup(call) !in events
    ensures call in After(s, events).looking && After(s, events).looking[call] == s.looking[call]
    decreases |events|
  {
    if events != [] {
      assert events[0] != ReadLookup(call);
      LookupWaits(Next(s, events[0]), events[1..], call);
    }
  }

  /**
    A whole lookup, with anything between its start and its read: it returns exactly a record that is
    stored at the read and was not expired when the lookup began.
   */
  lemma {:induction false} LookupReturns(s: State, call: nat, id: Id, between: seq<Event>)
    requires Inv(s) && Enabled(s, BeginLookup(call, id))
    requires Runs(Next(s, BeginLookup(call, id)), between) && ReadLookup(call) !in between
    ensures var t := After(Next(s, BeginLookup(call, id)), between);
            && Enabled(t, ReadLookup(call))
            && (forall r :: Reply(t, call) == Some(r) <==>
                  id in t.sessions && r == t.sessions[id] && !IsExpired(r, s.clock))
            && (id in s.sessions && Logout(id) !in between && !IsExpired(s.sessions[id], t.clock)
                ==> Reply(t, call) == Some(s.sessions[id]))
  {
    var began := Next(s, BeginLookup(call, id));
    LookupWaits(began, between, call);
    StepKeepsInv(s, BeginLookup(call, id));
    RunKeepsInv(began, between);
    if id in s.sessions {
      RunIsSafe(began, between, id);
    }
  }

  /** Every state that a store can get into satisfies the invariant. */
  lemma {:induction false} ReachableInv(ttl: nat, latest: Instant, clock: Instant, events: seq<Event>)
    requires Runs(Initial(ttl, latest, clock), events)
    ensures Inv(After(Initial(ttl, latest, clock), events))
  {
    RunKeepsInv(Initial(ttl, latest, clock), events);
  }

  // ----- A session from its create to its end

  lemma {:induction false} CreateWaits(s: State, events: seq<Event>, call: nat)
    requires Runs(s, events) && call in s.creating && CommitCreate(call) !in events
    ensures call in After(s, events).creating && After(s, events).creating[call] == s.creating[call]
    decreases |events|
  {
    if events != [] {
      assert events[0] != CommitCreate(call);
      CreateWaits(Next(s, events[0]), events[1..], call);
    }
  }

  /** The record holds what was asked for, until the given moment. */
  predicate Holds(record: Record, request: Request, until: Instant) {
    && record.user == request.user && record.password == request.password
    && record.capabilities == request.capabilities && record.csrfToken == request.csrfToken
    && record.expiresAt == until
  }

  /** The state after a create that began in `s`, ran through `waiting`, and was committed. */
  function Created(s: State, call: nat, id: Id, request: Request, waiting: seq<Event>): State
    requires Enabled(s, BeginCreate(call, id, request))
    requires Runs(Next(s, BeginCreate(call, id, request)), waiting) && CommitCreate(call) !in waiting
  {
    var began := Next(s, BeginCreate(call, id, request));
    CreateWaits(began, waiting, call);
    Next(After(began, waiting), CommitCreate(call))
  }

  lemma CreatedHolds(s: State, call: nat, id: Id, request: Request, waiting: seq<Event>)
    requires Inv(s) && Enabled(s, BeginCreate(call, id, request))
    requires Runs(Next(s, BeginCreate(call, id, request)), waiting) && CommitCreate(call) !in waiting
    ensures var t := Created(s, call, id, request, waiting);
            && Inv(t) && s.clock <= t.clock && id in t.sessions
            && Holds(t.sessions[id], request, if s.clock + s.ttl <= s.latest then s.clock + s.ttl else s.clock)
  {
    var began := Next(s, BeginCreate(call, id, request));
    StepKeepsInv(s, BeginCreate(call, id, request));
    RunKeepsInv(began, waiting);
    CreateWaits(began, waiting, call);
    StepKeepsInv(After(began, waiting), CommitCreate(call));
  }

  /**
    A session created at moment `t` with no logout after it is stored: a lookup that begins at `t` plus
    the time to live, or later, finds nothing, and one that reads before then finds what was asked for.
    When that moment is past the end of the clock, the session ends at once.
   */
  lemma {:induction false} SessionLasts(s: State, call: nat, id: Id, request: Request, waiting: seq<Event>,
                                        stored: seq<Event>, lookup: nat, between: seq<Event>)
    requires Inv(s) && Enabled(s, BeginCreate(call, id, request))
    requires Runs(Next(s, BeginCreate(call, id, request)), waiting) && CommitCreate(call) !in waiting
    requires Runs(Created(s, call, id, request, waiting), stored) && Logout(id) !in stored
    requires var before := After(Created(s, call, id, request, waiting), stored);
             && Enabled(before, BeginLookup(lookup, id))
             && Runs(Next(before, BeginLookup(lookup, id)), between)
             && ReadLookup(lookup) !in between && Logout(id) !in between
    ensures var before := After(Created(s, call, id, request, waiting), stored);
            var read := After(Next(before, BeginLookup(lookup, id)), between);
            var end := if s.clock + s.ttl <= s.latest then s.clock + s.ttl else s.clock;
            && Enabled(read, ReadLookup(lookup))
            && (before.clock >= end ==> Reply(read, lookup) == None)
            && (read.clock < end ==> Reply(read, lookup).Some?)
            && (Reply(read, lookup).Some? ==> Holds(Reply(read, lookup).value, request, end))
  {
    var t := Created(s, call, id, request, waiting);
    CreatedHolds(s, call, id, request, waiting);
    var before := After(t, stored);
    RunKeepsInv(t, stored);
    RunIsSafe(t, stored, id);
    var began := Next(before, BeginLookup(lookup, id));
    StepKeepsInv(before, BeginLookup(lookup, id));
    RunKeepsInv(began, between);
    LookupReturns(before, lookup, id, between);
    if id in before.sessions {
      RunIsSafe(began, between, id);
    } else {
      GoneStaysGone(began, between, id);
    }
  }

  // ----- The CSRF token

  /** The fold of `matches` over the byte differences. */
  function Difference(expected: seq<bv8>, supplied: seq<bv8>, seen: bv8): bv8
    requires |expected| == |supplied|
  {
    if expected == [] then seen
    else Difference(expected[1..], supplied[1..], seen | (expected[0] ^ supplied[0]))
  }

  predicate Matches(token: seq<bv8>, candidate: seq<bv8>) {
    |token| == |candidate| && Difference(token, candidate, 0) == 0
  }

  lemma {:induction false} DifferenceIsZero(expected: seq<bv8>, supplied: seq<bv8>, seen: bv8)
    requires |expected| == |supplied|
    ensures Difference(expected, supplied, seen) == 0 <==> seen == 0 && expected == supplied
  {
    if expected != [] {
      var next := seen | (expected[0] ^ supplied[0]);
      DifferenceIsZero(expected[1..], supplied[1..], next);
      OrXor(seen, expected[0], supplied[0]);
      assert expected == [expected[0]] + expected[1..] && supplied == [supplied[0]] + supplied[1..];
    }
  }

  lemma OrXor(seen: bv8, a: bv8, b: bv8)
    ensures (seen | (a ^ b)) == 0 <==> seen == 0 && a == b
  {
  }

  /** The comparison without early exit is equality. */
  lemma {:induction false} MatchesIsEquality(token: seq<bv8>, candidate: seq<bv8>)
    ensures Matches(token, candidate) <==> token == candidate
  {
    if |token| == |candidate| {
      DifferenceIsZero(token, candidate, 0);
    }
  }
}
