/** Overlapping revocation checks against a changing Redis (jwt.strategy.ts). */
module RevocationRuns {
  import opened Options
  import opened RevocationCache

  datatype Snapshot = Snapshot(time: int, revoked: set<string>)

  /** A check that waits for Redis, with the clock it read and the answer once Redis has given one. */
  datatype Check = Check(userId: string, startedAt: int, answer: Option<bool>)

  /** The log holds every state that Redis has been in, the present one last. */
  datatype State = State(clock: int, revoked: set<string>, log: seq<Snapshot>, cache: seq<Entry>, waiting: map<nat, Check>)

  datatype Step =
    | Tick(ms: nat)
    | SetRevoked(users: set<string>)
    | Begin(id: nat, userId: string)
    | Read(id: nat)
    | Finish(id: nat)
    | Fail(id: nat)
    | Clear(userId: string)

  predicate Enabled(s: State, step: Step) {
    match step
    case Begin(id, userId) => id !in s.waiting && Lookup(s.cache, userId, s.clock).None?
    case Read(id) => id in s.waiting && s.waiting[id].answer.None?
    case Finish(id) => id in s.waiting && s.waiting[id].answer.Some?
    case Fail(id) => id in s.waiting && s.waiting[id].answer.None?
    case _ => true
  }

  function Logged(s: State): State {
    s.(log := s.log + [Snapshot(s.clock, s.revoked)])
  }

  function Apply(s: State, step: Step): State
    requires Enabled(s, step)
  {
    match step
    case Tick(ms) => Logged(s.(clock := s.clock + ms))
    case SetRevoked(users) => Logged(s.(revoked := users))
    case Begin(id, userId) => s.(waiting := s.waiting[id := Check(userId, s.clock, None)])
    case Read(id) => s.(waiting := s.waiting[id := s.waiting[id].(answer := Some(s.waiting[id].userId in s.revoked))])
    case Finish(id) =>
      var c := s.waiting[id];
      s.(cache := Stored(s.cache, Entry(c.userId, c.answer.value, c.startedAt + CACHE_TTL_MS)),
         waiting := s.waiting - {id})
    case Fail(id) => s.(waiting := s.waiting - {id})
    case Clear(userId) => s.(cache := Without(s.cache, {userId}))
  }

  function Initial(clock: int, revoked: set<string>): State {
    Logged(State(clock, revoked, [], [], map[]))
  }

  ghost predicate Execution(states: seq<State>, steps: seq<Step>) {
    && |states| == |steps| + 1
    && states[0] == Initial(states[0].clock, states[0].revoked)
    && forall i :: 0 <= i < |steps| ==> Enabled(states[i], steps[i]) && states[i + 1] == Apply(states[i], steps[i])
  }

  ghost predicate Reachable(s: State) {
    exists states, steps :: Execution(states, steps) && states[|steps|] == s
  }

  /** Redis gave this answer for the user at some instant not before the given one. */
  ghost predicate Seen(log: seq<Snapshot>, userId: string, isRevoked: bool, since: int) {
    exists i :: 0 <= i < |log| && log[i].time >= since && (userId in log[i].revoked) == isRevoked
  }

  ghost predicate Answered(s: State, c: Check) {
    c.startedAt <= s.clock && (c.answer.Some? ==> Seen(s.log, c.userId, c.answer.value, c.startedAt))
  }

  ghost predicate Invariant(s: State) {
    && |s.cache| <= CACHE_MAX_SIZE && OnePerUser(s.cache)
    && s.log != [] && s.log[|s.log| - 1] == Snapshot(s.clock, s.revoked)
    && (forall i :: 0 <= i < |s.log| ==> s.log[i].time <= s.clock)
    && (forall e :: e in s.cache ==> Seen(s.log, e.userId, e.isRevoked, e.expiresAt - CACHE_TTL_MS))
    && (forall id :: id in s.waiting ==> Answered(s, s.waiting[id]))
  }

  lemma StoredFacts(entries: seq<Entry>, e: Entry)
    requires OnePerUser(entries) && |entries| <= CACHE_MAX_SIZE
    ensures |Stored(entries, e)| <= CACHE_MAX_SIZE && OnePerUser(Stored(entries, e))
    ensures forall x :: x in Stored(entries, e) ==> x in entries || x == e
  {
    SetKeepsOnePerUser(entries, e);
    var after := Set(entries, e);
    if |after| > CACHE_MAX_SIZE {
      EvictionFacts(after, after[0]);
      forall x | x in Evict(after) ensures x in after {
        WithoutMembers(after, Users(StableSort(after)[..REMOVE_COUNT]), x);
      }
    }
  }

  lemma SeenLater(log: seq<Snapshot>, next: Snapshot, userId: string, isRevoked: bool, since: int)
    requires Seen(log, userId, isRevoked, since)
    ensures Seen(log + [next], userId, isRevoked, since)
  {
    var i :| 0 <= i < |log| && log[i].time >= since && (userId in log[i].revoked) == isRevoked;
    assert (log + [next])[i] == log[i];
  }

  lemma LoggedKeepsInvariant(s: State, clock: int, revoked: set<string>)
    requires Invariant(s) && clock >= s.clock
    ensures Invariant(Logged(s.(clock := clock, revoked := revoked)))
  {
    var next := Snapshot(clock, revoked);
    var after := Logged(s.(clock := clock, revoked := revoked));
    forall e | e in after.cache ensures Seen(after.log, e.userId, e.isRevoked, e.expiresAt - CACHE_TTL_MS) {
      SeenLater(s.log, next, e.userId, e.isRevoked, e.expiresAt - CACHE_TTL_MS);
    }
    forall id | id in after.waiting ensures Answered(after, after.waiting[id]) {
      var c := s.waiting[id];
      if c.answer.Some? {
        SeenLater(s.log, next, c.userId, c.answer.value, c.startedAt);
      }
    }
  }

  lemma CacheKeepsInvariant(s: State, cache: seq<Entry>, waiting: map<nat, Check>)
    requires Invariant(s) && OnePerUser(cache) && |cache| <= CACHE_MAX_SIZE
    requires forall e :: e in cache ==> e in s.cache || Seen(s.log, e.userId, e.isRevoked, e.expiresAt - CACHE_TTL_MS)
    requires forall id :: id in waiting ==> Answered(s, waiting[id])
    ensures Invariant(s.(cache := cache, waiting := waiting))
  {
    hide Seen;
    var after := s.(cache := cache, waiting := waiting);
    forall id | id in waiting ensures Answered(after, waiting[id]) {
      assert Answered(s, waiting[id]);
    }
  }

  lemma StepKeepsInvariant(s: State, step: Step)
    requires Invariant(s) && Enabled(s, step)
    ensures Invariant(Apply(s, step))
  {
    hide Seen, OnePerUser, Set, Stored, Without, IndexOf, Lookup;
    var after := Apply(s, step);
    match step
    case Tick(ms) => LoggedKeepsInvariant(s, s.clock + ms, s.revoked);
    case SetRevoked(users) => LoggedKeepsInvariant(s, s.clock, users);
    case Begin(id, userId) => CacheKeepsInvariant(s, s.cache, after.waiting);
    case Read(id) =>
      SeenNow(s, s.waiting[id].userId, s.waiting[id].startedAt);
      CacheKeepsInvariant(s, s.cache, after.waiting);
    case Finish(id) =>
      assert Answered(s, s.waiting[id]);
      StoredFacts(s.cache, Entry(s.waiting[id].userId, s.waiting[id].answer.value, s.waiting[id].startedAt + CACHE_TTL_MS));
      CacheKeepsInvariant(s, after.cache, after.waiting);
    case Fail(id) => CacheKeepsInvariant(s, s.cache, after.waiting);
    case Clear(userId) =>
      ClearedFacts(s.cache, userId);
      CacheKeepsInvariant(s, after.cache, s.waiting);
  }

  lemma SeenNow(s: State, userId: string, since: int)
    requires s.log != [] && s.log[|s.log| - 1] == Snapshot(s.clock, s.revoked) && since <= s.clock
    ensures Seen(s.log, userId, userId in s.revoked, since)
  {
    assert s.log[|s.log| - 1].time >= since;
  }

  lemma ClearedFacts(entries: seq<Entry>, userId: string)
    requires OnePerUser(entries)
    ensures OnePerUser(Without(entries, {userId})) && |Without(entries, {userId})| <= |entries|
    ensures forall e :: e in Without(entries, {userId}) ==> e in entries && e.userId != userId
  {
    WithoutKeepsOrder(entries, {userId});
    forall e | e in Without(entries, {userId}) ensures e in entries && e.userId != userId {
      WithoutMembers(entries, {userId}, e);
    }
    if userId in Users(entries) {
      WithoutOne(entries, userId);
    } else {
      WithoutNone(entries, {userId});
    }
  }

  lemma {:induction false} RunsKeepInvariant(states: seq<State>, steps: seq<Step>, k: nat)
    requires Execution(states, steps) && k <= |steps|
    ensures Invariant(states[k])
  {
    hide Invariant, Apply, Enabled;
    if k == 0 {
      InitialInvariant(states[0].clock, states[0].revoked);
    } else {
      RunsKeepInvariant(states, steps, k - 1);
      StepKeepsInvariant(states[k - 1], steps[k - 1]);
    }
  }

  lemma InitialInvariant(clock: int, revoked: set<string>)
    ensures Invariant(Initial(clock, revoked))
  {
  }

  /**
   * Whatever checks overlap, the cache holds at most 1000 entries, one per user, and an answer from the cache is one
   * that Redis gave, or would have given, less than 30 seconds ago.
   */
  lemma CachedAnswersAreRecent(s: State, userId: string) returns (i: nat)
    requires Reachable(s) && Lookup(s.cache, userId, s.clock).Some?
    ensures |s.cache| <= CACHE_MAX_SIZE && OnePerUser(s.cache)
    ensures i < |s.log| && s.clock - CACHE_TTL_MS < s.log[i].time <= s.clock
    ensures Lookup(s.cache, userId, s.clock) == Some(userId in s.log[i].revoked)
  {
    var states, steps :| Execution(states, steps) && states[|steps|] == s;
    RunsKeepInvariant(states, steps, |steps|);
    hide Reachable, Execution;
    var e := s.cache[IndexOf(s.cache, userId).value];
    assert e in s.cache && Seen(s.log, e.userId, e.isRevoked, e.expiresAt - CACHE_TTL_MS);
    i :| 0 <= i < |s.log| && s.log[i].time >= e.expiresAt - CACHE_TTL_MS && (e.userId in s.log[i].revoked) == e.isRevoked;
  }

  /** An answer that a check gets from Redis is one that Redis gave after the check began. */
  lemma FetchedAnswersAreCurrent(s: State, id: nat) returns (i: nat)
    requires Reachable(s) && id in s.waiting && s.waiting[id].answer.Some?
    ensures i < |s.log| && s.waiting[id].startedAt <= s.log[i].time <= s.clock
    ensures s.waiting[id].answer == Some(s.waiting[id].userId in s.log[i].revoked)
  {
    var states, steps :| Execution(states, steps) && states[|steps|] == s;
    RunsKeepInvariant(states, steps, |steps|);
    hide Reachable, Execution;
    var c := s.waiting[id];
    assert Answered(s, c);
    i :| 0 <= i < |s.log| && s.log[i].time >= c.startedAt && (c.userId in s.log[i].revoked) == c.answer.value;
  }

  /**
   * In sequential use the entry just stored survives its own eviction: a check that begins in a reachable state and
   * finds the same cache when Redis has answered leaves its answer in the cache.
   */
  lemma UndisturbedChecksSurvive(s: State, t: State, id: nat, userId: string, isRevoked: bool)
    requires Reachable(s) && Enabled(s, Begin(id, userId)) && t.cache == s.cache
    requires id in t.waiting && t.waiting[id] == Check(userId, s.clock, Some(isRevoked))
    ensures Enabled(t, Finish(id))
    ensures Entry(userId, isRevoked, s.clock + CACHE_TTL_MS) in Apply(t, Finish(id)).cache
  {
    hide Reachable, Invariant, Stored, OnePerUser, Lookup, Without, Logged;
    CacheIsNotAhead(s);
    LatestEntrySurvives(s.cache, Entry(userId, isRevoked, s.clock + CACHE_TTL_MS));
  }

  lemma CacheIsNotAhead(s: State)
    requires Reachable(s)
    ensures OnePerUser(s.cache) && |s.cache| <= CACHE_MAX_SIZE
    ensures forall x :: x in s.cache ==> x.expiresAt <= s.clock + CACHE_TTL_MS
  {
    var states, steps :| Execution(states, steps) && states[|steps|] == s;
    RunsKeepInvariant(states, steps, |steps|);
    hide Reachable, Execution, Answered;
    forall x | x in s.cache ensures x.expiresAt <= s.clock + CACHE_TTL_MS {
      assert Seen(s.log, x.userId, x.isRevoked, x.expiresAt - CACHE_TTL_MS);
    }
  }

  lemma LatestEntrySurvives(entries: seq<Entry>, e: Entry)
    requires OnePerUser(entries) && |entries| <= CACHE_MAX_SIZE
    requires forall x :: x in entries ==> x.expiresAt <= e.expiresAt
    ensures e in Stored(entries, e)
  {
    hide Evict;
    SetKeepsOnePerUser(entries, e);
    var at := IndexOf(entries, e.userId);
    if at.Some? {
      assert Set(entries, e)[at.value] == e;
    } else if |entries| == CACHE_MAX_SIZE {
      NewestSurvives(entries, e);
    }
  }
}
