/** The in-process cache of token revocations in front of Redis (jwt.strategy.ts). */
module RevocationCache {
  import opened Options

  const CACHE_TTL_MS := 30_000
  const CACHE_MAX_SIZE: nat := 1000
  const REMOVE_COUNT: nat := 200

  /** The cache lists its entries in insertion order, one per user. */
  datatype Entry = Entry(userId: string, isRevoked: bool, expiresAt: int)

  predicate OnePerUser(entries: seq<Entry>) {
    forall i, k :: 0 <= i < k < |entries| ==> entries[i].userId != entries[k].userId
  }

  function IndexOf(entries: seq<Entry>, userId: string): (r: Option<nat>)
    ensures r.None? ==> forall i :: 0 <= i < |entries| ==> entries[i].userId != userId
    ensures r.Some? ==> r.value < |entries| && entries[r.value].userId == userId
  {
    if entries == [] then None
    else if entries[|entries| - 1].userId == userId then Some(|entries| - 1)
    else IndexOf(entries[..|entries| - 1], userId)
  }

  /** Setting a key that is present keeps its position. */
  function Set(entries: seq<Entry>, e: Entry): seq<Entry> {
    var at := IndexOf(entries, e.userId);
    if at.Some? then entries[at.value := e] else entries + [e]
  }

  function Without(entries: seq<Entry>, users: set<string>): seq<Entry> {
    if entries == [] then []
    else
      var last := entries[|entries| - 1];
      Without(entries[..|entries| - 1], users) + if last.userId in users then [] else [last]
  }

  // --- stable sorting by expiry ---

  predicate Sorted(entries: seq<Entry>) {
    forall i, k :: 0 <= i < k < |entries| ==> entries[i].expiresAt <= entries[k].expiresAt
  }

  /** Behind all entries that expire no later. */
  function Insert(sorted: seq<Entry>, e: Entry): seq<Entry> {
    if sorted == [] || sorted[|sorted| - 1].expiresAt <= e.expiresAt then sorted + [e]
    else Insert(sorted[..|sorted| - 1], e) + [sorted[|sorted| - 1]]
  }

  function StableSort(entries: seq<Entry>): seq<Entry> {
    if entries == [] then [] else Insert(StableSort(entries[..|entries| - 1]), entries[|entries| - 1])
  }

  function CountUpTo(entries: seq<Entry>, time: int): nat {
    if entries == [] then 0
    else CountUpTo(entries[..|entries| - 1], time) + if entries[|entries| - 1].expiresAt <= time then 1 else 0
  }

  /** An entry lands behind exactly as many entries as expire no later than it. */
  lemma {:induction false} InsertPosition(sorted: seq<Entry>, e: Entry)
    requires Sorted(sorted)
    ensures var n := CountUpTo(sorted, e.expiresAt);
      n <= |sorted| && Insert(sorted, e) == sorted[..n] + [e] + sorted[n..]
  {
    if sorted != [] {
      var front, last := sorted[..|sorted| - 1], sorted[|sorted| - 1];
      assert sorted == front + [last];
      if last.expiresAt <= e.expiresAt {
        AllCounted(sorted, e.expiresAt);
      } else {
        InsertPosition(front, e);
        Splice(front, e, last, CountUpTo(front, e.expiresAt));
      }
    }
  }

  lemma Splice(front: seq<Entry>, e: Entry, last: Entry, n: nat)
    requires n <= |front|
    ensures front[..n] + [e] + front[n..] + [last] == (front + [last])[..n] + [e] + (front + [last])[n..]
  {
  }

  lemma {:induction false} InsertKeepsSorted(sorted: seq<Entry>, e: Entry)
    requires Sorted(sorted)
    ensures Sorted(Insert(sorted, e))
    ensures forall x :: x in Insert(sorted, e) ==> x in sorted || x == e
  {
    if sorted != [] && sorted[|sorted| - 1].expiresAt > e.expiresAt {
      InsertKeepsSorted(sorted[..|sorted| - 1], e);
      SortedSnoc(Insert(sorted[..|sorted| - 1], e), sorted[|sorted| - 1]);
    }
  }

  lemma SortedSnoc(front: seq<Entry>, last: Entry)
    requires Sorted(front) && forall x :: x in front ==> x.expiresAt <= last.expiresAt
    ensures Sorted(front + [last])
  {
  }

  lemma {:induction false} AllCounted(entries: seq<Entry>, time: int)
    requires forall i :: 0 <= i < |entries| ==> entries[i].expiresAt <= time
    ensures CountUpTo(entries, time) == |entries|
  {
    if entries != [] {
      AllCounted(entries[..|entries| - 1], time);
    }
  }

  lemma CountSnoc(front: seq<Entry>, last: Entry, time: int)
    ensures CountUpTo(front + [last], time) == CountUpTo(front, time) + if last.expiresAt <= time then 1 else 0
  {
    assert (front + [last])[..|front|] == front;
  }

  lemma {:induction false} InsertCounts(sorted: seq<Entry>, e: Entry, time: int)
    ensures CountUpTo(Insert(sorted, e), time) == CountUpTo(sorted, time) + if e.expiresAt <= time then 1 else 0
  {
    if sorted == [] || sorted[|sorted| - 1].expiresAt <= e.expiresAt {
      CountSnoc(sorted, e, time);
    } else {
      var front, last := sorted[..|sorted| - 1], sorted[|sorted| - 1];
      InsertCounts(front, e, time);
      CountSnoc(Insert(front, e), last, time);
    }
  }

  lemma {:induction false} InsertAdds(sorted: seq<Entry>, e: Entry)
    ensures multiset(Insert(sorted, e)) == multiset(sorted) + multiset{e}
  {
    if sorted != [] && sorted[|sorted| - 1].expiresAt > e.expiresAt {
      var front, last := sorted[..|sorted| - 1], sorted[|sorted| - 1];
      InsertAdds(front, e);
      assert sorted == front + [last];
    }
  }

  /** The sorted list has the same entries in order of expiry. */
  lemma {:induction false} SortFacts(entries: seq<Entry>, time: int)
    ensures multiset(StableSort(entries)) == multiset(entries) && Sorted(StableSort(entries))
    ensures CountUpTo(StableSort(entries), time) == CountUpTo(entries, time)
    ensures |StableSort(entries)| == |entries|
  {
    hide Insert;
    if entries != [] {
      var front, last := entries[..|entries| - 1], entries[|entries| - 1];
      SortFacts(front, time);
      hide Sorted;
      InsertKeepsSorted(StableSort(front), last);
      InsertCounts(StableSort(front), last, time);
      InsertAdds(StableSort(front), last);
      assert entries == front + [last];
    }
    assert |multiset(StableSort(entries))| == |StableSort(entries)|;
  }

  // --- eviction ---

  function Users(entries: seq<Entry>): set<string> {
    set e | e in entries :: e.userId
  }

  lemma {:induction false} WithoutMembers(entries: seq<Entry>, users: set<string>, e: Entry)
    ensures e in Without(entries, users) <==> e in entries && e.userId !in users
  {
    if entries != [] {
      WithoutMembers(entries[..|entries| - 1], users, e);
    }
  }

  lemma {:induction false} WithoutOneMore(entries: seq<Entry>, users: set<string>, userId: string)
    ensures Without(Without(entries, users), {userId}) == Without(entries, users + {userId})
  {
    if entries != [] {
      var front, last := entries[..|entries| - 1], entries[|entries| - 1];
      WithoutOneMore(front, users, userId);
      var before := Without(front, users);
      if last.userId !in users {
        assert (before + [last])[..|before|] == before;
      } else {
        assert before + [] == before;
      }
    }
  }

  lemma {:induction false} WithoutKeepsOrder(entries: seq<Entry>, users: set<string>)
    requires OnePerUser(entries)
    ensures OnePerUser(Without(entries, users))
  {
    if entries != [] {
      var front, last := entries[..|entries| - 1], entries[|entries| - 1];
      WithoutKeepsOrder(front, users);
      forall e | e in Without(front, users) ensures e.userId != last.userId {
        WithoutMembers(front, users, e);
      }
    }
  }

  lemma {:induction false} WithoutOne(entries: seq<Entry>, userId: string)
    requires OnePerUser(entries) && userId in Users(entries)
    ensures |Without(entries, {userId})| == |entries| - 1
  {
    var front, last := entries[..|entries| - 1], entries[|entries| - 1];
    assert entries == front + [last];
    if last.userId == userId {
      WithoutNone(front, {userId});
    } else {
      WithoutOne(front, userId);
    }
  }

  lemma {:induction false} WithoutNone(entries: seq<Entry>, users: set<string>)
    requires Users(entries) !! users
    ensures Without(entries, users) == entries
  {
    if entries != [] {
      var front, last := entries[..|entries| - 1], entries[|entries| - 1];
      assert entries == front + [last];
      assert last in entries && forall e :: e in front ==> e in entries;
      WithoutNone(front, users);
    }
  }

  /** The cache after the entries that expire first have been deleted. */
  function Evict(entries: seq<Entry>): seq<Entry>
    requires |entries| >= REMOVE_COUNT
  {
    SortFacts(entries, 0);
    Without(entries, Users(StableSort(entries)[..REMOVE_COUNT]))
  }

  function Stored(entries: seq<Entry>, e: Entry): seq<Entry> {
    var after := Set(entries, e);
    if |after| > CACHE_MAX_SIZE then Evict(after) else after
  }

  lemma OnePerUserSnoc(front: seq<Entry>, last: Entry)
    requires OnePerUser(front) && forall x :: x in front ==> x.userId != last.userId
    ensures OnePerUser(front + [last])
  {
  }

  lemma {:induction false} InsertKeepsOnePerUser(sorted: seq<Entry>, e: Entry)
    requires OnePerUser(sorted + [e])
    ensures OnePerUser(Insert(sorted, e))
    ensures forall x :: x in Insert(sorted, e) ==> x in sorted || x == e
  {
    if sorted != [] && sorted[|sorted| - 1].expiresAt > e.expiresAt {
      var front, last := sorted[..|sorted| - 1], sorted[|sorted| - 1];
      assert (sorted + [e])[|front|] == last && (sorted + [e])[|sorted|] == e;
      assert forall i :: 0 <= i < |front| ==> front[i] == (sorted + [e])[i];
      InsertKeepsOnePerUser(front, e);
      OnePerUserSnoc(Insert(front, e), last);
    }
  }

  lemma {:induction false} SortKeepsOnePerUser(entries: seq<Entry>)
    requires OnePerUser(entries)
    ensures OnePerUser(StableSort(entries))
  {
    if entries != [] {
      var front, last := entries[..|entries| - 1], entries[|entries| - 1];
      SortKeepsOnePerUser(front);
      SortFacts(front, 0);
      SameMembers(StableSort(front), front);
      hide Insert, Sorted, CountUpTo;
      OnePerUserSnoc(StableSort(front), last);
      InsertKeepsOnePerUser(StableSort(front), last);
    }
  }

  lemma {:induction false} EvictSome(entries: seq<Entry>, order: seq<Entry>, n: nat)
    requires OnePerUser(entries) && OnePerUser(order) && n <= |order| && forall e :: e in order ==> e in entries
    ensures |Without(entries, Users(order[..n]))| == |entries| - n
    ensures OnePerUser(Without(entries, Users(order[..n])))
  {
    WithoutKeepsOrder(entries, Users(order[..n]));
    if n == 0 {
      WithoutNone(entries, Users(order[..0]));
    } else {
      EvictSome(entries, order, n - 1);
      var users, next := Users(order[..n - 1]), order[n - 1];
      assert order[..n] == order[..n - 1] + [next];
      assert Users(order[..n]) == users + {next.userId};
      WithoutOneMore(entries, users, next.userId);
      WithoutMembers(entries, users, next);
      WithoutOne(Without(entries, users), next.userId);
    }
  }

  /** Eviction deletes exactly the first entries of the sorted list, so none of them expires after a survivor. */
  lemma EvictionFacts(entries: seq<Entry>, e: Entry)
    requires OnePerUser(entries) && |entries| >= REMOVE_COUNT && e in entries
    ensures |StableSort(entries)| == |entries| && |Evict(entries)| == |entries| - REMOVE_COUNT
    ensures OnePerUser(Evict(entries))
    ensures e in Evict(entries) <==> e !in StableSort(entries)[..REMOVE_COUNT]
    ensures e !in Evict(entries) ==> forall x :: x in Evict(entries) ==> e.expiresAt <= x.expiresAt
  {
    var order := StableSort(entries);
    SortFacts(entries, 0);
    SortKeepsOnePerUser(entries);
    SameMembers(order, entries);
    hide StableSort, Without;
    EvictSome(entries, order, REMOVE_COUNT);
    forall x | x in entries ensures x in Evict(entries) <==> x !in order[..REMOVE_COUNT] {
      WithoutMembers(entries, Users(order[..REMOVE_COUNT]), x);
      assert x in order;
    }
    forall x | x in Evict(entries) && e !in Evict(entries) ensures e.expiresAt <= x.expiresAt {
      WithoutMembers(entries, Users(order[..REMOVE_COUNT]), x);
      assert x in order && e in order[..REMOVE_COUNT];
    }
  }

  lemma SameMembers(a: seq<Entry>, b: seq<Entry>)
    requires multiset(a) == multiset(b)
    ensures forall e :: e in a <==> e in b
  {
    assert forall e :: e in a <==> e in multiset(a);
    assert forall e :: e in b <==> e in multiset(b);
  }

  /**
   * A new entry survives the eviction it causes exactly when at least as many others as are evicted expire no later,
   * so it survives whenever no other entry expires later.
   */
  lemma NewestSurvives(entries: seq<Entry>, e: Entry)
    requires OnePerUser(entries + [e]) && |entries| >= CACHE_MAX_SIZE
    ensures e in Evict(entries + [e]) <==> CountUpTo(entries, e.expiresAt) >= REMOVE_COUNT
    ensures (forall x :: x in entries ==> x.expiresAt <= e.expiresAt) ==> e in Evict(entries + [e])
  {
    SortedLast(entries, e);
    hide StableSort, Evict, Sorted;
    SortKeepsOnePerUser(entries + [e]);
    EvictionFacts(entries + [e], e);
    if forall x :: x in entries ==> x.expiresAt <= e.expiresAt {
      AllCounted(entries, e.expiresAt);
    }
    hide CountUpTo;
    OneOf(StableSort(entries + [e]), e, CountUpTo(entries, e.expiresAt));
  }

  /** Sorting puts the last entry behind exactly those that expire no later. */
  lemma SortedLast(entries: seq<Entry>, e: Entry)
    ensures var n, order := CountUpTo(entries, e.expiresAt), StableSort(entries + [e]);
            |order| == |entries| + 1 && n < |order| && order[n] == e
  {
    assert (entries + [e])[..|entries|] == entries;
    SortFacts(entries, e.expiresAt);
    InsertPosition(StableSort(entries), e);
  }

  lemma OneOf(order: seq<Entry>, e: Entry, n: nat)
    requires OnePerUser(order) && n < |order| && order[n] == e && REMOVE_COUNT <= |order|
    ensures e in order[..REMOVE_COUNT] <==> n < REMOVE_COUNT
  {
    if n < REMOVE_COUNT {
      assert order[..REMOVE_COUNT][n] == e;
    }
  }

  // --- the cache object ---

  function Lookup(entries: seq<Entry>, userId: string, now: int): Option<bool> {
    var at := IndexOf(entries, userId);
    if at.Some? && entries[at.value].expiresAt > now then Some(entries[at.value].isRevoked) else None
  }

  /** A user's entry answers until the instant at which it expires. */
  lemma LookupMeans(entries: seq<Entry>, userId: string, now: int)
    requires OnePerUser(entries)
    ensures forall e :: e in entries && e.userId == userId ==>
              Lookup(entries, userId, now) == if now < e.expiresAt then Some(e.isRevoked) else None
    ensures userId !in Users(entries) ==> Lookup(entries, userId, now) == None
  {
  }

  /** A user keeps the place of the first entry; without one the entry comes last. */
  lemma SetMeans(entries: seq<Entry>, e: Entry)
    requires OnePerUser(entries)
    ensures forall i :: 0 <= i < |entries| && entries[i].userId == e.userId ==> Set(entries, e) == entries[i := e]
    ensures e.userId !in Users(entries) ==> Set(entries, e) == entries + [e]
  {
  }

  /** Only a new user in a full cache of 1000 causes an eviction, and it leaves 801 entries. */
  lemma StoredInNumbers(entries: seq<Entry>, e: Entry)
    requires OnePerUser(entries) && |entries| <= 1000
    ensures |entries| < 1000 || e.userId in Users(entries) ==> Stored(entries, e) == Set(entries, e)
    ensures |entries| == 1000 && e.userId !in Users(entries) ==> |Stored(entries, e)| == 801
    ensures |Stored(entries, e)| <= 1000
  {
    SetMeans(entries, e);
    SetKeepsOnePerUser(entries, e);
    hide StableSort, Evict, Set;
    if |entries| == 1000 && e.userId !in Users(entries) {
      EvictionFacts(Set(entries, e), e);
    }
  }

  lemma NoneDeleted(entries: seq<Entry>, order: seq<Entry>)
    ensures Without(entries, Users(order[..0])) == entries
  {
    WithoutNone(entries, Users(order[..0]));
  }

  lemma OneMoreDeleted(entries: seq<Entry>, order: seq<Entry>, n: nat)
    requires n < |order|
    ensures Without(Without(entries, Users(order[..n])), {order[n].userId}) == Without(entries, Users(order[..n + 1]))
  {
    assert order[..n + 1] == order[..n] + [order[n]];
    assert Users(order[..n + 1]) == Users(order[..n]) + {order[n].userId};
    WithoutOneMore(entries, Users(order[..n]), order[n].userId);
  }

  class JwtStrategy {
    var revocationCache: seq<Entry>

    constructor ()
      ensures revocationCache == []
    {
      revocationCache := [];
    }

    /** The part of `isTokenRevoked` before Redis is awaited. */
    method BeginCheck(userId: string, now: int) returns (cached: Option<bool>)
      ensures cached == Lookup(revocationCache, userId, now)
    {
      var at := IndexOf(revocationCache, userId);
      if at.Some? && revocationCache[at.value].expiresAt > now {
        return Some(revocationCache[at.value].isRevoked);
      }
      return None;
    }

    /** The part after Redis has answered, with the clock as it was read before. */
    method FinishCheck(userId: string, isRevoked: bool, now: int)
      requires OnePerUser(revocationCache)
      modifies this
      ensures revocationCache == Stored(old(revocationCache), Entry(userId, isRevoked, now + 30_000))
    {
      revocationCache := Set(revocationCache, Entry(userId, isRevoked, now + CACHE_TTL_MS));
      if |revocationCache| > CACHE_MAX_SIZE {
        SetKeepsOnePerUser(old(revocationCache), Entry(userId, isRevoked, now + CACHE_TTL_MS));
        EvictOldestEntries();
      }
    }

    method EvictOldestEntries()
      requires OnePerUser(revocationCache) && |revocationCache| > CACHE_MAX_SIZE
      modifies this
      ensures revocationCache == Evict(old(revocationCache))
    {
      hide StableSort, Without, Users, OnePerUser;
      var entries := StableSort(revocationCache);
      SortFacts(revocationCache, 0);
      NoneDeleted(revocationCache, entries);
      var removeCount := CACHE_MAX_SIZE / 5;
      for i := 0 to removeCount
        invariant revocationCache == Without(old(revocationCache), Users(entries[..i]))
      {
        OneMoreDeleted(old(revocationCache), entries, i);
        Delete(entries[i].userId);
      }
    }

    method Delete(userId: string)
      modifies this
      ensures revocationCache == Without(old(revocationCache), {userId})
    {
      revocationCache := Without(revocationCache, {userId});
    }

    method ClearRevocationCache(userId: string)
      modifies this
      ensures revocationCache == Without(old(revocationCache), {userId})
    {
      Delete(userId);
    }
  }

  lemma SetKeepsOnePerUser(entries: seq<Entry>, e: Entry)
    requires OnePerUser(entries)
    ensures OnePerUser(Set(entries, e)) && |entries| <= |Set(entries, e)| <= |entries| + 1
    ensures forall x :: x in Set(entries, e) ==> x in entries || x == e
  {
  }
}
