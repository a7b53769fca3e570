/** The outbox table and its archive as the worker and the janitor update them in place. */
module OutboxTable {
  import opened Options
  import opened OutboxModel
  import OutboxTiming

  function PriorityRank(p: Priority): nat {
    match p case HIGH => 0 case MEDIUM => 1 case LOW => 2
  }

  /** The claim order: HIGH before MEDIUM before LOW, then by creation time. */
  predicate NotAfter(a: Row, b: Row) {
    || PriorityRank(a.priority) < PriorityRank(b.priority)
    || (a.priority == b.priority && a.createdAt <= b.createdAt)
  }

  /** The claim order without ranks: `a` may be claimed in front of `b`. */
  predicate MayPrecede(a: Row, b: Row) {
    && (b.priority == HIGH ==> a.priority == HIGH)
    && (b.priority == MEDIUM ==> a.priority != LOW)
    && (a.priority == b.priority ==> a.createdAt <= b.createdAt)
  }

  lemma ClaimOrder(a: Row, b: Row)
    ensures NotAfter(a, b) <==> MayPrecede(a, b)
  {
  }

  function ClaimableIds(rows: map<RowId, Row>, now: int, skipped: set<RowId>): set<RowId> {
    set id | id in rows && id !in skipped && Claimable(rows[id], now)
  }

  function LockAll(rows: map<RowId, Row>, ids: seq<RowId>, worker: WorkerId, now: int): (r: map<RowId, Row>)
    requires forall id :: id in ids ==> id in rows
    ensures r.Keys == rows.Keys
    ensures forall id :: id in rows ==> r[id] == if id in ids then Lock(rows[id], worker, now) else rows[id]
  {
    map id | id in rows :: if id in ids then Lock(rows[id], worker, now) else rows[id]
  }

  predicate InOrder(rows: map<RowId, Row>, ids: seq<RowId>)
    requires forall id :: id in ids ==> id in rows
  {
    forall i, j :: 0 <= i < j < |ids| ==> ids[i] != ids[j] && NotAfter(rows[ids[i]], rows[ids[j]])
  }

  lemma AppendInOrder(rows: map<RowId, Row>, ids: seq<RowId>, last: RowId)
    requires last in rows && forall id :: id in ids ==> id in rows && id != last && NotAfter(rows[id], rows[last])
    requires InOrder(rows, ids)
    ensures InOrder(rows, ids + [last])
  {
  }

  /** `claimed` is what ORDER BY ... LIMIT selects: the first rows of the claim order, in order. */
  ghost predicate FirstInOrder(rows: map<RowId, Row>, eligible: set<RowId>, claimed: seq<RowId>, limit: nat)
    requires eligible <= rows.Keys
  {
    && (forall id :: id in claimed ==> id in eligible)
    && InOrder(rows, claimed)
    && (forall id, u :: id in claimed && u in eligible && u !in claimed ==> NotAfter(rows[id], rows[u]))
    && |claimed| == if |eligible| < limit then |eligible| else limit
  }

  lemma ClaimInPlainTerms(rows: map<RowId, Row>, eligible: set<RowId>, claimed: seq<RowId>, limit: nat)
    requires eligible <= rows.Keys && FirstInOrder(rows, eligible, claimed, limit)
    ensures forall i, j :: 0 <= i < j < |claimed| ==>
              claimed[i] != claimed[j] && MayPrecede(rows[claimed[i]], rows[claimed[j]])
    ensures forall id, u :: id in claimed && u in eligible && u !in claimed ==> MayPrecede(rows[id], rows[u])
  {
    forall a, b ensures NotAfter(a, b) <==> MayPrecede(a, b) {
      ClaimOrder(a, b);
    }
    hide NotAfter, MayPrecede;
  }

  lemma DueRows(rows: map<RowId, Row>, now: int, skipped: set<RowId>)
    ensures ClaimableIds(rows, now, skipped) ==
            set id | id in rows && id !in skipped && rows[id].status == PENDING &&
                     (rows[id].nextRetryAt.None? || rows[id].nextRetryAt.value <= now) && rows[id].lockedAt.None?
  {
  }

  lemma LockedRows(rows: map<RowId, Row>, ids: seq<RowId>, worker: WorkerId, now: int)
    requires forall id :: id in ids ==> id in rows
    ensures forall id :: id in rows ==>
              LockAll(rows, ids, worker, now)[id] ==
              if id in ids then rows[id].(status := PROCESSING, lockedAt := Some(now), lockedBy := Some(worker))
              else rows[id]
  {
  }

  // --- slices ---

  function Slices(n: nat): nat {
    (n + BATCH_SIZE - 1) / BATCH_SIZE
  }

  /** How many rows the first slices hold. */
  function SlicedRows(n: nat, slices: nat): nat {
    if slices * BATCH_SIZE < n then slices * BATCH_SIZE else n
  }

  predicate CrashesWithin(crashAfter: Option<nat>, slices: nat) {
    crashAfter.Some? && crashAfter.value <= slices
  }

  function Archived(archive: map<string, int>, saved: seq<(RowId, string)>, now: int): map<string, int> {
    archive + map k | k in Keys(saved) :: now
  }

  /** The unique key of the archive admits the slice. */
  predicate Savable(batch: seq<(RowId, string)>, archive: map<string, int>) {
    Keys(batch) !! archive.Keys && Distinct(batch)
  }

  /** After `slices` slices, `count` rows are archived, all of them new to the archive, and no crash was due. */
  ghost predicate SavedSoFar(
    selected: seq<(RowId, string)>, before: map<string, int>, now: int, crashAfter: Option<nat>,
    slices: nat, count: nat, archive: map<string, int>)
  {
    && count <= |selected| && count == SlicedRows(|selected|, slices) && slices <= Slices(|selected|)
    && (crashAfter.Some? ==> slices <= crashAfter.value)
    && Keys(selected[..count]) !! before.Keys && Distinct(selected[..count])
    && archive == Archived(before, selected[..count], now)
  }

  /** The run stopped after `slices` slices, because of the crash or because the next slice could not be saved. */
  ghost predicate GivesUp(
    selected: seq<(RowId, string)>, before: map<string, int>, now: int, crashAfter: Option<nat>,
    slices: nat, archive: map<string, int>)
  {
    var count := SlicedRows(|selected|, slices);
    && SavedSoFar(selected, before, now, crashAfter, slices, count, archive)
    && (crashAfter == Some(slices) ||
        (count < |selected| &&
         var batch := NextBatch(ArchiveRun(selected, count));
         !Savable(batch, archive)))
  }

  ghost predicate Stopped(
    selected: seq<(RowId, string)>, before: map<string, int>, now: int, crashAfter: Option<nat>, archive: map<string, int>)
  {
    exists slices: nat :: GivesUp(selected, before, now, crashAfter, slices, archive)
  }

  /** A run succeeds when all its keys are new and different and no crash comes before its delete. */
  predicate Succeeds(selected: seq<(RowId, string)>, before: map<string, int>, crashAfter: Option<nat>) {
    selected == [] ||
    (Keys(selected) !! before.Keys && Distinct(selected) && !CrashesWithin(crashAfter, Slices(|selected|)))
  }

  lemma NothingSaved(selected: seq<(RowId, string)>, archive: map<string, int>, now: int, crashAfter: Option<nat>)
    ensures SavedSoFar(selected, archive, now, crashAfter, 0, 0, archive)
  {
    assert Keys(selected[..0]) == {};
    assert Archived(archive, selected[..0], now) == archive;
  }

  /** A slice is full unless it is the last one. */
  lemma SliceAdvances(selected: seq<(RowId, string)>, slices: nat, count: nat)
    requires count < |selected| && count == SlicedRows(|selected|, slices)
    ensures var n := count + |NextBatch(ArchiveRun(selected, count))|;
            && count < n <= |selected| && n == SlicedRows(|selected|, slices + 1) && slices < Slices(|selected|)
            && selected[..n] == selected[..count] + NextBatch(ArchiveRun(selected, count))
  {
  }

  lemma KeysAppend(a: seq<(RowId, string)>, b: seq<(RowId, string)>)
    ensures Keys(a + b) == Keys(a) + Keys(b)
    ensures Distinct(a + b) <==> Distinct(a) && Distinct(b) && Keys(a) !! Keys(b)
  {
    if Distinct(a + b) {
      assert forall i :: 0 <= i < |a| ==> (a + b)[i] == a[i];
      assert forall j :: 0 <= j < |b| ==> (a + b)[|a| + j] == b[j];
      forall i, j | 0 <= i < |a| && 0 <= j < |b| ensures a[i].1 != b[j].1 {
        assert (a + b)[i].1 != (a + b)[|a| + j].1;
      }
    }
    if Distinct(a) && Distinct(b) && Keys(a) !! Keys(b) {
      forall i, j | 0 <= i < j < |a + b| ensures (a + b)[i].1 != (a + b)[j].1 {
        if i < |a| <= j {
          assert a[i].1 in Keys(a) && b[j - |a|].1 in Keys(b);
        }
      }
    }
  }

  lemma ArchivedMore(before: map<string, int>, a: seq<(RowId, string)>, b: seq<(RowId, string)>, now: int)
    ensures Archived(before, a, now).Keys == before.Keys + Keys(a)
    ensures Archived(Archived(before, a, now), b, now) == Archived(before, a + b, now)
  {
    KeysAppend(a, b);
    hide Keys, Distinct;
  }

  lemma SliceSaved(
    selected: seq<(RowId, string)>, before: map<string, int>, now: int, crashAfter: Option<nat>,
    slices: nat, count: nat, archive: map<string, int>)
    requires SavedSoFar(selected, before, now, crashAfter, slices, count, archive)
    requires count < |selected| && crashAfter != Some(slices)
    requires var batch := NextBatch(ArchiveRun(selected, count));
             Savable(batch, archive)
    ensures var batch := NextBatch(ArchiveRun(selected, count));
            && SavedSoFar(selected, before, now, crashAfter, slices + 1, count + |batch|,
                          Archived(archive, batch, now))
            && |batch| > 0 && count + |batch| <= |selected|
  {
    hide NextBatch, Keys, Distinct, Archived, Slices, SlicedRows;
    var batch := NextBatch(ArchiveRun(selected, count));
    SliceAdvances(selected, slices, count);
    KeysAppend(selected[..count], batch);
    ArchivedMore(before, selected[..count], batch, now);
  }

  /** A slice that cannot be saved shows that the selection as a whole clashes. */
  lemma ClashingSlice(
    selected: seq<(RowId, string)>, before: map<string, int>, now: int, crashAfter: Option<nat>,
    slices: nat, count: nat, archive: map<string, int>)
    requires SavedSoFar(selected, before, now, crashAfter, slices, count, archive) && count < |selected|
    requires var batch := NextBatch(ArchiveRun(selected, count));
             !Savable(batch, archive)
    ensures !Succeeds(selected, before, crashAfter) && Stopped(selected, before, now, crashAfter, archive)
  {
    hide NextBatch, Keys, Distinct, Archived, Slices, SlicedRows;
    var batch := NextBatch(ArchiveRun(selected, count));
    SliceAdvances(selected, slices, count);
    ArchivedMore(before, selected[..count], batch, now);
    var rest := selected[count + |batch|..];
    KeysAppend(selected[..count], batch);
    KeysAppend(selected[..count] + batch, rest);
    assert selected == selected[..count] + batch + rest;
    assert GivesUp(selected, before, now, crashAfter, slices, archive);
  }

  lemma StoppedShort(
    selected: seq<(RowId, string)>, before: map<string, int>, now: int, crashAfter: Option<nat>,
    slices: nat, count: nat, archive: map<string, int>)
    requires SavedSoFar(selected, before, now, crashAfter, slices, count, archive)
    requires selected != [] && crashAfter == Some(slices)
    ensures !Succeeds(selected, before, crashAfter) && Stopped(selected, before, now, crashAfter, archive)
  {
    hide NextBatch, Keys, Distinct, Archived, Slices, SlicedRows;
    assert GivesUp(selected, before, now, crashAfter, slices, archive);
  }

  lemma AllSaved(
    selected: seq<(RowId, string)>, before: map<string, int>, now: int, crashAfter: Option<nat>,
    slices: nat, count: nat, archive: map<string, int>)
    requires SavedSoFar(selected, before, now, crashAfter, slices, count, archive) && count == |selected|
    requires selected != []
    ensures archive == Archived(before, selected, now)
    ensures Succeeds(selected, before, crashAfter) <==> crashAfter != Some(slices)
  {
    assert selected[..count] == selected;
    assert slices == Slices(|selected|);
  }

  lemma NothingToArchive(archive: map<string, int>, rows: map<RowId, Row>, now: int, crashAfter: Option<nat>)
    ensures Archived(archive, [], now) == archive && rows - Ids([]) == rows && Succeeds([], archive, crashAfter)
  {
    assert Keys([]) == {};
  }

  /** Success in plain terms: new and different keys, and no crash up to and including the one before the delete. */
  lemma SucceedsMeans(selected: seq<(RowId, string)>, before: map<string, int>, crashAfter: Option<nat>)
    ensures Succeeds(selected, before, crashAfter) <==>
            || selected == []
            || (&& (forall i :: 0 <= i < |selected| ==> selected[i].1 !in before)
                && (forall i, j :: 0 <= i < j < |selected| ==> selected[i].1 != selected[j].1)
                && (crashAfter.Some? ==> 100 * (crashAfter.value - 1) >= |selected|))
  {
    assert forall i :: 0 <= i < |selected| ==> selected[i].1 in Keys(selected);
    assert CrashesWithin(crashAfter, Slices(|selected|)) <==>
           crashAfter.Some? && 100 * (crashAfter.value - 1) < |selected|;
  }

  lemma ArchivedMeans(before: map<string, int>, selected: seq<(RowId, string)>, now: int)
    ensures var after := Archived(before, selected, now);
            && (forall k :: k in after <==> k in before || exists i :: 0 <= i < |selected| && selected[i].1 == k)
            && (forall i :: 0 <= i < |selected| ==> selected[i].1 in after && after[selected[i].1] == now)
            && (forall k :: k in before && (forall i :: 0 <= i < |selected| ==> selected[i].1 != k) ==>
                  k in after && after[k] == before[k])
  {
    assert forall i :: 0 <= i < |selected| ==> selected[i].1 in Keys(selected);
    forall k | k in Keys(selected) ensures exists i :: 0 <= i < |selected| && selected[i].1 == k {
      var r :| r in selected && r.1 == k;
      var i :| 0 <= i < |selected| && selected[i] == r;
    }
  }

  /** Among the 100 rows from `start`, a key is archived already or occurs twice. */
  ghost predicate ClashFrom(selected: seq<(RowId, string)>, start: nat, archive: map<string, int>) {
    || (exists i :: start <= i < |selected| && i < start + 100 && selected[i].1 in archive)
    || (exists i, j :: start <= i < j < |selected| && j < start + 100 && selected[i].1 == selected[j].1)
  }

  /** A run that gives up has saved whole slices of 100, or everything; without a crash the next slice clashes. */
  lemma StoppedMeans(
    selected: seq<(RowId, string)>, before: map<string, int>, now: int, crashAfter: Option<nat>, archive: map<string, int>)
    returns (count: nat)
    requires Stopped(selected, before, now, crashAfter, archive)
    ensures count <= |selected| && (count == |selected| || count % 100 == 0)
    ensures archive == Archived(before, selected[..count], now)
    ensures crashAfter.None? ==> count < |selected| && ClashFrom(selected, count, archive)
  {
    var slices: nat :| GivesUp(selected, before, now, crashAfter, slices, archive);
    count := SlicedRows(|selected|, slices);
    WholeSlices(|selected|, slices);
    hide Archived, Keys, Distinct, Savable, NextBatch, Slices, SlicedRows, ClashFrom;
    if crashAfter.None? {
      UnsavableSlice(selected, count, archive);
    }
  }

  lemma WholeSlices(n: nat, slices: nat)
    ensures SlicedRows(n, slices) == n || SlicedRows(n, slices) % 100 == 0
  {
  }

  lemma UnsavableSlice(selected: seq<(RowId, string)>, count: nat, archive: map<string, int>)
    requires count < |selected| && !Savable(NextBatch(ArchiveRun(selected, count)), archive)
    ensures ClashFrom(selected, count, archive)
  {
    var batch := NextBatch(ArchiveRun(selected, count));
    if k :| k in Keys(batch) && k in archive {
      var r :| r in batch && r.1 == k;
      var i :| 0 <= i < |batch| && batch[i] == r;
      assert selected[count + i].1 in archive;
    } else {
      var i, j :| 0 <= i < j < |batch| && batch[i].1 == batch[j].1;
      assert selected[count + i].1 == selected[count + j].1;
    }
  }

  class Table {
    var rows: map<RowId, Row>
    var archive: map<string, int>

    constructor ()
      ensures rows == map[] && archive == map[]
    {
      rows, archive := map[], map[];
    }

    method ReleaseStaleLocks(now: int)
      modifies this`rows
      ensures rows == ReleaseStale(old(rows), now)
      ensures rows.Keys == old(rows).Keys && forall id :: id in rows ==>
                var was := old(rows)[id];
                rows[id] == if was.status == PROCESSING && was.lockedAt.Some? && was.lockedAt.value + 120_000 < now
                            then was.(status := PENDING, lockedAt := None, lockedBy := None) else was
    {
      rows := ReleaseStale(rows, now);
    }

    /** Finds a row of `ids` that nothing in `ids` precedes. */
    method FirstOf(ids: set<RowId>) returns (first: RowId)
      requires ids != {} && ids <= rows.Keys
      ensures first in ids && forall u :: u in ids ==> NotAfter(rows[first], rows[u])
    {
      first :| first in ids;
      var rest := ids - {first};
      while rest != {}
        invariant rest <= ids && first in ids
        invariant forall u :: u in ids - rest ==> NotAfter(rows[first], rows[u])
        decreases rest
      {
        var u :| u in rest;
        if !NotAfter(rows[first], rows[u]) {
          first := u;
        }
        rest := rest - {u};
      }
    }

    /** Locks the first `limit` claimable rows in priority order, passing over the rows that another
        transaction has locked, and returns their ids in that order. */
    method ClaimBatch(worker: WorkerId, limit: nat, now: int, skipped: set<RowId>) returns (claimed: seq<RowId>)
      modifies this`rows
      ensures FirstInOrder(old(rows), ClaimableIds(old(rows), now, skipped), claimed, limit)
      ensures rows == LockAll(old(rows), claimed, worker, now)
      ensures var due := set u | u in old(rows) && u !in skipped && old(rows)[u].status == PENDING &&
                                 (old(rows)[u].nextRetryAt.None? || old(rows)[u].nextRetryAt.value <= now) &&
                                 old(rows)[u].lockedAt.None?;
              && (forall id :: id in claimed ==> id in due)
              && |claimed| == (if |due| < limit then |due| else limit)
              && (forall i, j :: 0 <= i < j < |claimed| ==>
                    claimed[i] != claimed[j] && MayPrecede(old(rows)[claimed[i]], old(rows)[claimed[j]]))
              && (forall id, u :: id in claimed && u in due && u !in claimed ==>
                    MayPrecede(old(rows)[id], old(rows)[u]))
      ensures rows.Keys == old(rows).Keys
      ensures forall id :: id in rows ==>
                rows[id] == if id in claimed
                            then old(rows)[id].(status := PROCESSING, lockedAt := Some(now), lockedBy := Some(worker))
                            else old(rows)[id]
    {
      claimed := [];
      assert InOrder(rows, claimed);
      ghost var eligible := ClaimableIds(rows, now, skipped);
      var left := ClaimableIds(rows, now, skipped);
      assert eligible <= rows.Keys;
      hide InOrder, NotAfter, ClaimableIds, LockAll;
      while |claimed| < limit && left != {}
        invariant rows == old(rows) && left <= eligible
        invariant |claimed| <= limit && |claimed| + |left| == |eligible|
        invariant forall id :: id in claimed ==> id in eligible && id !in left
        invariant forall u :: u in eligible && u !in claimed ==> u in left
        invariant InOrder(rows, claimed)
        invariant forall id, u :: id in claimed && u in left ==> NotAfter(rows[id], rows[u])
        decreases left
      {
        var id := FirstOf(left);
        AppendInOrder(rows, claimed, id);
        claimed := claimed + [id];
        left := left - {id};
      }
      rows := LockAll(rows, claimed, worker, now);
      ClaimInPlainTerms(old(rows), eligible, claimed, limit);
      DueRows(old(rows), now, skipped);
      LockedRows(old(rows), claimed, worker, now);
    }

    /** Completion and failure are written whoever holds the lock; a row that is gone stays gone. */
    method MarkCompleted(id: RowId)
      modifies this`rows
      ensures rows == if id in old(rows) then
                        old(rows)[id := old(rows)[id].(status := COMPLETED, lockedAt := None, lockedBy := None)]
                      else old(rows)
    {
      if id in rows {
        rows := rows[id := rows[id].(status := COMPLETED, lockedAt := None, lockedBy := None)];
      }
    }

    method HandleFailure(id: RowId, claimedRetries: nat, structural: bool, now: int)
      modifies this`rows
      ensures rows == if id in old(rows) then old(rows)[id := FailedRow(old(rows)[id], claimedRetries, structural, now)]
                      else old(rows)
      ensures id in rows ==>
                var was := old(rows)[id];
                rows[id] == if structural || claimedRetries >= 9
                            then was.(status := FAILED, lockedAt := None, lockedBy := None,
                                      retryCount := if structural then 10 else claimedRetries + 1)
                            else was.(status := PENDING, lockedAt := None, lockedBy := None,
                                      retryCount := claimedRetries + 1,
                                      nextRetryAt := Some(now + RETRY_DELAYS[claimedRetries]))
    {
      if id in rows {
        FailureInNumbers(rows[id], claimedRetries, structural, now);
      }
      var retryCount := claimedRetries + 1;
      if structural {
        retryCount := MAX_RETRIES;
      }
      if id !in rows {
        return;
      }
      var row := rows[id].(retryCount := retryCount, lockedAt := None, lockedBy := None);
      if retryCount >= MAX_RETRIES {
        rows := rows[id := row.(status := FAILED)];
      } else {
        rows := rows[id := row.(status := PENDING, nextRetryAt := Some(now + Backoff(retryCount)))];
      }
    }

    /** Saves the selected rows in slices of at most 100 and only then deletes them. A key that is already archived
        ends the run, and so does a crash, which can come before any slice or between the last one and the delete:
        `crashAfter` is the number of slices saved before it. */
    method ArchiveCompletedEvents(selected: seq<(RowId, string)>, now: int, crashAfter: Option<nat>)
      returns (archivedCount: Option<nat>)
      modifies this
      ensures archivedCount.Some? <==> Succeeds(selected, old(archive), crashAfter)
      ensures archivedCount.Some? <==>
                || selected == []
                || (&& (forall i :: 0 <= i < |selected| ==> selected[i].1 !in old(archive))
                    && (forall i, j :: 0 <= i < j < |selected| ==> selected[i].1 != selected[j].1)
                    && (crashAfter.Some? ==> 100 * (crashAfter.value - 1) >= |selected|))
      ensures archivedCount.Some? ==>
                && archivedCount.value == |selected|
                && archive == Archived(old(archive), selected, now)
                && rows == old(rows) - Ids(selected)
      ensures archivedCount.None? ==> rows == old(rows) && Stopped(selected, old(archive), now, crashAfter, archive)
    {
      hide *;
      SucceedsMeans(selected, archive, crashAfter);
      ghost var before := archive;
      if selected == [] {
        NothingToArchive(archive, rows, now, crashAfter);
        return Some(0);
      }
      var count, slices := 0, 0;
      NothingSaved(selected, archive, now, crashAfter);
      while count < |selected|
        invariant SavedSoFar(selected, before, now, crashAfter, slices, count, archive) && count <= |selected|
        invariant rows == old(rows)
        decreases |selected| - count
      {
        if crashAfter == Some(slices) {
          StoppedShort(selected, before, now, crashAfter, slices, count, archive);
          return None;
        }
        var batch := NextBatch(ArchiveRun(selected, count));
        if !Savable(batch, archive) {
          ClashingSlice(selected, before, now, crashAfter, slices, count, archive);
          return None;
        }
        SliceSaved(selected, before, now, crashAfter, slices, count, archive);
        archive := Archived(archive, batch, now);
        count := count + |batch|;
        slices := slices + 1;
      }
      AllSaved(selected, before, now, crashAfter, slices, count, archive);
      if crashAfter == Some(slices) {
        StoppedShort(selected, before, now, crashAfter, slices, count, archive);
        return None;
      }
      rows := rows - Ids(selected);
      return Some(count);
    }
  }

  // --- a batch claim is a run of single claims of the state machine ---

  function TakeAll(s: State, worker: WorkerId, ids: seq<RowId>, first: ClaimId): (r: Option<State>)
    decreases |ids|
  {
    if ids == [] then Some(s)
    else if !Enabled(s, Take(first, worker, ids[0])) then None
    else TakeAll(Apply(s, Take(first, worker, ids[0])), worker, ids[1..], first + 1)
  }

  lemma TakeEffect(s: State, worker: WorkerId, id: RowId, c: ClaimId)
    requires c !in s.claims && id in s.hot && id in s.history && Claimable(s.hot[id], s.now)
    ensures Enabled(s, Take(c, worker, id))
    ensures var t := Apply(s, Take(c, worker, id));
            && t.hot == s.hot[id := Lock(s.hot[id], worker, s.now)]
            && t.claims.Keys == s.claims.Keys + {c} && t.history.Keys == s.history.Keys && t.now == s.now
  {
  }

  predicate CanTakeAll(s: State, ids: seq<RowId>, first: ClaimId) {
    && (forall c :: c in s.claims ==> c < first)
    && (forall i, j :: 0 <= i < j < |ids| ==> ids[i] != ids[j])
    && forall id :: id in ids ==> id in s.hot && id in s.history && Claimable(s.hot[id], s.now)
  }

  lemma FirstTake(s: State, worker: WorkerId, ids: seq<RowId>, first: ClaimId)
    requires CanTakeAll(s, ids, first) && ids != []
    ensures Enabled(s, Take(first, worker, ids[0]))
    ensures var t := Apply(s, Take(first, worker, ids[0]));
            && t.hot == s.hot[ids[0] := Lock(s.hot[ids[0]], worker, s.now)] && t.now == s.now
            && CanTakeAll(t, ids[1..], first + 1)
  {
    TakeEffect(s, worker, ids[0], first);
    hide Enabled, Apply, Claimable, Lock;
    assert forall id :: id in ids[1..] ==> id in ids && id != ids[0];
  }

  /** Claiming a batch is claiming its rows one after another in the state machine. */
  lemma {:induction false} BatchIsARunOfTakes(s: State, worker: WorkerId, ids: seq<RowId>, first: ClaimId, timed: bool)
    requires Reachable(s, timed) && CanTakeAll(s, ids, first)
    ensures var r := TakeAll(s, worker, ids, first);
            r.Some? && Reachable(r.value, timed) && r.value.hot == LockAll(s.hot, ids, worker, s.now)
    decreases |ids|
  {
    if ids == [] {
      assert LockAll(s.hot, ids, worker, s.now) == s.hot;
    } else {
      FirstTake(s, worker, ids, first);
      LockOneMore(s.hot, ids, worker, s.now);
      hide Enabled, Apply, Reachable, Claimable, LockAll, Lock, CanTakeAll;
      OutboxTiming.ReachStep(s, Take(first, worker, ids[0]), timed);
      BatchIsARunOfTakes(Apply(s, Take(first, worker, ids[0])), worker, ids[1..], first + 1, timed);
    }
  }

  lemma LockOneMore(rows: map<RowId, Row>, ids: seq<RowId>, worker: WorkerId, now: int)
    requires ids != [] && (forall id :: id in ids ==> id in rows) && ids[0] !in ids[1..]
    ensures LockAll(rows[ids[0] := Lock(rows[ids[0]], worker, now)], ids[1..], worker, now) == LockAll(rows, ids, worker, now)
  {
  }

  // --- an archive run is a run of slice saves and a delete of the state machine ---

  lemma SaveBatchEffect(s: State, run: RunId, selected: seq<(RowId, string)>, count: nat)
    requires run in s.runs && s.runs[run] == ArchiveRun(selected, count) && count < |selected|
    requires Savable(NextBatch(ArchiveRun(selected, count)), s.archive)
    ensures Enabled(s, SaveBatch(run))
    ensures var t, batch := Apply(s, SaveBatch(run)), NextBatch(ArchiveRun(selected, count));
            && t.hot == s.hot && t.now == s.now && t.archive == Archived(s.archive, batch, s.now)
            && t.runs == s.runs[run := ArchiveRun(selected, count + |batch|)]
  {
  }

  /** The first slices of a run, saved one after another. */
  lemma {:induction false} SlicesAreSaves(
    s: State, run: RunId, selected: seq<(RowId, string)>, slices: nat, timed: bool)
    returns (t: State)
    requires Reachable(s, timed) && run in s.runs && s.runs[run] == ArchiveRun(selected, 0)
    requires slices <= Slices(|selected|)
    requires var saved := selected[..SlicedRows(|selected|, slices)]; Savable(saved, s.archive)
    ensures var count := SlicedRows(|selected|, slices);
            && Reachable(t, timed) && t.hot == s.hot && t.now == s.now
            && t.runs == s.runs[run := ArchiveRun(selected, count)]
            && t.archive == Archived(s.archive, selected[..count], s.now)
  {
    hide *;
    if slices == 0 {
      NoSlices(s, run, selected);
      return s;
    }
    SliceFits(selected, slices - 1, s.archive, s.now);
    var u := SlicesAreSaves(s, run, selected, slices - 1, timed);
    t := NextSliceSaved(u, run, selected, slices - 1, s.archive, timed);
    Overwrite(s.runs, run, u.runs[run], t.runs[run]);
  }

  lemma NoSlices(s: State, run: RunId, selected: seq<(RowId, string)>)
    requires run in s.runs && s.runs[run] == ArchiveRun(selected, 0)
    ensures SlicedRows(|selected|, 0) == 0 && s.runs[run := ArchiveRun(selected, 0)] == s.runs
    ensures s.archive == Archived(s.archive, selected[..0], s.now)
  {
    NothingSaved(selected, s.archive, s.now, None);
  }

  lemma Overwrite(runs: map<RunId, ArchiveRun>, run: RunId, a: ArchiveRun, b: ArchiveRun)
    ensures runs[run := a][run := b] == runs[run := b]
    ensures runs[run := a] - {run} == runs - {run}
  {
  }

  lemma SliceFits(selected: seq<(RowId, string)>, slices: nat, archive: map<string, int>, now: int)
    requires slices < Slices(|selected|) && Savable(selected[..SlicedRows(|selected|, slices + 1)], archive)
    ensures slices <= Slices(|selected|)
    ensures var before := SlicedRows(|selected|, slices);
            && before < |selected| && Savable(selected[..before], archive)
            && Savable(NextBatch(ArchiveRun(selected, before)), Archived(archive, selected[..before], now))
  {
    var before := SlicedRows(|selected|, slices);
    assert before < |selected|;
    SliceAdvances(selected, slices, before);
    hide NextBatch, Slices, SlicedRows, Savable, Archived;
    SavableParts(selected[..before], NextBatch(ArchiveRun(selected, before)), archive, now);
  }

  lemma NextSliceSaved(
    u: State, run: RunId, selected: seq<(RowId, string)>, slices: nat, before: map<string, int>, timed: bool)
    returns (t: State)
    requires slices < Slices(|selected|) && Reachable(u, timed) && run in u.runs
    requires var count := SlicedRows(|selected|, slices);
             && count < |selected| && u.runs[run] == ArchiveRun(selected, count)
             && u.archive == Archived(before, selected[..count], u.now)
             && Savable(NextBatch(ArchiveRun(selected, count)), u.archive)
    ensures var count := SlicedRows(|selected|, slices + 1);
            && Reachable(t, timed) && t.hot == u.hot && t.now == u.now
            && t.runs == u.runs[run := ArchiveRun(selected, count)]
            && t.archive == Archived(before, selected[..count], u.now)
  {
    hide Reachable, Enabled, Apply, NextBatch, Slices, SlicedRows, Savable, Archived;
    var count := SlicedRows(|selected|, slices);
    var batch := NextBatch(ArchiveRun(selected, count));
    SliceAdvances(selected, slices, count);
    SaveBatchEffect(u, run, selected, count);
    t := Apply(u, SaveBatch(run));
    OutboxTiming.ReachStep(u, SaveBatch(run), timed);
    ArchivedMore(before, selected[..count], batch, u.now);
  }

  lemma SavableParts(a: seq<(RowId, string)>, b: seq<(RowId, string)>, archive: map<string, int>, now: int)
    requires Savable(a + b, archive)
    ensures Savable(a, archive) && Savable(b, Archived(archive, a, now))
  {
    KeysAppend(a, b);
    ArchivedMore(archive, a, b, now);
    hide Keys, Distinct;
  }

  /** A successful run of the method ends where the state machine's saves and delete end. */
  lemma SuccessIsARunOfSteps(
    s: State, run: RunId, selected: seq<(RowId, string)>, crashAfter: Option<nat>, timed: bool)
    returns (t: State)
    requires Reachable(s, timed) && run in s.runs && s.runs[run] == ArchiveRun(selected, 0)
    requires Succeeds(selected, s.archive, crashAfter)
    ensures Reachable(t, timed) && t.hot == s.hot - Ids(selected)
    ensures t.archive == Archived(s.archive, selected, s.now) && t.runs == s.runs - {run}
  {
    var n := Slices(|selected|);
    assert SlicedRows(|selected|, n) == |selected| && selected[..|selected|] == selected;
    assert Savable(selected, s.archive) by {
      assert Keys([]) == {};
    }
    hide Reachable, Keys, Ids, Distinct, Slices, SlicedRows, Archived, Savable, Succeeds;
    var saved := SlicesAreSaves(s, run, selected, n, timed);
    t := Apply(saved, Delete(run));
    OutboxTiming.ReachStep(saved, Delete(run), timed);
    Overwrite(s.runs, run, saved.runs[run], saved.runs[run]);
  }

  /** A run that gives up ends where as many saves and a crash of the state machine end. */
  lemma GivingUpIsARunOfSteps(
    s: State, run: RunId, selected: seq<(RowId, string)>, crashAfter: Option<nat>, archive: map<string, int>, timed: bool)
    returns (t: State)
    requires Reachable(s, timed) && run in s.runs && s.runs[run] == ArchiveRun(selected, 0)
    requires Stopped(selected, s.archive, s.now, crashAfter, archive)
    ensures Reachable(t, timed) && t.hot == s.hot && t.archive == archive && t.runs == s.runs - {run}
  {
    hide Reachable, Slices, SlicedRows, Archived, Savable;
    var slices := SavedSlices(selected, s.archive, s.now, crashAfter, archive);
    var saved := SlicesAreSaves(s, run, selected, slices, timed);
    hide Stopped;
    t := Apply(saved, Abandon(run));
    OutboxTiming.ReachStep(saved, Abandon(run), timed);
    Overwrite(s.runs, run, saved.runs[run], saved.runs[run]);
  }

  lemma SavedSlices(
    selected: seq<(RowId, string)>, before: map<string, int>, now: int, crashAfter: Option<nat>, archive: map<string, int>)
    returns (slices: nat)
    requires Stopped(selected, before, now, crashAfter, archive)
    ensures slices <= Slices(|selected|)
    ensures var saved := selected[..SlicedRows(|selected|, slices)];
            Savable(saved, before) && archive == Archived(before, saved, now)
  {
    slices :| GivesUp(selected, before, now, crashAfter, slices, archive);
    hide NextBatch, Slices, SlicedRows, Archived, Keys, Distinct;
  }
}
