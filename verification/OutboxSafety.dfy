/** What holds in every interleaving of the outbox protocol, even when workers write after their lock
    has expired. */
module OutboxSafety {
  import opened Options
  import opened OutboxModel

  ghost predicate SafeRow(row: Row, h: History) {
    && (row.status == PROCESSING <==> row.lockedAt.Some?)
    && (row.lockedAt.Some? <==> row.lockedBy.Some?)
    && (row.status == PENDING || row.status == PROCESSING ==> row.retryCount < MAX_RETRIES)
    && (row.status == FAILED ==> row.retryCount == MAX_RETRIES)
    && row.retryCount <= MAX_RETRIES
    && (row.status == COMPLETED ==> h.succeeded)
  }

  ghost predicate SafeClaim(claim: Claim, history: map<RowId, History>) {
    && claim.row in history
    && claim.retryCount < MAX_RETRIES
    && (claim.succeeded ==> history[claim.row].succeeded)
  }

  ghost predicate Safe(s: State) {
    && (forall id :: id in s.hot ==> id in s.history && SafeRow(s.hot[id], s.history[id]))
    && (forall c :: c in s.claims ==> SafeClaim(s.claims[c], s.history))
  }

  /** One row, its history and the claims change; no success is forgotten. */
  lemma SafeUpdate(s: State, t: State, id: RowId)
    requires Safe(s) && id in t.history && t.history == s.history[id := t.history[id]]
    requires id in s.history && s.history[id].succeeded ==> t.history[id].succeeded
    requires forall j :: j in t.hot && j != id ==> j in s.hot && t.hot[j] == s.hot[j]
    requires id in t.hot ==> SafeRow(t.hot[id], t.history[id])
    requires forall c :: c in t.claims ==> SafeClaim(t.claims[c], t.history) || (c in s.claims && t.claims[c] == s.claims[c])
    ensures Safe(t)
  {
    hide SafeRow;
    forall j | j in t.hot && j != id ensures SafeRow(t.hot[j], t.history[j]) {
      assert SafeRow(s.hot[j], s.history[j]);
    }
    forall c | c in t.claims ensures SafeClaim(t.claims[c], t.history) {
      assert c in s.claims && t.claims[c] == s.claims[c] ==> SafeClaim(s.claims[c], s.history);
    }
  }

  lemma SafeHandled(s: State, c: ClaimId)
    requires Safe(s) && Enabled(s, Handled(c))
    ensures Safe(Apply(s, Handled(c)))
  {
    var id := s.claims[c].row;
    assert SafeClaim(s.claims[c], s.history);
    assert id in s.hot ==> SafeRow(s.hot[id], s.history[id]);
    hide Safe;
    SafeUpdate(s, Apply(s, Handled(c)), id);
  }

  lemma SafeComplete(s: State, c: ClaimId)
    requires Safe(s) && Enabled(s, Complete(c))
    ensures Safe(Apply(s, Complete(c)))
  {
    var id := s.claims[c].row;
    assert SafeClaim(s.claims[c], s.history);
    assert id in s.hot ==> SafeRow(s.hot[id], s.history[id]);
    hide Safe;
    SafeUpdate(s, Apply(s, Complete(c)), id);
  }

  lemma SafeFail(s: State, c: ClaimId, structural: bool)
    requires Safe(s) && Enabled(s, Fail(c, structural))
    ensures Safe(Apply(s, Fail(c, structural)))
  {
    var id := s.claims[c].row;
    assert SafeClaim(s.claims[c], s.history);
    assert id in s.hot ==> SafeRow(s.hot[id], s.history[id]);
    hide Safe;
    SafeUpdate(s, Apply(s, Fail(c, structural)), id);
  }

  lemma SafeCrash(s: State, c: ClaimId)
    requires Safe(s) && Enabled(s, Crash(c))
    ensures Safe(Apply(s, Crash(c)))
  {
    var id := s.claims[c].row;
    assert SafeClaim(s.claims[c], s.history);
    assert id in s.hot ==> SafeRow(s.hot[id], s.history[id]);
    hide Safe;
    SafeUpdate(s, Apply(s, Crash(c)), id);
  }

  lemma SafePublish(s: State, id: RowId, key: string)
    requires Safe(s) && Enabled(s, Publish(id, key))
    ensures Safe(Apply(s, Publish(id, key)))
  {
    SafeUpdate(s, Apply(s, Publish(id, key)), id);
  }

  lemma SafeTake(s: State, c: ClaimId, worker: WorkerId, id: RowId)
    requires Safe(s) && Enabled(s, Take(c, worker, id))
    ensures Safe(Apply(s, Take(c, worker, id)))
  {
    assert SafeRow(s.hot[id], s.history[id]);
    SafeUpdate(s, Apply(s, Take(c, worker, id)), id);
  }

  lemma SafeRelease(s: State)
    requires Safe(s)
    ensures Safe(Apply(s, Release))
  {
    hide SafeClaim;
  }

  lemma SafeStep(s: State, step: Step)
    requires Safe(s) && Enabled(s, step)
    ensures Safe(Apply(s, step))
  {
    match step
    case Publish(id, key) => SafePublish(s, id, key);
    case Take(c, worker, id) => SafeTake(s, c, worker, id);
    case Release => SafeRelease(s);
    case Handled(c) => SafeHandled(s, c);
    case Complete(c) => SafeComplete(s, c);
    case Fail(c, structural) => SafeFail(s, c, structural);
    case Crash(c) => SafeCrash(s, c);
    case _ =>
      hide SafeRow, SafeClaim;
  }

  // --- keys ---

  /** The selected rows keep their identity: a row still in the hot table has the key that was read. */
  ghost predicate RunConsistent(s: State, run: ArchiveRun) {
    && run.saved <= |run.selected|
    && (forall r :: r in run.selected ==>
                      && r.0 in s.history && r.1 in s.published
                      && (r.0 in s.hot ==> s.hot[r.0].key == r.1))
    && (forall r :: r in run.selected[..run.saved] ==> r.1 in s.archive || r.1 in s.purged)
  }

  /** Every committed key is in the hot table, in the archive, or was purged after the retention period. */
  ghost predicate NothingLost(s: State) {
    && s.published == HotKeys(s) + s.archive.Keys + s.purged
    && (forall run :: run in s.runs ==> RunConsistent(s, s.runs[run]))
    && (forall id :: id in s.hot ==> id in s.history)
  }

  lemma SameKeys(s: State, t: State)
    requires s.hot.Keys == t.hot.Keys
    requires forall id :: id in s.hot ==> s.hot[id].key == t.hot[id].key
    ensures HotKeys(s) == HotKeys(t)
  {
    forall id | id in s.hot ensures s.hot[id].key in HotKeys(t) {
      assert s.hot[id].key == t.hot[id].key;
    }
    forall id | id in t.hot ensures t.hot[id].key in HotKeys(s) {
      assert s.hot[id].key == t.hot[id].key;
    }
  }

  lemma PublishKeepsKeys(s: State, id: RowId, key: string)
    requires NothingLost(s) && Enabled(s, Publish(id, key))
    ensures NothingLost(Apply(s, Publish(id, key)))
  {
    var t := Apply(s, Publish(id, key));
    assert HotKeys(t) == HotKeys(s) + {key} by {
      forall j | j in s.hot ensures s.hot[j].key in HotKeys(t) {
        assert j in t.hot && t.hot[j] == s.hot[j];
      }
      assert id in t.hot && t.hot[id].key == key;
    }
  }

  lemma BatchAdvances(run: ArchiveRun)
    requires run.saved < |run.selected|
    ensures var n := run.saved + |NextBatch(run)|;
            && run.saved < n <= |run.selected|
            && run.selected[..n] == run.selected[..run.saved] + NextBatch(run)
    ensures forall r :: r in NextBatch(run) ==> r in run.selected
  {
  }

  lemma SaveBatchKeepsKeys(s: State, run: RunId)
    requires NothingLost(s) && Enabled(s, SaveBatch(run))
    ensures NothingLost(Apply(s, SaveBatch(run)))
    ensures var t, r := Apply(s, SaveBatch(run)), s.runs[run];
            && t.archive.Keys == s.archive.Keys + Keys(NextBatch(r))
            && t.runs == s.runs[run := r.(saved := r.saved + |NextBatch(r)|)] && t.hot == s.hot
  {
    hide NextBatch;
    var t := Apply(s, SaveBatch(run));
    var r := s.runs[run];
    var batch := NextBatch(r);
    assert RunConsistent(s, r);
    BatchAdvances(r);
    assert t.archive.Keys == s.archive.Keys + Keys(batch);
    assert Keys(batch) <= s.published;
    SameKeys(s, t);
    forall other | other in t.runs ensures RunConsistent(t, t.runs[other]) {
      assert RunConsistent(s, s.runs[other]);
      if other == run {
        assert t.runs[run] == r.(saved := r.saved + |batch|);
        assert t.runs[run].selected[..t.runs[run].saved] == r.selected[..r.saved] + batch;
        forall x | x in batch ensures x.1 in t.archive {
          assert x.1 in Keys(batch);
        }
      }
    }
  }

  lemma DeleteKeepsKeys(s: State, run: RunId)
    requires NothingLost(s) && Enabled(s, Delete(run))
    ensures NothingLost(Apply(s, Delete(run)))
  {
    var t := Apply(s, Delete(run));
    var r := s.runs[run];
    assert RunConsistent(s, r) && r.selected[..r.saved] == r.selected;
    forall id | id in s.hot ensures s.hot[id].key in HotKeys(t) + t.archive.Keys + t.purged {
      if id in t.hot {
        assert t.hot[id].key == s.hot[id].key;
      } else {
        var x :| x in r.selected && x.0 == id;
        assert x.1 == s.hot[id].key;
      }
    }
    assert HotKeys(t) <= HotKeys(s) by {
      forall id | id in t.hot ensures t.hot[id].key in HotKeys(s) {
        assert id in s.hot;
      }
    }
    forall other | other in t.runs ensures RunConsistent(t, t.runs[other]) {
      assert RunConsistent(s, s.runs[other]);
    }
  }

  lemma PurgeKeepsKeys(s: State, before: int)
    requires NothingLost(s)
    ensures NothingLost(Apply(s, Purge(before)))
  {
    var t := Apply(s, Purge(before));
    assert t.archive.Keys + t.purged == s.archive.Keys + s.purged;
    forall run | run in t.runs ensures RunConsistent(t, t.runs[run]) {
      assert RunConsistent(s, s.runs[run]);
    }
    assert HotKeys(t) == HotKeys(s);
  }

  lemma SelectKeepsKeys(s: State, run: RunId, ids: seq<RowId>)
    requires NothingLost(s) && Enabled(s, Select(run, ids))
    ensures NothingLost(Apply(s, Select(run, ids)))
  {
    var t := Apply(s, Select(run, ids));
    assert HotKeys(t) == HotKeys(s);
    forall other | other in t.runs ensures RunConsistent(t, t.runs[other]) {
      if other in s.runs {
        assert t.runs[other] == s.runs[other] && RunConsistent(s, s.runs[other]);
      } else {
        forall r | r in t.runs[other].selected ensures r.0 in s.hot && s.hot[r.0].key == r.1 && r.1 in HotKeys(s) {
          var i :| 0 <= i < |t.runs[other].selected| && r == t.runs[other].selected[i];
          assert r == (ids[i], s.hot[ids[i]].key);
        }
      }
    }
  }

  /** Steps of publishers' and workers' rows that keep every key. */
  lemma RowUpdateKeepsKeys(s: State, t: State)
    requires NothingLost(s) && t.published == s.published && t.archive == s.archive && t.purged == s.purged
    requires t.runs == s.runs && s.hot.Keys == t.hot.Keys && t.history.Keys == s.history.Keys
    requires forall id :: id in s.hot ==> s.hot[id].key == t.hot[id].key
    ensures NothingLost(t)
  {
    SameKeys(s, t);
    forall run | run in t.runs ensures RunConsistent(t, t.runs[run]) {
      assert RunConsistent(s, s.runs[run]);
    }
  }

  predicate IsRowStep(step: Step) {
    step.Tick? || step.Release? || step.Take? || step.Handled? || step.Complete? || step.Fail? || step.Crash?
  }

  lemma RowStepEffect(s: State, step: Step)
    requires Enabled(s, step) && IsRowStep(step)
    ensures var t := Apply(s, step);
            && t.published == s.published && t.archive == s.archive && t.purged == s.purged && t.runs == s.runs
            && s.hot.Keys == t.hot.Keys && t.history.Keys == s.history.Keys
            && forall id :: id in s.hot ==> s.hot[id].key == t.hot[id].key
  {
    hide HotKeys, NextBatch, WithKeys, Settle, RecordFailure, Stale, Claimable;
    match step
    case Release => assert Apply(s, Release).hot == ReleaseStale(s.hot, s.now);
    case Take(_, _, id) => assert Apply(s, step).hot == s.hot[id := Apply(s, step).hot[id]];
    case Complete(c) => assert s.claims[c].row in s.hot ==> Apply(s, step).hot.Keys == s.hot.Keys;
    case Fail(c, _) => assert s.claims[c].row in s.hot ==> Apply(s, step).hot.Keys == s.hot.Keys;
    case _ =>
  }

  lemma AbandonKeepsKeys(s: State, run: RunId)
    requires NothingLost(s) && Enabled(s, Abandon(run))
    ensures NothingLost(Apply(s, Abandon(run)))
  {
    var t := Apply(s, Abandon(run));
    SameKeys(s, t);
    forall other | other in t.runs ensures RunConsistent(t, t.runs[other]) {
      assert RunConsistent(s, s.runs[other]);
    }
  }

  lemma NothingLostStep(s: State, step: Step)
    requires NothingLost(s) && Enabled(s, step)
    ensures NothingLost(Apply(s, step))
  {
    hide NothingLost, Apply;
    match step
    case Publish(id, key) => PublishKeepsKeys(s, id, key);
    case Select(run, ids) => SelectKeepsKeys(s, run, ids);
    case SaveBatch(run) => SaveBatchKeepsKeys(s, run);
    case Delete(run) => DeleteKeepsKeys(s, run);
    case Abandon(run) => AbandonKeepsKeys(s, run);
    case Purge(before) => PurgeKeepsKeys(s, before);
    case _ =>
      RowStepEffect(s, step);
      RowUpdateKeepsKeys(s, Apply(s, step));
  }

  // --- every reachable state ---

  lemma {:induction false} ExecutionsAreSafe(states: seq<State>, steps: seq<Step>, timed: bool, k: nat)
    requires Execution(states, steps, timed) && k <= |steps|
    ensures Safe(states[k]) && NothingLost(states[k])
  {
    if k > 0 {
      ExecutionsAreSafe(states, steps, timed, k - 1);
      SafeStep(states[k - 1], steps[k - 1]);
      NothingLostStep(states[k - 1], steps[k - 1]);
    }
  }

  /** In every reachable state, whatever the timing: a row is PROCESSING exactly when both lock columns
      are set; retries stay below 10 until FAILED, which means exactly 10; COMPLETED means that a handler
      run on the row succeeded; and no committed key has disappeared before the retention period ended. */
  lemma ReachableStatesAreSafe(s: State, timed: bool)
    requires Reachable(s, timed)
    ensures forall id :: id in s.hot ==>
              var row := s.hot[id];
              && (row.status == PROCESSING <==> row.lockedAt.Some? && row.lockedBy.Some?)
              && (row.status != PROCESSING ==> row.lockedAt.None? && row.lockedBy.None?)
              && (row.status == PENDING || row.status == PROCESSING ==> row.retryCount <= 9)
              && (row.status == FAILED ==> row.retryCount == 10)
              && (row.status == COMPLETED ==> id in s.history && s.history[id].succeeded)
    ensures s.published == HotKeys(s) + s.archive.Keys + s.purged
  {
    var states, steps :| Execution(states, steps, timed) && states[|steps|] == s;
    ExecutionsAreSafe(states, steps, timed, |steps|);
  }

  /** A run that still has to save a key which is already archived. */
  ghost predicate Blocked(s: State, run: RunId) {
    && run in s.runs
    && exists j :: s.runs[run].saved <= j < |s.runs[run].selected| && s.runs[run].selected[j].1 in s.archive
  }

  lemma StepLeavesRun(s: State, step: Step, run: RunId)
    requires run in s.runs && Enabled(s, step)
    requires !step.Purge? && step != SaveBatch(run) && step != Delete(run) && step != Abandon(run)
    ensures var t := Apply(s, step); run in t.runs && t.runs[run] == s.runs[run] && s.archive.Keys <= t.archive.Keys
  {
    hide NextBatch, ReleaseStale, WithKeys, HotKeys;
  }

  /** A crash between saving and deleting leaves archived keys in the hot table. A later run that selects
      one of them never deletes anything: unless the archive is purged, it stays blocked until abandoned. */
  lemma BlockedRunsNeverDelete(s: State, step: Step, run: RunId)
    requires Blocked(s, run) && Enabled(s, step) && !step.Purge?
    ensures step != Delete(run)
    ensures step == Abandon(run) || Blocked(Apply(s, step), run)
  {
    var r := s.runs[run];
    var j :| r.saved <= j < |r.selected| && r.selected[j].1 in s.archive;
    if step == SaveBatch(run) {
      SavableBatchEndsBefore(r, s.archive.Keys, j);
    } else if step != Abandon(run) {
      assert step != Delete(run);
      StepLeavesRun(s, step, run);
      hide Apply, Enabled;
      assert Apply(s, step).runs[run].selected[j].1 in Apply(s, step).archive;
    }
  }

  lemma SavableBatchEndsBefore(r: ArchiveRun, archived: set<string>, j: nat)
    requires r.saved <= j < |r.selected| && r.selected[j].1 in archived
    requires Keys(NextBatch(r)) !! archived
    ensures r.saved + |NextBatch(r)| <= j
  {
    var batch := NextBatch(r);
    forall x | x in batch ensures x.1 !in archived {
      assert x.1 in Keys(batch);
    }
  }
}
