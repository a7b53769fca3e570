/** When a janitor run gets through to its delete, and how it can be blocked for good. */
module OutboxJanitor {
  import opened Options
  import opened OutboxModel
  import opened OutboxSafety
  import OutboxTiming

  /** The unique key column: rows of the hot table have different keys, and so have the rows of a run. */
  ghost predicate UniqueKeys(s: State) {
    && (forall i, j :: i in s.hot && j in s.hot && s.hot[i].key == s.hot[j].key ==> i == j)
    && (forall run :: run in s.runs ==>
          Distinct(s.runs[run].selected) && s.runs[run].saved <= |s.runs[run].selected|)
  }

  /** The hard delete takes exactly the rows archived before its cutoff. */
  lemma PurgedRows(s: State, before: int, key: string)
    ensures var t := Apply(s, Purge(before));
            && t.hot == s.hot && t.runs == s.runs
            && (key in t.archive <==> key in s.archive && s.archive[key] >= before)
            && (key in t.archive ==> t.archive[key] == s.archive[key])
            && (key in t.purged <==> key in s.purged || (key in s.archive && s.archive[key] < before))
  {
  }

  /** What a run may select: different completed rows created more than an hour ago. */
  lemma SelectableRows(s: State, run: RunId, ids: seq<RowId>)
    ensures Enabled(s, Select(run, ids)) <==>
            && run !in s.runs
            && (forall i, j :: 0 <= i < j < |ids| ==> ids[i] != ids[j])
            && (forall i :: 0 <= i < |ids| ==>
                  && ids[i] in s.hot && s.hot[ids[i]].status == COMPLETED
                  && s.hot[ids[i]].createdAt + 3_600_000 < s.now)
  {
    assert forall id :: id in ids ==> exists i :: 0 <= i < |ids| && ids[i] == id;
  }

  lemma RowStepsKeepUnique(s: State, t: State)
    requires UniqueKeys(s) && t.runs == s.runs && s.hot.Keys == t.hot.Keys
    requires forall id :: id in s.hot ==> s.hot[id].key == t.hot[id].key
    ensures UniqueKeys(t)
  {
    hide Distinct;
    forall i, j | i in t.hot && j in t.hot && t.hot[i].key == t.hot[j].key ensures i == j {
      assert s.hot[i].key == t.hot[i].key && s.hot[j].key == t.hot[j].key;
    }
  }

  lemma SelectKeepsUnique(s: State, run: RunId, ids: seq<RowId>)
    requires UniqueKeys(s) && Enabled(s, Select(run, ids))
    ensures UniqueKeys(Apply(s, Select(run, ids)))
  {
    var selected := WithKeys(s, ids);
    forall i, j | 0 <= i < j < |selected| ensures selected[i].1 != selected[j].1 {
      assert selected[i] == (ids[i], s.hot[ids[i]].key) && selected[j] == (ids[j], s.hot[ids[j]].key);
    }
    assert Distinct(selected);
    hide Distinct;
  }

  lemma PublishKeepsUnique(s: State, id: RowId, key: string)
    requires UniqueKeys(s) && Enabled(s, Publish(id, key))
    ensures UniqueKeys(Apply(s, Publish(id, key)))
  {
    hide Distinct;
    assert forall j :: j in s.hot ==> s.hot[j].key in HotKeys(s);
  }

  lemma SaveBatchKeepsUnique(s: State, run: RunId)
    requires UniqueKeys(s) && Enabled(s, SaveBatch(run))
    ensures UniqueKeys(Apply(s, SaveBatch(run)))
  {
    BatchAdvances(s.runs[run]);
    hide Distinct, NextBatch;
  }

  lemma UniqueStep(s: State, step: Step)
    requires UniqueKeys(s) && Enabled(s, step)
    ensures UniqueKeys(Apply(s, step))
  {
    match step
    case Publish(id, key) => PublishKeepsUnique(s, id, key);
    case Select(run, ids) => SelectKeepsUnique(s, run, ids);
    case SaveBatch(run) => SaveBatchKeepsUnique(s, run);
    case Delete(run) => hide Distinct;
    case Abandon(run) => hide Distinct;
    case Purge(before) => hide Distinct;
    case _ =>
      RowStepEffect(s, step);
      hide UniqueKeys, Apply, Enabled;
      RowStepsKeepUnique(s, Apply(s, step));
  }

  lemma {:induction false} ExecutionsKeepUnique(states: seq<State>, steps: seq<Step>, timed: bool, k: nat)
    requires Execution(states, steps, timed) && k <= |steps|
    ensures UniqueKeys(states[k])
  {
    hide UniqueKeys, Apply, Enabled;
    if k == 0 {
      InitiallyUnique(states[0].now);
    } else {
      ExecutionsKeepUnique(states, steps, timed, k - 1);
      UniqueStep(states[k - 1], steps[k - 1]);
    }
  }

  lemma InitiallyUnique(now: int)
    ensures UniqueKeys(Initial(now))
  {
  }

  /** In every reachable state the hot table has no key twice, and no run has selected a key twice. */
  lemma KeysStayUnique(s: State, timed: bool)
    requires Reachable(s, timed)
    ensures forall i, j :: i in s.hot && j in s.hot && s.hot[i].key == s.hot[j].key ==> i == j
    ensures forall run :: run in s.runs ==>
              Distinct(s.runs[run].selected) && s.runs[run].saved <= |s.runs[run].selected|
  {
    var states, steps :| Execution(states, steps, timed) && states[|steps|] == s;
    ExecutionsKeepUnique(states, steps, timed, |steps|);
    hide Distinct, Execution, Reachable;
  }

  // --- a run left to itself ---

  /** The run's own slice saves, one after another, lead to a state in which it can delete. */
  ghost predicate GetsThrough(s: State, run: RunId)
    requires run in s.runs && s.runs[run].saved <= |s.runs[run].selected|
    decreases |s.runs[run].selected| - s.runs[run].saved
  {
    var r := s.runs[run];
    if r.saved == |r.selected| then Enabled(s, Delete(run))
    else
      Enabled(s, SaveBatch(run)) &&
      (BatchAdvances(r);
       GetsThrough(Apply(s, SaveBatch(run)), run))
  }

  /** A slice of a run without repeated keys: its rows by position. */
  lemma BatchRows(r: ArchiveRun, k: string)
    requires r.saved < |r.selected| && Distinct(r.selected)
    ensures var n := r.saved + |NextBatch(r)|;
            && r.saved < n <= |r.selected| && Distinct(NextBatch(r))
            && (k in Keys(NextBatch(r)) <==> exists j :: r.saved <= j < n && r.selected[j].1 == k)
  {
    var batch := NextBatch(r);
    BatchAdvances(r);
    assert forall i :: 0 <= i < |batch| ==> batch[i] == r.selected[r.saved + i];
    hide NextBatch;
    if x :| x in batch && x.1 == k {
      var i :| 0 <= i < |batch| && batch[i] == x;
      assert r.selected[r.saved + i].1 == k;
    }
    if j :| r.saved <= j < r.saved + |batch| && r.selected[j].1 == k {
      assert batch[j - r.saved] in batch;
    }
  }

  ghost predicate Clash(r: ArchiveRun, archived: set<string>) {
    exists j :: r.saved <= j < |r.selected| && r.selected[j].1 in archived
  }

  lemma BatchClash(r: ArchiveRun, archived: set<string>)
    requires r.saved < |r.selected| && Distinct(r.selected)
    ensures Distinct(NextBatch(r))
    ensures !(Keys(NextBatch(r)) !! archived) ==> Clash(r, archived)
  {
    BatchRows(r, "");
    if k :| k in Keys(NextBatch(r)) && k in archived {
      BatchRows(r, k);
    }
  }

  /** Saving a slice neither causes nor removes a clash of the rows behind it. */
  lemma SavedBatchClash(r: ArchiveRun, archived: set<string>)
    requires r.saved < |r.selected| && Distinct(r.selected) && Keys(NextBatch(r)) !! archived
    ensures var n := r.saved + |NextBatch(r)|;
            n <= |r.selected| && (Clash(r.(saved := n), archived + Keys(NextBatch(r))) <==> Clash(r, archived))
  {
    var n := r.saved + |NextBatch(r)|;
    BatchRows(r, "");
    hide NextBatch, Keys;
    forall j | r.saved <= j < |r.selected|
      ensures r.selected[j].1 in Keys(NextBatch(r)) <==> j < n
    {
      BatchRows(r, r.selected[j].1);
    }
  }

  lemma {:induction false} UnblockedRunsGetThrough(s: State, run: RunId)
    requires UniqueKeys(s) && run in s.runs
    ensures GetsThrough(s, run) <==> !Blocked(s, run)
    decreases |s.runs[run].selected| - s.runs[run].saved
  {
    var r := s.runs[run];
    assert Blocked(s, run) <==> Clash(r, s.archive.Keys);
    if r.saved < |r.selected| {
      BatchClash(r, s.archive.Keys);
      if Enabled(s, SaveBatch(run)) {
        BatchAdvances(r);
        SavedBatchClash(r, s.archive.Keys);
        UniqueStep(s, SaveBatch(run));
        UnblockedRunsGetThrough(Apply(s, SaveBatch(run)), run);
        SaveBatchEffect(s, run);
      }
    }
  }

  lemma SaveBatchEffect(s: State, run: RunId)
    requires Enabled(s, SaveBatch(run))
    ensures var t, r := Apply(s, SaveBatch(run)), s.runs[run];
            && run in t.runs && t.runs[run] == r.(saved := r.saved + |NextBatch(r)|)
            && t.archive.Keys == s.archive.Keys + Keys(NextBatch(r))
            && (Blocked(t, run) <==> Clash(t.runs[run], t.archive.Keys))
  {
    hide NextBatch, Keys;
  }

  /** In every reachable state a run left to itself gets through to its delete exactly when it is not blocked. */
  lemma RunsGetThroughUnlessBlocked(s: State, run: RunId, timed: bool)
    requires Reachable(s, timed) && run in s.runs
    ensures s.runs[run].saved <= |s.runs[run].selected|
    ensures GetsThrough(s, run) <==> !Blocked(s, run)
  {
    KeysStayUnique(s, timed);
    assert UniqueKeys(s);
    hide UniqueKeys, Reachable;
    UnblockedRunsGetThrough(s, run);
  }

  /** Which it is can be seen when the run starts: it gets through exactly when no selected key is archived. */
  lemma SelectionDecides(s: State, run: RunId, ids: seq<RowId>, timed: bool)
    requires Reachable(s, timed) && Enabled(s, Select(run, ids))
    ensures var t := Apply(s, Select(run, ids));
            && run in t.runs && t.runs[run].saved <= |t.runs[run].selected|
            && (GetsThrough(t, run) <==> forall id :: id in ids ==> s.hot[id].key !in s.archive)
  {
    KeysStayUnique(s, timed);
    assert UniqueKeys(s);
    hide UniqueKeys, Reachable;
    var t := Apply(s, Select(run, ids));
    SelectKeepsUnique(s, run, ids);
    assert t.runs[run].saved == 0;
    UnblockedRunsGetThrough(t, run);
    hide GetsThrough;
    forall i | 0 <= i < |ids| ensures t.runs[run].selected[i].1 == s.hot[ids[i]].key {
    }
    if id :| id in ids && s.hot[id].key in s.archive {
      var i :| 0 <= i < |ids| && ids[i] == id;
      assert t.runs[run].selected[i].1 in t.archive;
    }
  }

  /** An unblocked run can in fact reach its delete, with the hot table as it was and its rows all archived. */
  lemma {:induction false} DeleteIsReached(s: State, run: RunId, timed: bool) returns (t: State)
    requires Reachable(s, timed) && run in s.runs && !Blocked(s, run)
    ensures Reachable(t, timed) && Enabled(t, Delete(run))
    ensures t.hot == s.hot && t.runs[run].selected == s.runs[run].selected
    decreases |s.runs[run].selected| - s.runs[run].saved
  {
    RunsGetThroughUnlessBlocked(s, run, timed);
    if s.runs[run].saved == |s.runs[run].selected| {
      return s;
    }
    BatchAdvances(s.runs[run]);
    var next := Apply(s, SaveBatch(run));
    OutboxTiming.ReachStep(s, SaveBatch(run), timed);
    RunsGetThroughUnlessBlocked(next, run, timed);
    hide Reachable, Blocked;
    t := DeleteIsReached(next, run, timed);
  }

  // --- a crash between saving and deleting ---

  ghost predicate OneCompleted(s: State) {
    && s.hot == map[0 := Row("k", MEDIUM, COMPLETED, 0, None, 0, None, None)]
    && s.now == 0 && s.claims == map[] && s.runs == map[] && s.archive == map[]
  }

  lemma CompletedEvent() returns (s: State)
    ensures Reachable(s, true) && OneCompleted(s)
  {
    var s1 := FirstHandled();
    s := Apply(s1, Complete(0));
    OutboxTiming.ReachStep(s1, Complete(0), true);
  }

  lemma FirstHandled() returns (s: State)
    ensures Reachable(s, true) && s.claims == map[0 := Claim(1, 0, 0, 0, true)] && 0 in s.history
    ensures s.hot == map[0 := Row("k", MEDIUM, PROCESSING, 0, None, 0, Some(0), Some(1))]
    ensures s.now == 0 && s.runs == map[] && s.archive == map[]
  {
    var s2 := OutboxTiming.FirstClaim(true);
    s := Apply(s2, Handled(0));
    OutboxTiming.ReachStep(s2, Handled(0), true);
  }

  ghost predicate OneSelected(s: State) {
    && s.hot == map[0 := Row("k", MEDIUM, COMPLETED, 0, None, 0, None, None)] && s.now == ARCHIVE_AGE + 1
    && s.runs == map[0 := ArchiveRun([(0, "k")], 0)] && s.archive == map[]
  }

  lemma SelectedEvent(s: State) returns (t: State)
    requires Reachable(s, true) && OneCompleted(s)
    ensures Reachable(t, true) && OneSelected(t)
  {
    var aged := Apply(s, Tick(ARCHIVE_AGE + 1));
    OutboxTiming.ReachStep(s, Tick(ARCHIVE_AGE + 1), true);
    t := Apply(aged, Select(0, [0]));
    OutboxTiming.ReachStep(aged, Select(0, [0]), true);
    hide Reachable;
    assert t.runs[0].selected == [(0, "k")];
  }

  lemma SavedAndCrashed(s: State) returns (t: State)
    requires Reachable(s, true) && OneSelected(s)
    ensures Reachable(t, true) && t.hot == s.hot && t.now == ARCHIVE_AGE + 1 && t.runs == map[] && "k" in t.archive
  {
    var batch := NextBatch(s.runs[0]);
    assert batch == [(0, "k")] && (0, "k") in batch;
    var saved := Apply(s, SaveBatch(0));
    OutboxTiming.ReachStep(s, SaveBatch(0), true);
    t := Apply(saved, Abandon(0));
    hide Reachable;
    OutboxTiming.ReachStep(saved, Abandon(0), true);
  }

  /** Blocked runs do occur, also within the timing assumption: a run that crashes after its saves blocks the next. */
  lemma CrashBlocksTheNextRun()
    ensures exists s :: Reachable(s, true) && Blocked(s, 1)
  {
    var s := CompletedEvent();
    var selected := SelectedEvent(s);
    var t := SavedAndCrashed(selected);
    var u := Apply(t, Select(1, [0]));
    OutboxTiming.ReachStep(t, Select(1, [0]), true);
    assert u.runs[1].selected[0].1 in u.archive;
    assert Blocked(u, 1);
  }

  // --- every later run ---

  predicate Eligible(s: State, id: RowId) {
    id in s.hot && s.hot[id].status == COMPLETED && s.hot[id].createdAt < s.now - ARCHIVE_AGE
  }

  /** The source selects every completed row that is old enough. */
  ghost predicate SelectsAll(s: State, step: Step) {
    step.Select? ==> forall id :: Eligible(s, id) ==> id in step.ids
  }

  /** A row waits to be archived under a key that is archived already, and every run under way is blocked. */
  ghost predicate Stuck(s: State, id: RowId) {
    && Eligible(s, id) && s.hot[id].key in s.archive
    && forall run :: run in s.runs ==> Blocked(s, run)
  }

  lemma CreatedStays(s: State, step: Step, id: RowId)
    requires Enabled(s, step) && id in s.hot && id in s.history && id in Apply(s, step).hot
    ensures Apply(s, step).hot[id].createdAt == s.hot[id].createdAt && Apply(s, step).hot[id].key == s.hot[id].key
    ensures Apply(s, step).now >= s.now
  {
    hide HotKeys, NextBatch, WithKeys, Settle, RecordFailure, Stale;
  }

  lemma ArchiveGrows(s: State, step: Step)
    requires Enabled(s, step) && !step.Purge?
    ensures s.archive.Keys <= Apply(s, step).archive.Keys
  {
    hide HotKeys, NextBatch, WithKeys, ReleaseStale, Settle, RecordFailure;
  }

  lemma OnlyDeleteRemoves(s: State, step: Step, id: RowId)
    requires Enabled(s, step) && id in s.hot && !step.Delete?
    ensures id in Apply(s, step).hot
  {
    hide HotKeys, NextBatch, WithKeys, Settle, RecordFailure;
  }

  /** A run that appears has been selected now; all others were under way before. */
  lemma NewRuns(s: State, step: Step, run: RunId)
    requires Enabled(s, step) && run in Apply(s, step).runs
    ensures run in s.runs || (step.Select? && step.run == run)
    ensures step != Abandon(run)
  {
    hide HotKeys, NextBatch, WithKeys, ReleaseStale, Settle, RecordFailure;
  }

  lemma FullSelectionIsBlocked(s: State, run: RunId, ids: seq<RowId>, id: RowId)
    requires Enabled(s, Select(run, ids)) && id in ids && s.hot[id].key in s.archive
    ensures Blocked(Apply(s, Select(run, ids)), run)
  {
    var t := Apply(s, Select(run, ids));
    var i :| 0 <= i < |ids| && ids[i] == id;
    assert t.runs[run].selected[i].1 == s.hot[id].key;
    hide WithKeys;
    assert 0 <= i < |t.runs[run].selected| && t.runs[run].selected[i].1 in t.archive;
  }

  /** Short of a purge, a stuck outbox stays stuck and deletes nothing. */
  lemma StuckStep(s: State, step: Step, id: RowId)
    requires Reachable(s, true) && Stuck(s, id)
    requires Enabled(s, step) && WithinLock(s, step) && !step.Purge? && SelectsAll(s, step)
    ensures !step.Delete? && Stuck(Apply(s, step), id)
  {
    hide Enabled, Apply, WithinLock, Reachable, Blocked;
    if step.Delete? {
      DeleteNeedsAll(s, step.run);
      BlockedRunsNeverDelete(s, step, step.run);
    }
    ReachableStatesAreSafe(s, true);
    OnlyDeleteRemoves(s, step, id);
    CreatedStays(s, step, id);
    ArchiveGrows(s, step);
    OutboxTiming.CompletedIsFinal(s, step, id);
    var t := Apply(s, step);
    forall run | run in t.runs ensures Blocked(t, run) {
      NewRuns(s, step, run);
      if run in s.runs {
        BlockedRunsNeverDelete(s, step, run);
      } else {
        FullSelectionIsBlocked(s, run, step.ids, id);
      }
    }
  }

  lemma DeleteNeedsAll(s: State, run: RunId)
    requires Enabled(s, Delete(run))
    ensures run in s.runs
  {
  }

  ghost predicate Continuation(states: seq<State>, steps: seq<Step>) {
    && |states| == |steps| + 1
    && forall i :: 0 <= i < |steps| ==>
         && Enabled(states[i], steps[i]) && states[i + 1] == Apply(states[i], steps[i])
         && WithinLock(states[i], steps[i]) && !steps[i].Purge? && SelectsAll(states[i], steps[i])
  }

  /** So once stuck, no run ever deletes a row again, however many follow, until the archive is purged. */
  lemma {:induction false} StuckForGood(states: seq<State>, steps: seq<Step>, id: RowId, k: nat)
    requires Continuation(states, steps) && k <= |steps|
    requires Reachable(states[0], true) && Stuck(states[0], id)
    ensures Reachable(states[k], true) && Stuck(states[k], id)
    ensures forall i :: 0 <= i < k ==> !steps[i].Delete?
  {
    hide Enabled, Apply, WithinLock, Reachable, Stuck, SelectsAll;
    if k > 0 {
      StuckForGood(states, steps, id, k - 1);
      StuckStep(states[k - 1], steps[k - 1], id);
      OutboxTiming.ReachStep(states[k - 1], steps[k - 1], true);
    }
  }

  /** A crash between saving and deleting gets there: a run that has archived the key of a row that is still eligible. */
  lemma CrashGetsStuck(s: State, run: RunId, j: nat, id: RowId)
    requires Reachable(s, true) && s.runs.Keys == {run} && j < s.runs[run].saved <= |s.runs[run].selected|
    requires s.runs[run].selected[j].0 == id && Eligible(s, id) && s.runs[run].selected[j].1 !in s.purged
    ensures Stuck(Apply(s, Abandon(run)), id)
  {
    var states, steps :| Execution(states, steps, true) && states[|steps|] == s;
    ExecutionsAreSafe(states, steps, true, |steps|);
    hide Reachable, Execution, Safe;
    var r := s.runs[run];
    assert RunConsistent(s, r) && r.selected[j] in r.selected[..r.saved] && r.selected[j] in r.selected;
  }

  lemma StuckOutboxesOccur()
    ensures exists s :: Reachable(s, true) && Stuck(s, 0)
  {
    var s := CompletedEvent();
    var selected := SelectedEvent(s);
    var t := SavedAndCrashed(selected);
    hide Reachable;
    assert Stuck(t, 0);
  }
}
