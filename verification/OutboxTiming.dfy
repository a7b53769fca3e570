/** What holds in addition when every worker settles or loses its claims within the lock timeout. */
module OutboxTiming {
  import opened Options
  import opened OutboxModel
  import OutboxSafety

  /** The delays that must lie between the first and the last of `failures` failures. */
  function Waited(failures: nat): nat {
    if failures <= 1 then 0 else Waited(failures - 1) + Backoff(failures - 1)
  }

  function Held(h: History): nat {
    if h.holder.Some? then 1 else 0
  }

  /** The counters of a row. Structural errors force the retry count up, so it only bounds failures. */
  ghost predicate Counted(row: Row, h: History) {
    && h.claims == h.failures + h.completions + h.crashes + Held(h)
    && h.completions == (if row.status == COMPLETED then 1 else 0)
    && h.failures <= row.retryCount <= MAX_RETRIES
    && (row.status != FAILED ==> row.retryCount < MAX_RETRIES && !h.structural)
    && (!h.structural ==> row.retryCount == h.failures)
    && (h.holder.Some? ==> row.status == PROCESSING)
  }

  /** The distances between failures: a waiting row knows its next attempt, and a held one was claimed
      no earlier. */
  ghost predicate Spaced(row: Row, h: History) {
    && (h.failures >= 1 && !h.structural ==> h.lastFailure - h.firstFailure >= Waited(h.failures))
    && (h.failures >= 1 && (row.status == PENDING || row.status == PROCESSING) ==>
          row.nextRetryAt == Some(h.lastFailure + Backoff(h.failures)))
    && (row.status == PROCESSING ==> row.lockedAt.Some?)
    && (row.status == PROCESSING && h.failures >= 1 ==>
          row.lockedAt.value >= h.lastFailure + Backoff(h.failures))
  }

  /** A claim in a worker's memory agrees with its row. */
  ghost predicate Holds(s: State, c: ClaimId, claim: Claim) {
    && claim.row in s.hot && claim.row in s.history
    && s.history[claim.row].holder == Some(c)
    && s.hot[claim.row].status == PROCESSING
    && s.hot[claim.row].lockedBy == Some(claim.worker)
    && s.hot[claim.row].lockedAt == Some(claim.claimedAt)
    && s.hot[claim.row].retryCount == claim.retryCount
    && claim.claimedAt <= s.now <= claim.claimedAt + LOCK_TIMEOUT
  }

  ghost predicate RowTimed(s: State, id: RowId) {
    && id in s.hot && id in s.history
    && Counted(s.hot[id], s.history[id]) && Spaced(s.hot[id], s.history[id])
    && (s.history[id].holder.Some? ==>
          && s.history[id].holder.value in s.claims
          && s.claims[s.history[id].holder.value].row == id)
  }

  ghost predicate Timed(s: State) {
    && (forall id :: id in s.hot ==> RowTimed(s, id))
    && (forall c :: c in s.claims ==> Holds(s, c, s.claims[c]))
    && (forall run, r :: run in s.runs && r in s.runs[run].selected && r.0 in s.hot ==> s.hot[r.0].status == COMPLETED)
    && (forall run, r :: run in s.runs && r in s.runs[run].selected ==> r.0 in s.history)
  }

  lemma TakeOnRow(row: Row, h: History, c: ClaimId, w: WorkerId, now: int)
    requires Counted(row, h) && Spaced(row, h) && Claimable(row, now)
    ensures Counted(Lock(row, w, now), h.(claims := h.claims + 1, holder := Some(c)))
    ensures Spaced(Lock(row, w, now), h.(claims := h.claims + 1, holder := Some(c)))
    ensures h.holder.None?
  {
  }

  lemma TakeKeepsTimed(s: State, c: ClaimId, w: WorkerId, id: RowId)
    requires Timed(s) && Enabled(s, Take(c, w, id))
    ensures Timed(Apply(s, Take(c, w, id)))
  {
    hide Counted, Spaced;
    var t := Apply(s, Take(c, w, id));
    assert RowTimed(s, id);
    TakeOnRow(s.hot[id], s.history[id], c, w, s.now);
    forall other | other in t.claims ensures Holds(t, other, t.claims[other]) {
      if other != c {
        assert Holds(s, other, s.claims[other]);
      }
    }
    forall j | j in t.hot ensures RowTimed(t, j) {
      assert RowTimed(s, j);
    }
  }

  lemma FailureOnRow(row: Row, h: History, c: ClaimId, structural: bool, now: int)
    requires Counted(row, h) && Spaced(row, h) && h.holder == Some(c) && row.lockedAt.Some? && row.lockedAt.value <= now
    ensures var r, k := FailedRow(row, row.retryCount, structural, now), RecordFailure(Settle(h, c), structural, now);
            Counted(r, k) && Spaced(r, k)
  {
  }

  lemma FailKeepsTimed(s: State, c: ClaimId, structural: bool)
    requires Timed(s) && Enabled(s, Fail(c, structural))
    ensures Timed(Apply(s, Fail(c, structural)))
  {
    hide Counted, Spaced, FailedRow, RecordFailure;
    var t := Apply(s, Fail(c, structural));
    var id := s.claims[c].row;
    assert Holds(s, c, s.claims[c]) && RowTimed(s, id);
    FailureOnRow(s.hot[id], s.history[id], c, structural, s.now);
    FailureKeepsHolder(Settle(s.history[id], c), structural, s.now);
    forall other | other in t.claims ensures Holds(t, other, t.claims[other]) {
      assert Holds(s, other, s.claims[other]);
    }
    forall j | j in t.hot ensures RowTimed(t, j) {
      assert RowTimed(s, j);
    }
  }

  lemma FailureKeepsHolder(h: History, structural: bool, now: int)
    ensures RecordFailure(h, structural, now).holder == h.holder
  {
  }

  lemma CompleteOnRow(row: Row, h: History, c: ClaimId)
    requires Counted(row, h) && Spaced(row, h) && h.holder == Some(c)
    ensures var k := Settle(h, c).(completions := h.completions + 1);
            k.holder.None? && Counted(Unlock(row, COMPLETED), k) && Spaced(Unlock(row, COMPLETED), k)
  {
  }

  lemma CrashOnRow(row: Row, h: History, c: ClaimId)
    requires Counted(row, h) && Spaced(row, h) && h.holder == Some(c)
    ensures var k := Settle(h, c).(crashes := h.crashes + 1); k.holder.None? && Counted(row, k) && Spaced(row, k)
  {
  }

  lemma CompleteKeepsTimed(s: State, c: ClaimId)
    requires Timed(s) && Enabled(s, Complete(c))
    ensures Timed(Apply(s, Complete(c)))
  {
    hide Counted, Spaced;
    var t := Apply(s, Complete(c));
    var id := s.claims[c].row;
    assert Holds(s, c, s.claims[c]) && RowTimed(s, id);
    CompleteOnRow(s.hot[id], s.history[id], c);
    forall other | other in t.claims ensures Holds(t, other, t.claims[other]) {
      assert Holds(s, other, s.claims[other]);
    }
    forall j | j in t.hot ensures RowTimed(t, j) {
      assert RowTimed(s, j);
    }
  }

  lemma CrashKeepsTimed(s: State, c: ClaimId)
    requires Timed(s) && Enabled(s, Crash(c))
    ensures Timed(Apply(s, Crash(c)))
  {
    hide Counted, Spaced;
    var t := Apply(s, Crash(c));
    var id := s.claims[c].row;
    assert Holds(s, c, s.claims[c]) && RowTimed(s, id);
    CrashOnRow(s.hot[id], s.history[id], c);
    forall other | other in t.claims ensures Holds(t, other, t.claims[other]) {
      assert Holds(s, other, s.claims[other]);
    }
    forall j | j in t.hot ensures RowTimed(t, j) {
      assert RowTimed(s, j);
    }
  }

  /** A stale lock has no holder any more. */
  lemma ReleaseKeepsTimed(s: State)
    requires Timed(s)
    ensures Timed(Apply(s, Release))
  {
    var t := Apply(s, Release);
    forall c | c in t.claims ensures Holds(t, c, t.claims[c]) {
      assert Holds(s, c, s.claims[c]);
    }
    forall id | id in t.hot ensures RowTimed(t, id) {
      assert RowTimed(s, id);
      if s.history[id].holder.Some? {
        assert Holds(s, s.history[id].holder.value, s.claims[s.history[id].holder.value]);
      }
    }
  }

  lemma TimedStep(s: State, step: Step)
    requires Timed(s) && Enabled(s, step) && WithinLock(s, step)
    ensures Timed(Apply(s, step))
  {
    match step
    case Take(c, w, id) => TakeKeepsTimed(s, c, w, id);
    case Fail(c, structural) => FailKeepsTimed(s, c, structural);
    case Complete(c) => CompleteKeepsTimed(s, c);
    case Crash(c) => CrashKeepsTimed(s, c);
    case Release => ReleaseKeepsTimed(s);
    case Publish(id, key) => PublishKeepsTimed(s, id, key);
    case Select(run, ids) => SelectKeepsTimed(s, run, ids);
    case Handled(c) => HandledKeepsTimed(s, c);
    case _ => QuietKeepsTimed(s, step);
  }

  lemma HandledOnRow(h: History)
    ensures forall row :: Counted(row, h) ==> Counted(row, h.(succeeded := true))
    ensures forall row :: Spaced(row, h) ==> Spaced(row, h.(succeeded := true))
  {
  }

  lemma HandledKeepsTimed(s: State, c: ClaimId)
    requires Timed(s) && Enabled(s, Handled(c))
    ensures Timed(Apply(s, Handled(c)))
  {
    hide Counted, Spaced;
    var t := Apply(s, Handled(c));
    HandledOnRow(s.history[s.claims[c].row]);
    forall other | other in t.claims ensures Holds(t, other, t.claims[other]) {
      assert Holds(s, other, s.claims[other]);
    }
    forall id | id in t.hot ensures RowTimed(t, id) {
      assert RowTimed(s, id);
    }
  }

  lemma PublishKeepsTimed(s: State, id: RowId, key: string)
    requires Timed(s) && Enabled(s, Publish(id, key))
    ensures Timed(Apply(s, Publish(id, key)))
  {
    var t := Apply(s, Publish(id, key));
    forall c | c in t.claims ensures Holds(t, c, t.claims[c]) {
      assert Holds(s, c, s.claims[c]);
    }
    forall j | j in t.hot ensures RowTimed(t, j) {
      if j != id {
        assert RowTimed(s, j);
      }
    }
  }

  lemma SelectKeepsTimed(s: State, run: RunId, ids: seq<RowId>)
    requires Timed(s) && Enabled(s, Select(run, ids))
    ensures Timed(Apply(s, Select(run, ids)))
  {
    hide Counted, Spaced;
    var t := Apply(s, Select(run, ids));
    forall c | c in t.claims ensures Holds(t, c, t.claims[c]) {
      assert Holds(s, c, s.claims[c]);
    }
    forall id | id in t.hot ensures RowTimed(t, id) {
      assert RowTimed(s, id);
    }
    forall r | r in WithKeys(s, ids) ensures r.0 in s.hot && s.hot[r.0].status == COMPLETED && r.0 in s.history {
      var i :| 0 <= i < |ids| && WithKeys(s, ids)[i] == r;
      assert ids[i] in ids;
      assert RowTimed(s, ids[i]);
    }
  }

  lemma QuietKeepsTimed(s: State, step: Step)
    requires Timed(s) && Enabled(s, step) && WithinLock(s, step)
    requires !step.Take? && !step.Fail? && !step.Complete? && !step.Crash? && !step.Release?
    requires !step.Publish? && !step.Select? && !step.Handled?
    ensures Timed(Apply(s, step))
  {
    hide Counted, Spaced;
    var t := Apply(s, step);
    forall c | c in t.claims ensures Holds(t, c, t.claims[c]) {
      assert Holds(s, c, s.claims[c]);
      assert RowTimed(s, s.claims[c].row);
    }
    forall id | id in t.hot ensures RowTimed(t, id) {
      assert RowTimed(s, id);
    }
  }

  lemma {:induction false} TimedExecutions(states: seq<State>, steps: seq<Step>, k: nat)
    requires Execution(states, steps, true) && k <= |steps|
    ensures Timed(states[k])
  {
    if k > 0 {
      TimedExecutions(states, steps, k - 1);
      TimedStep(states[k - 1], steps[k - 1]);
    }
  }

  lemma ReachableIsTimed(s: State)
    requires Reachable(s, true)
    ensures Timed(s)
  {
    var states, steps :| Execution(states, steps, true) && states[|steps|] == s;
    TimedExecutions(states, steps, |steps|);
  }

  /** Mutual exclusion: a row has at most one live holder, that holder is the worker in its lock columns,
      and the lock has not expired. */
  lemma OneLiveHolder(s: State, c: ClaimId, d: ClaimId)
    requires Reachable(s, true) && c in s.claims && d in s.claims
    ensures s.claims[c].row == s.claims[d].row ==> c == d
    ensures var claim := s.claims[c];
            && claim.row in s.hot
            && s.hot[claim.row].lockedBy == Some(claim.worker)
            && s.hot[claim.row].lockedAt == Some(claim.claimedAt)
            && !Stale(s.hot[claim.row], s.now)
  {
    ReachableIsTimed(s);
    assert Holds(s, c, s.claims[c]) && Holds(s, d, s.claims[d]);
  }

  /** A row is claimed at most ten times more often than its claims are lost to crashes, and without
      structural errors its retry count is the number of recorded failures. */
  lemma AttemptsAreBounded(s: State, id: RowId)
    requires Reachable(s, true) && id in s.hot
    ensures id in s.history
    ensures s.history[id].claims <= 10 + s.history[id].crashes
    ensures !s.history[id].structural ==> s.hot[id].retryCount == s.history[id].failures
  {
    ReachableIsTimed(s);
    assert RowTimed(s, id);
  }

  lemma WaitedTenTimes()
    ensures Waited(10) == 810_000
  {
    assert Pow2(8) == 256 && Pow2(9) == 512;
    assert Waited(4) == 14_000;
    assert Waited(7) == 126_000;
    assert Waited(9) == 510_000;
  }

  /** Giving up takes time: an event that FAILED without a structural error failed exactly ten times, the
      last time at least 810 seconds after the first, also when stale locks were released in between. */
  lemma FailedNoEarlierThan(s: State, id: RowId)
    requires Reachable(s, true) && id in s.hot && s.hot[id].status == FAILED && id in s.history
    requires !s.history[id].structural
    ensures s.history[id].failures == 10
    ensures s.history[id].lastFailure - s.history[id].firstFailure >= 810_000
  {
    ReachableIsTimed(s);
    ReachableRetries(s, id);
    assert RowTimed(s, id);
    WaitedTenTimes();
  }

  lemma ReachableRetries(s: State, id: RowId)
    requires Reachable(s, true) && id in s.hot && s.hot[id].status == FAILED
    ensures s.hot[id].retryCount == 10
  {
    OutboxSafety.ReachableStatesAreSafe(s, true);
  }

  /** After failure k a row waits for 2, 4, 8, .., 256 and at last 300 seconds. */
  lemma RetryTimes(s: State, id: RowId)
    requires Reachable(s, true) && id in s.hot && s.hot[id].status == PENDING
    ensures id in s.history && s.history[id].failures <= 9
    ensures var h := s.history[id];
            h.failures >= 1 ==> s.hot[id].nextRetryAt == Some(h.lastFailure + RETRY_DELAYS[h.failures - 1])
  {
    ReachableIsTimed(s);
    assert RowTimed(s, id);
    if s.history[id].failures >= 1 {
      BackoffInNumbers(s.history[id].failures);
    }
  }

  /** Attempt k + 1 never starts earlier than that. */
  lemma BackoffIsRespected(s: State, c: ClaimId, w: WorkerId, id: RowId)
    requires Reachable(s, true) && Enabled(s, Take(c, w, id)) && s.history[id].failures >= 1
    ensures s.history[id].failures <= 9
    ensures s.now >= s.history[id].lastFailure + RETRY_DELAYS[s.history[id].failures - 1]
  {
    RetryTimes(s, id);
  }

  /** Within the lock timeout, completion is final until the janitor removes the row. */
  lemma CompletedIsFinal(s: State, step: Step, id: RowId)
    requires Reachable(s, true) && Enabled(s, step) && WithinLock(s, step)
    requires id in s.hot && s.hot[id].status == COMPLETED
    ensures id in Apply(s, step).hot ==> Apply(s, step).hot[id].status == COMPLETED
  {
    ReachableIsTimed(s);
    assert RowTimed(s, id);
  }

  /** Whatever the timing, a failure written by a claim that is still in some worker's memory is the only step that
      can undo a completion, and it always does. */
  lemma OnlyLateFailuresUndo(s: State, step: Step, id: RowId, timed: bool)
    requires Reachable(s, timed) && Enabled(s, step) && id in s.hot && s.hot[id].status == COMPLETED && id in Apply(s, step).hot
    ensures Apply(s, step).hot[id].status != COMPLETED <==> step.Fail? && s.claims[step.claim].row == id
  {
    OutboxSafety.ReachableStatesAreSafe(s, timed);
    hide NextBatch, WithKeys, HotKeys, Reachable;
  }

  /** Without the timing assumption it is not: settling has no lock guard, so a worker whose lock expired
      puts an event back to PENDING that another worker has completed. */
  lemma LateWriteUndoesCompletion()
    ensures exists s :: Reachable(s, false) && UndoesCompletion(s, 0, 0)
  {
    var s1 := FirstClaim(false);
    var s2 := SecondClaim(s1);
    var s3 := Apply(s2, Handled(1));
    ReachStep(s2, Handled(1), false);
    var s4 := Apply(s3, Complete(1));
    ReachStep(s3, Complete(1), false);
    assert Reachable(s4, false) && 0 in s4.claims && Enabled(s4, Fail(0, false)) && s4.claims[0].row == 0;
    assert s4.hot[0].status == COMPLETED && Apply(s4, Fail(0, false)).hot[0].status == PENDING;
  }

  ghost predicate UndoesCompletion(s: State, c: ClaimId, id: RowId) {
    && Enabled(s, Fail(c, false)) && s.claims[c].row == id
    && id in s.hot && s.hot[id].status == COMPLETED
    && Apply(s, Fail(c, false)).hot[id].status == PENDING
  }

  lemma FirstClaim(timed: bool) returns (s: State)
    ensures Reachable(s, timed) && s.claims == map[0 := Claim(1, 0, 0, 0, false)]
    ensures 0 in s.history && s.hot == map[0 := Row("k", MEDIUM, PROCESSING, 0, None, 0, Some(0), Some(1))] && s.now == 0
    ensures s.runs == map[] && s.archive == map[]
  {
    var s0 := Initial(0);
    var none: seq<Step> := [];
    assert Execution([s0], none, timed) && [s0][|none|] == s0;
    var s1 := Apply(s0, Publish(0, "k"));
    ReachStep(s0, Publish(0, "k"), timed);
    s := Apply(s1, Take(0, 1, 0));
    ReachStep(s1, Take(0, 1, 0), timed);
  }

  lemma SecondClaim(s: State) returns (t: State)
    requires Reachable(s, false) && s.claims == map[0 := Claim(1, 0, 0, 0, false)]
    requires 0 in s.history && s.hot == map[0 := Row("k", MEDIUM, PROCESSING, 0, None, 0, Some(0), Some(1))] && s.now == 0
    ensures Reachable(t, false) && 0 in t.history && 0 in t.hot && t.claims.Keys == {0, 1}
    ensures t.claims[0] == s.claims[0] && t.claims[1].row == 0 && t.hot[0].status == PROCESSING
  {
    var s1 := Apply(s, Tick(LOCK_TIMEOUT + 1));
    ReachStep(s, Tick(LOCK_TIMEOUT + 1), false);
    var s2 := Apply(s1, Release);
    ReachStep(s1, Release, false);
    t := Apply(s2, Take(1, 2, 0));
    ReachStep(s2, Take(1, 2, 0), false);
  }

  lemma ReachStep(s: State, step: Step, timed: bool)
    requires Reachable(s, timed) && Enabled(s, step) && (timed ==> WithinLock(s, step))
    ensures Reachable(Apply(s, step), timed)
  {
    hide Enabled, Apply, WithinLock;
    var states, steps :| Execution(states, steps, timed) && states[|steps|] == s;
    var t := Apply(s, step);
    assert Execution(states + [t], steps + [step], timed);
    assert (states + [t])[|steps + [step]|] == t;
  }
}
