/** The outbox protocol as a state machine: publishers, any number of workers that claim, run and settle
    events, stale-lock release, crashes, and the janitor that moves completed events to the archive
    (outbox.worker.ts, outbox.service.ts, outbox-janitor.service.ts). Times are in milliseconds. */
module OutboxModel {
  import opened Options

  const MAX_RETRIES: nat := 10
  const LOCK_TIMEOUT: nat := 120_000
  const ARCHIVE_AGE: nat := 3_600_000
  const BATCH_SIZE: nat := 100

  datatype Status = PENDING | PROCESSING | COMPLETED | FAILED

  datatype Priority = HIGH | MEDIUM | LOW

  type RowId = nat
  type WorkerId = nat
  type ClaimId = nat
  type RunId = nat

  datatype Row = Row(
    key: string, priority: Priority, status: Status, retryCount: nat, nextRetryAt: Option<int>,
    createdAt: int, lockedAt: Option<int>, lockedBy: Option<WorkerId>)

  /** A row held in a worker's memory: the retry count is the one read when it was claimed. */
  datatype Claim = Claim(worker: WorkerId, row: RowId, retryCount: nat, claimedAt: int, succeeded: bool)

  /** What happened to a row so far. `holder` is the claim taken last, until it settles or is lost. */
  datatype History = History(
    succeeded: bool, claims: nat, failures: nat, completions: nat, crashes: nat, structural: bool,
    firstFailure: int, lastFailure: int, holder: Option<ClaimId>)

  /** A janitor run: the rows it selected, with their keys, and how many it has archived. */
  datatype ArchiveRun = ArchiveRun(selected: seq<(RowId, string)>, saved: nat)

  datatype State = State(
    now: int,
    hot: map<RowId, Row>,
    claims: map<ClaimId, Claim>,
    history: map<RowId, History>,
    archive: map<string, int>,       // key -> archivedAt
    runs: map<RunId, ArchiveRun>,
    published: set<string>,          // every key ever committed
    purged: set<string>)             // keys removed for good after the retention period

  datatype Step =
    | Tick(dt: nat)
    | Publish(id: RowId, key: string)
    | Release
    | Take(claim: ClaimId, worker: WorkerId, id: RowId)
    | Handled(claim: ClaimId)
    | Complete(claim: ClaimId)
    | Fail(claim: ClaimId, structural: bool)
    | Crash(claim: ClaimId)
    | Select(run: RunId, ids: seq<RowId>)
    | SaveBatch(run: RunId)
    | Delete(run: RunId)
    | Abandon(run: RunId)
    | Purge(before: int)

  // --- the SQL statements, on one row ---

  function Pow2(n: nat): nat {
    if n == 0 then 1 else 2 * Pow2(n - 1)
  }

  /** The delays after the first to the ninth failure, in milliseconds. */
  const RETRY_DELAYS: seq<nat> := [2_000, 4_000, 8_000, 16_000, 32_000, 64_000, 128_000, 256_000, 300_000]

  /** Exponential backoff, at most five minutes. */
  function Backoff(retryCount: nat): nat {
    1000 * if Pow2(retryCount) < 300 then Pow2(retryCount) else 300
  }

  predicate Stale(row: Row, now: int) {
    row.status == PROCESSING && row.lockedAt.Some? && row.lockedAt.value < now - LOCK_TIMEOUT
  }

  predicate Claimable(row: Row, now: int) {
    && row.status == PENDING
    && (row.nextRetryAt.None? || row.nextRetryAt.value <= now)
    && row.lockedAt.None?
  }

  function Unlock(row: Row, status: Status): Row {
    row.(status := status, lockedAt := None, lockedBy := None)
  }

  function Lock(row: Row, worker: WorkerId, now: int): Row {
    row.(status := PROCESSING, lockedAt := Some(now), lockedBy := Some(worker))
  }

  function ReleaseStale(hot: map<RowId, Row>, now: int): map<RowId, Row> {
    map id | id in hot :: if Stale(hot[id], now) then Unlock(hot[id], PENDING) else hot[id]
  }

  function FailedRow(row: Row, claimedRetries: nat, structural: bool, now: int): Row {
    var retryCount := if structural then MAX_RETRIES else claimedRetries + 1;
    if retryCount >= MAX_RETRIES then Unlock(row, FAILED).(retryCount := retryCount)
    else Unlock(row, PENDING).(retryCount := retryCount, nextRetryAt := Some(now + Backoff(retryCount)))
  }

  /** One failure in numbers: nine retries with growing delays, then FAILED. */
  lemma FailureInNumbers(row: Row, claimedRetries: nat, structural: bool, now: int)
    ensures var r := FailedRow(row, claimedRetries, structural, now);
            if structural || claimedRetries >= 9 then
              r == row.(status := FAILED, retryCount := if structural then 10 else claimedRetries + 1,
                        lockedAt := None, lockedBy := None)
            else
              r == row.(status := PENDING, retryCount := claimedRetries + 1,
                        nextRetryAt := Some(now + RETRY_DELAYS[claimedRetries]), lockedAt := None, lockedBy := None)
  {
    if claimedRetries < 9 {
      BackoffInNumbers(claimedRetries + 1);
    }
  }

  lemma BackoffInNumbers(failures: nat)
    requires 1 <= failures <= 9
    ensures Backoff(failures) == RETRY_DELAYS[failures - 1]
  {
    assert Pow2(4) == 16 && Pow2(8) == 256 && Pow2(9) == 512;
  }

  // --- the steps ---

  function Initial(now: int): State {
    State(now, map[], map[], map[], map[], map[], {}, {})
  }

  function HotKeys(s: State): set<string> {
    set id | id in s.hot :: s.hot[id].key
  }

  function Keys(rows: seq<(RowId, string)>): set<string> {
    set r | r in rows :: r.1
  }

  function Ids(rows: seq<(RowId, string)>): set<RowId> {
    set r | r in rows :: r.0
  }

  predicate Distinct(rows: seq<(RowId, string)>) {
    forall i, j :: 0 <= i < j < |rows| ==> rows[i].1 != rows[j].1
  }

  /** The next slice of at most `BATCH_SIZE` selected rows. */
  function NextBatch(run: ArchiveRun): seq<(RowId, string)>
    requires run.saved <= |run.selected|
  {
    if run.saved + BATCH_SIZE <= |run.selected|
    then run.selected[run.saved..run.saved + BATCH_SIZE] else run.selected[run.saved..]
  }

  predicate Enabled(s: State, step: Step) {
    match step
    case Tick(_) => true
    case Publish(id, key) => id !in s.history && key !in HotKeys(s)
    case Release => true
    case Take(c, _, id) => c !in s.claims && id in s.hot && id in s.history && Claimable(s.hot[id], s.now)
    case Handled(c) => c in s.claims && s.claims[c].row in s.history
    case Complete(c) => c in s.claims && s.claims[c].row in s.history && s.claims[c].succeeded
    case Fail(c, _) => c in s.claims && s.claims[c].row in s.history
    case Crash(c) => c in s.claims && s.claims[c].row in s.history
    case Select(run, ids) =>
      && run !in s.runs
      && (forall i, j :: 0 <= i < j < |ids| ==> ids[i] != ids[j])
      && forall id | id in ids :: id in s.hot && s.hot[id].status == COMPLETED && s.hot[id].createdAt < s.now - ARCHIVE_AGE
    case SaveBatch(run) =>
      && run in s.runs && s.runs[run].saved < |s.runs[run].selected|
      && Keys(NextBatch(s.runs[run])) !! s.archive.Keys && Distinct(NextBatch(s.runs[run]))
    case Delete(run) => run in s.runs && s.runs[run].saved == |s.runs[run].selected|
    case Abandon(run) => run in s.runs
    case Purge(_) => true
  }

  function WithKeys(s: State, ids: seq<RowId>): (r: seq<(RowId, string)>)
    requires forall id | id in ids :: id in s.hot
    ensures |r| == |ids|
    ensures forall i :: 0 <= i < |r| ==> r[i] == (ids[i], s.hot[ids[i]].key)
  {
    if ids == [] then [] else [(ids[0], s.hot[ids[0]].key)] + WithKeys(s, ids[1..])
  }

  /** A claim leaves its worker's memory. */
  function Settle(h: History, c: ClaimId): History {
    if h.holder == Some(c) then h.(holder := None) else h
  }

  function RecordFailure(h: History, structural: bool, now: int): History {
    h.(failures := h.failures + 1,
       structural := h.structural || structural,
       firstFailure := if h.failures == 0 then now else h.firstFailure,
       lastFailure := now)
  }

  function Apply(s: State, step: Step): State
    requires Enabled(s, step)
  {
    match step
    case Tick(dt) => s.(now := s.now + dt)
    case Publish(id, key) =>
      s.(hot := s.hot[id := Row(key, MEDIUM, PENDING, 0, None, s.now, None, None)],
         history := s.history[id := History(false, 0, 0, 0, 0, false, 0, 0, None)],
         published := s.published + {key})
    case Release => s.(hot := ReleaseStale(s.hot, s.now))
    case Take(c, w, id) =>
      var h := s.history[id];
      s.(hot := s.hot[id := Lock(s.hot[id], w, s.now)],
         claims := s.claims[c := Claim(w, id, s.hot[id].retryCount, s.now, false)],
         history := s.history[id := h.(claims := h.claims + 1, holder := Some(c))])
    case Handled(c) =>
      var claim := s.claims[c];
      s.(claims := s.claims[c := claim.(succeeded := true)],
         history := s.history[claim.row := s.history[claim.row].(succeeded := true)])
    case Complete(c) =>
      var id := s.claims[c].row;
      var h := Settle(s.history[id], c);
      if id !in s.hot then s.(claims := s.claims - {c}, history := s.history[id := h])
      else s.(hot := s.hot[id := Unlock(s.hot[id], COMPLETED)],
              claims := s.claims - {c},
              history := s.history[id := h.(completions := h.completions + 1)])
    case Fail(c, structural) =>
      var id := s.claims[c].row;
      var h := Settle(s.history[id], c);
      if id !in s.hot then s.(claims := s.claims - {c}, history := s.history[id := h])
      else s.(hot := s.hot[id := FailedRow(s.hot[id], s.claims[c].retryCount, structural, s.now)],
              claims := s.claims - {c},
              history := s.history[id := RecordFailure(h, structural, s.now)])
    case Crash(c) =>
      var id := s.claims[c].row;
      var h := Settle(s.history[id], c);
      s.(claims := s.claims - {c}, history := s.history[id := h.(crashes := h.crashes + 1)])
    case Select(run, ids) => s.(runs := s.runs[run := ArchiveRun(WithKeys(s, ids), 0)])
    case SaveBatch(run) =>
      var batch := NextBatch(s.runs[run]);
      s.(archive := s.archive + map k | k in Keys(batch) :: s.now,
         runs := s.runs[run := s.runs[run].(saved := s.runs[run].saved + |batch|)])
    case Delete(run) => s.(hot := s.hot - Ids(s.runs[run].selected), runs := s.runs - {run})
    case Abandon(run) => s.(runs := s.runs - {run})
    case Purge(before) =>
      var expired := set k | k in s.archive && s.archive[k] < before;
      s.(archive := s.archive - expired, purged := s.purged + expired)
  }

  /** The timing assumption: the clock never passes the lock timeout of a claim still in some worker's
      memory, so each claim is settled or lost to a crash within its lock. */
  predicate WithinLock(s: State, step: Step) {
    step.Tick? ==> forall c :: c in s.claims ==> s.now + step.dt <= s.claims[c].claimedAt + LOCK_TIMEOUT
  }

  // --- runs ---

  ghost predicate Execution(states: seq<State>, steps: seq<Step>, timed: bool) {
    && |states| == |steps| + 1
    && states[0] == Initial(states[0].now)
    && forall i :: 0 <= i < |steps| ==>
         && Enabled(states[i], steps[i]) && states[i + 1] == Apply(states[i], steps[i])
         && (timed ==> WithinLock(states[i], steps[i]))
  }

  ghost predicate Reachable(s: State, timed: bool) {
    exists states, steps :: Execution(states, steps, timed) && states[|steps|] == s
  }
}
