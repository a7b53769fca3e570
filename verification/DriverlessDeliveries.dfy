/** Deliveries that are under way without a driver: that there are some, and exactly how they come about. */
module DriverlessDeliveries {
  import opened Options
  import opened IdempotencyKeys
  import opened DeliveryModel
  import opened DeliverySafety
  import opened DeliveryEvents
  import opened StaleSaves

  /** Assigned, picked up, in transit, failed or even delivered, and nobody's. */
  predicate Driverless(db: Tables, id: DeliveryId) {
    && id in db.deliveries && db.deliveries[id].driver.None?
    && db.deliveries[id].status != PENDING && db.deliveries[id].status != CANCELLED
  }

  /** Codes are given to deliveries with a driver only, and pending deliveries have none. */
  predicate Plausible(d: Delivery) {
    (d.otp.Some? ==> d.driver.Some?) && (d.status == PENDING ==> d.driver.None?)
  }

  predicate PlausibleDraft(draft: Draft) {
    && Plausible(draft.copy)
    && draft.copy.status != PENDING && draft.copy.status != DELIVERED && draft.copy.status != CANCELLED
    && (draft.purpose == NEW_CODE ==> draft.copy.driver.Some?)
  }

  ghost predicate AllPlausible(s: State) {
    && (forall id :: id in s.db.deliveries ==> Plausible(s.db.deliveries[id]))
    && (forall d :: d in s.drafts ==> PlausibleDraft(s.drafts[d]))
  }

  lemma CommitStaysPlausible(s: State, t: TxId, id: DeliveryId)
    requires Enabled(s, Commit(t)) && id in s.db.deliveries && Plausible(s.db.deliveries[id])
    ensures id in CommitEffect(s, t).deliveries && Plausible(CommitEffect(s, t).deliveries[id])
  {
    hide VendureEventType, Competitors, ExpireAll;
    match s.txs[t]
    case UpdateStatus(_, _, _) =>
    case _ =>
  }

  lemma CommitAddsNoDelivery(s: State, t: TxId)
    requires Enabled(s, Commit(t))
    ensures CommitEffect(s, t).deliveries.Keys == s.db.deliveries.Keys
  {
    hide VendureEventType, Competitors, ExpireAll;
    match s.txs[t]
    case UpdateStatus(_, _, _) =>
    case _ =>
  }

  lemma OthersStayPlausible(s: State, step: Step)
    requires AllPlausible(s) && Enabled(s, step) && !step.Commit?
    ensures AllPlausible(Apply(s, step))
  {
  }

  lemma PlausibleStep(s: State, step: Step)
    requires AllPlausible(s) && Enabled(s, step)
    ensures AllPlausible(Apply(s, step))
  {
    if step.Commit? {
      CommitAddsNoDelivery(s, step.tx);
      hide CommitEffect, Plausible, PlausibleDraft;
      forall id | id in s.db.deliveries ensures Plausible(CommitEffect(s, step.tx).deliveries[id]) {
        CommitStaysPlausible(s, step.tx, id);
      }
    } else {
      OthersStayPlausible(s, step);
    }
  }

  lemma {:induction false} ExecutionsPlausible(states: seq<State>, steps: seq<Step>, direct: bool, stale: bool, k: nat)
    requires Execution(states, steps, direct, stale) && k <= |steps|
    ensures AllPlausible(states[k])
  {
    hide Apply, Enabled;
    if k == 0 {
      assert AllPlausible(Initial(states[0].now));
    } else {
      ExecutionsPlausible(states, steps, direct, stale, k - 1);
      hide AllPlausible;
      PlausibleStep(states[k - 1], steps[k - 1]);
    }
  }

  lemma ReachableIsPlausible(s: State, direct: bool, stale: bool)
    requires Reachable(s, direct, stale)
    ensures AllPlausible(s)
  {
    hide AllPlausible;
    var states, steps :| Execution(states, steps, direct, stale) && states[|steps|] == s;
    ExecutionsPlausible(states, steps, direct, stale, |steps|);
  }

  /** The two ways into the defect: `updateStatus` marks a pending delivery ASSIGNED, or the SLA monitor writes back a
      copy that had no driver. */
  predicate LosesDriver(s: State, step: Step, id: DeliveryId)
    requires Enabled(s, step) && id in s.db.deliveries
  {
    || (step.Commit? && s.txs[step.tx].UpdateStatus? && s.txs[step.tx].delivery == id &&
        s.txs[step.tx].target == ASSIGNED && s.db.deliveries[id].status == PENDING)
    || (step.Save? && s.drafts[step.draft].delivery == id && s.drafts[step.draft].copy.driver.None?)
  }

  lemma CommitMakesDriverless(s: State, t: TxId, id: DeliveryId)
    requires Enabled(s, Commit(t)) && id in s.db.deliveries && Plausible(s.db.deliveries[id])
    requires !Driverless(s.db, id)
    ensures Driverless(CommitEffect(s, t), id) <==> LosesDriver(s, Commit(t), id)
  {
    hide VendureEventType, Competitors, ExpireAll;
    match s.txs[t]
    case UpdateStatus(e, target, _) => UpdateMakesDriverless(s.db, e, target, id);
    case _ =>
  }

  lemma UpdateMakesDriverless(db: Tables, e: DeliveryId, target: DeliveryStatus, id: DeliveryId)
    requires CheckUpdate(db, e, target).None? && target != PENDING
    requires id in db.deliveries && Plausible(db.deliveries[id]) && !Driverless(db, id)
    ensures Driverless(UpdateEffect(db, e, target), id) <==>
            e == id && target == ASSIGNED && db.deliveries[id].status == PENDING
  {
    hide VendureEventType;
  }

  /** In every run a delivery comes under way without a driver by exactly these steps. */
  lemma DriverlessExactlyBy(s: State, step: Step, id: DeliveryId, direct: bool, stale: bool)
    requires Reachable(s, direct, stale) && Enabled(s, step) && id in s.db.deliveries && !Driverless(s.db, id)
    ensures Driverless(Apply(s, step).db, id) <==> LosesDriver(s, step, id)
  {
    hide Reachable, Driverless, LosesDriver, Plausible, PlausibleDraft, Enabled, Apply;
    ReachableIsPlausible(s, direct, stale);
    if step.Commit? {
      CommitMakesDriverless(s, step.tx, id);
      CommitTables(s, step.tx);
    } else {
      OthersMakeDriverless(s, step, id);
    }
  }

  lemma CommitTables(s: State, t: TxId)
    requires Enabled(s, Commit(t))
    ensures Apply(s, Commit(t)).db == CommitEffect(s, t)
  {
    hide CommitEffect;
  }

  lemma OthersMakeDriverless(s: State, step: Step, id: DeliveryId)
    requires AllPlausible(s) && Enabled(s, step) && !step.Commit?
    requires id in s.db.deliveries && !Driverless(s.db, id)
    ensures Driverless(Apply(s, step).db, id) <==> LosesDriver(s, step, id)
  {
    assert step.Save? ==> PlausibleDraft(s.drafts[step.draft]);
  }

  /** A delivery is created with the status PENDING. */
  lemma NewDeliveriesAreNot(s: State, step: Step, id: DeliveryId)
    requires Enabled(s, step) && id !in s.db.deliveries
    ensures !Driverless(Apply(s, step).db, id)
  {
    if step.Commit? {
      CommitAddsNoDelivery(s, step.tx);
      hide CommitEffect;
    }
  }

  /** It does happen, in runs without `assignDriver` and without outdated saves too. */
  lemma DriverlessDeliveriesOccur()
    ensures exists s, id :: Reachable(s, false, false) && Driverless(s.db, id) && s.db.deliveries[id].status == ASSIGNED
  {
    var s := CreatedDelivery();
    UpdateRuns(s, 0, "d", ASSIGNED, false, false);
    var u := s.(db := UpdateEffect(s.db, "d", ASSIGNED));
    hide Reachable, VendureEventType;
    assert Driverless(u.db, "d");
  }

  /** Without `assignDriver` and without outdated saves only the status update is left. */
  lemma DriverlessOnlyByUpdate(s: State, step: Step, id: DeliveryId)
    requires Reachable(s, false, false) && Enabled(s, step) && Permitted(s, step, false, false)
    requires id in s.db.deliveries && !Driverless(s.db, id)
    ensures Driverless(Apply(s, step).db, id) <==>
            step.Commit? && s.txs[step.tx].UpdateStatus? && s.txs[step.tx].delivery == id &&
            s.txs[step.tx].target == ASSIGNED && s.db.deliveries[id].status == PENDING
  {
    hide Reachable, Safe, SameDriver, Orderly, Driverless, Plausible;
    DriverlessExactlyBy(s, step, id, false, false);
    ReachableWithoutDirect(s, false);
    ReachableIsPlausible(s, false, false);
    hide Apply;
    if step.Save? && s.drafts[step.draft].delivery == id {
      CopyHasDriver(s, step.draft);
    }
  }

  lemma CopyHasDriver(s: State, draft: DraftId)
    requires draft in s.drafts && DraftDriver(s, s.drafts[draft]) && PlausibleDraft(s.drafts[draft])
    requires UpToDate(s, draft) && !Driverless(s.db, s.drafts[draft].delivery)
    ensures s.drafts[draft].copy.driver.Some?
  {
  }

  lemma CreatedDelivery() returns (s: State)
    ensures Reachable(s, false, false) && s.txs == map[] && s.locks == map[]
    ensures "d" in s.db.journal && s.db.deliveries == map["d" := Delivery("o", PENDING, None, None)]
  {
    var s0 := Initial(0);
    var none: seq<Step> := [];
    assert Execution([s0], none, false, false) && [s0][|none|] == s0;
    s := Apply(s0, CreateDelivery("d", "o"));
    ReachStep(s0, CreateDelivery("d", "o"), false, false);
  }
}
