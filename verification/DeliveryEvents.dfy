/** Status progress and published events in runs without `assignDriver`, and what that operation breaks. */
module DeliveryEvents {
  import opened Options
  import opened IdempotencyKeys
  import opened DeliveryModel
  import opened DeliverySafety

  /** Grows along every transition; `verifyOtp` may deliver from any other status. */
  function Rank(s: DeliveryStatus): nat {
    match s
    case PENDING => 0
    case ASSIGNED => 1
    case PICKED_UP => 2
    case IN_TRANSIT => 3
    case FAILED => 4
    case CANCELLED => 4
    case DELIVERED => 5
  }

  predicate Increasing(journal: seq<DeliveryStatus>) {
    forall i, j :: 0 <= i < j < |journal| ==> Rank(journal[i]) < Rank(journal[j])
  }

  function Orders(db: Tables): set<string> {
    set d | d in db.deliveries :: db.deliveries[d].sellerOrderId
  }

  /** The journal of a delivery ends in its status, and its order events belong to statuses it entered. */
  ghost predicate Tracked(db: Tables, id: DeliveryId) {
    && id in db.deliveries && id in db.journal && db.journal[id] != []
    && db.journal[id][|db.journal[id]| - 1] == db.deliveries[id].status
    && Increasing(db.journal[id])
    && (forall st :: IsVendureStatus(st) && OrderKey(VendureEventType(st), db.deliveries[id].sellerOrderId) in db.published ==>
                       st in db.journal[id])
    && (forall k :: k in db.published && k.DriverKey? && k.deliveryId == id ==> ASSIGNED in db.journal[id])
  }

  ghost predicate Orderly(db: Tables) {
    && (forall id :: id in db.deliveries || id in db.journal ==> Tracked(db, id))
    && (forall d, e :: d in db.deliveries && e in db.deliveries && d != e ==>
                         db.deliveries[d].sellerOrderId != db.deliveries[e].sellerOrderId)
    && (forall k :: k in db.published && k.OrderKey? ==> k.sellerOrderId in Orders(db))
    && (forall k :: k in db.published && k.DriverKey? ==> k.deliveryId in db.deliveries)
    && db.swallowed == []
  }

  ghost predicate SameDriver(db: Tables) {
    forall o :: IsAccepted(db, o) ==>
      && db.offers[o].delivery in db.deliveries
      && db.deliveries[db.offers[o].delivery].driver == Some(db.offers[o].driver)
  }

  /** Runs without `assignDriver`: a driver once set stays, also in the copies of deliveries that were read. */
  ghost predicate WithoutDirect(s: State) {
    && Safe(s) && SameDriver(s.db) && (forall t :: t in s.txs ==> !s.txs[t].AssignDriver?)
    && (forall d :: d in s.drafts ==> DraftDriver(s, s.drafts[d]))
  }

  ghost predicate DraftDriver(s: State, draft: Draft) {
    draft.delivery in s.db.deliveries && draft.copy.driver == s.db.deliveries[draft.delivery].driver
  }

  lemma EventTypesDiffer(s: DeliveryStatus, t: DeliveryStatus)
    requires IsVendureStatus(s) && IsVendureStatus(t)
    ensures VendureEventType(s) == VendureEventType(t) <==> s == t
  {
    assert |VendureEventType(ASSIGNED)| == 20 && |VendureEventType(PICKED_UP)| == 28
      && |VendureEventType(DELIVERED)| == 29 && |VendureEventType(FAILED)| == 18 && |VendureEventType(CANCELLED)| == 21;
  }

  lemma AppendIncreasing(journal: seq<DeliveryStatus>, s: DeliveryStatus)
    requires journal != [] && Increasing(journal) && Rank(journal[|journal| - 1]) < Rank(s)
    ensures Increasing(journal + [s]) && s !in journal
  {
  }

  /** Entering a status of higher rank keeps the tables orderly, and its event is not swallowed. */
  lemma EnterAndPublish(db: Tables, id: DeliveryId, d: Delivery)
    requires Orderly(db) && id in db.deliveries
    requires Rank(db.deliveries[id].status) < Rank(d.status) && d.sellerOrderId == db.deliveries[id].sellerOrderId
    ensures id in db.journal && Orderly(Enter(db, id, d))
    ensures IsVendureStatus(d.status) ==>
              var key := OrderKey(VendureEventType(d.status), d.sellerOrderId);
              key !in db.published && Orderly(Announce(Enter(db, id, d), id, d))
    ensures d.status == ASSIGNED ==> forall r: DriverId ::
              var key := DriverKey(VendureEventType(ASSIGNED), id, r);
              key !in db.published && Orderly(Publish(Enter(db, id, d), key))
  {
    hide Orderly, Tracked, VendureEventType, Orders;
    NewStatus(db, id, d);
    var entered := Enter(db, id, d);
    EnterKeepsOrderly(db, id, d);
    if IsVendureStatus(d.status) {
      var key := OrderKey(VendureEventType(d.status), d.sellerOrderId);
      PublishKeepsOrderly(entered, id, key);
      SameProgress(Publish(entered, key), Announce(entered, id, d));
    }
    if d.status == ASSIGNED {
      forall r: DriverId
        ensures DriverKey(VendureEventType(ASSIGNED), id, r) !in db.published
        ensures Orderly(Publish(entered, DriverKey(VendureEventType(ASSIGNED), id, r)))
      {
        PublishKeepsOrderly(entered, id, DriverKey(VendureEventType(ASSIGNED), id, r));
      }
    }
  }

  /** A status of higher rank is new to the journal, so none of its keys is published. */
  lemma NewStatus(db: Tables, id: DeliveryId, d: Delivery)
    requires Orderly(db) && id in db.deliveries
    requires Rank(db.deliveries[id].status) < Rank(d.status) && d.sellerOrderId == db.deliveries[id].sellerOrderId
    ensures id in db.journal && Increasing(db.journal[id] + [d.status])
    ensures IsVendureStatus(d.status) ==> OrderKey(VendureEventType(d.status), d.sellerOrderId) !in db.published
    ensures d.status == ASSIGNED ==> forall r: DriverId :: DriverKey(VendureEventType(ASSIGNED), id, r) !in db.published
  {
    hide VendureEventType;
    assert Tracked(db, id);
    AppendIncreasing(db.journal[id], d.status);
  }

  lemma EnterKeepsOrderly(db: Tables, id: DeliveryId, d: Delivery)
    requires Orderly(db) && id in db.deliveries && id in db.journal
    requires d.sellerOrderId == db.deliveries[id].sellerOrderId && Increasing(db.journal[id] + [d.status])
    ensures Orderly(Enter(db, id, d))
  {
    hide Tracked, Orders;
    var after := Enter(db, id, d);
    SameOrders(db, after);
    forall j | j in after.deliveries || j in after.journal ensures Tracked(after, j) {
      EnterKeepsTracked(db, id, d, j);
    }
  }

  lemma EnterKeepsTracked(db: Tables, id: DeliveryId, d: Delivery, j: DeliveryId)
    requires id in db.journal && Tracked(db, id) && Tracked(db, j)
    requires d.sellerOrderId == db.deliveries[id].sellerOrderId && Increasing(db.journal[id] + [d.status])
    ensures Tracked(Enter(db, id, d), j)
  {
  }

  lemma SameOrders(db: Tables, after: Tables)
    requires db.deliveries.Keys == after.deliveries.Keys
    requires forall j :: j in db.deliveries ==> after.deliveries[j].sellerOrderId == db.deliveries[j].sellerOrderId
    ensures Orders(after) == Orders(db)
  {
    forall j | j in db.deliveries ensures db.deliveries[j].sellerOrderId in Orders(after) {
      assert after.deliveries[j].sellerOrderId == db.deliveries[j].sellerOrderId;
    }
  }

  lemma PublishKeepsOrderly(db: Tables, id: DeliveryId, key: KeyId)
    requires Orderly(db) && id in db.deliveries && key !in db.published
    requires db.deliveries[id].status in db.journal[id]
    requires
      || (IsVendureStatus(db.deliveries[id].status)
          && key == OrderKey(VendureEventType(db.deliveries[id].status), db.deliveries[id].sellerOrderId))
      || (key.DriverKey? && key.deliveryId == id && db.deliveries[id].status == ASSIGNED)
    ensures Orderly(Publish(db, key))
  {
    hide Tracked, Orders, VendureEventType;
    OrderlyAt(db, id, id);
    var after := Publish(db, key);
    SameOrders(db, after);
    forall j | j in after.deliveries || j in after.journal ensures Tracked(after, j) {
      OrderlyAt(db, id, j);
      PublishKeepsTracked(db, id, key, j);
    }
  }

  lemma OrderlyAt(db: Tables, id: DeliveryId, j: DeliveryId)
    requires Orderly(db) && id in db.deliveries && (j in db.deliveries || j in db.journal)
    ensures Tracked(db, id) && Tracked(db, j) && j in db.deliveries && db.deliveries[id].sellerOrderId in Orders(db)
    ensures db.deliveries[j].sellerOrderId == db.deliveries[id].sellerOrderId ==> j == id
  {
  }

  lemma PublishKeepsTracked(db: Tables, id: DeliveryId, key: KeyId, j: DeliveryId)
    requires Tracked(db, id) && Tracked(db, j) && key !in db.published
    requires db.deliveries[j].sellerOrderId == db.deliveries[id].sellerOrderId ==> j == id
    requires
      || (IsVendureStatus(db.deliveries[id].status)
          && key == OrderKey(VendureEventType(db.deliveries[id].status), db.deliveries[id].sellerOrderId))
      || (key.DriverKey? && key.deliveryId == id && db.deliveries[id].status == ASSIGNED)
    ensures Tracked(Publish(db, key), j)
  {
    hide VendureEventType;
    forall st | IsVendureStatus(st) && OrderKey(VendureEventType(st), db.deliveries[j].sellerOrderId) == key
      ensures st in db.journal[j]
    {
      EventTypesDiffer(st, db.deliveries[id].status);
    }
  }

  // --- the steps ---

  lemma AcceptKeepsOrderly(db: Tables, offer: OfferId, expiring: set<OfferId>)
    requires Orderly(db) && offer in db.offers && CheckAssignable(db, db.offers[offer].delivery).None?
    ensures Orderly(AcceptEffect(db, offer, expiring))
  {
    var o := db.offers[offer];
    var d := db.deliveries[o.delivery].(status := ASSIGNED, driver := Some(o.driver));
    EnterAndPublish(db, o.delivery, d);
    var key := DriverKey(VendureEventType(ASSIGNED), o.delivery, o.driver);
    var plain, full := Publish(Enter(db, o.delivery, d), key), AcceptEffect(db, offer, expiring);
    SameProgress(plain, full);
  }

  /** `Orderly` looks at statuses, seller orders, journals and keys only. */
  lemma SameProgress(db: Tables, after: Tables)
    requires Orderly(db)
    requires after.journal == db.journal && after.published <= db.published && after.swallowed == db.swallowed
    requires after.deliveries.Keys == db.deliveries.Keys
    requires forall j :: j in db.deliveries ==>
      && after.deliveries[j].status == db.deliveries[j].status
      && after.deliveries[j].sellerOrderId == db.deliveries[j].sellerOrderId
    ensures Orderly(after)
  {
    SameOrders(db, after);
    hide Tracked, Orders;
    forall j | j in after.deliveries || j in after.journal ensures Tracked(after, j) {
      OrderlyAt(db, j, j);
      SameProgressTracked(db, after, j);
    }
  }

  lemma SameProgressTracked(db: Tables, after: Tables, j: DeliveryId)
    requires Tracked(db, j) && j in after.deliveries
    requires after.journal == db.journal && after.published <= db.published
    requires after.deliveries[j].status == db.deliveries[j].status
    requires after.deliveries[j].sellerOrderId == db.deliveries[j].sellerOrderId
    ensures Tracked(after, j)
  {
  }

  lemma CommitKeepsOrderly(s: State, t: TxId)
    requires Orderly(s.db) && Enabled(s, Commit(t)) && !s.txs[t].AssignDriver?
    ensures Orderly(CommitEffect(s, t))
  {
    hide Orderly;
    match s.txs[t]
    case AcceptOffer(o, _, _) => AcceptKeepsOrderly(s.db, o, LockedCompetitors(s, t, o));
    case UpdateStatus(id, target, _) =>
      if s.db.deliveries[id].status != target {
        EnterAndPublish(s.db, id, s.db.deliveries[id].(status := target));
      }
    case VerifyOtp(id, _, _, _) =>
      if s.db.deliveries[id].status != DELIVERED {
        EnterAndPublish(s.db, id, s.db.deliveries[id].(status := DELIVERED, otp := None));
      }
  }

  lemma CreateKeepsOrderly(s: State, id: DeliveryId, order: string)
    requires Orderly(s.db) && Enabled(s, CreateDelivery(id, order))
    ensures Orderly(Apply(s, CreateDelivery(id, order)).db)
  {
    hide Tracked;
    var after := Apply(s, CreateDelivery(id, order)).db;
    OneMoreOrder(s.db, after, id);
    forall j | j in after.deliveries || j in after.journal ensures Tracked(after, j) {
      CreateKeepsTracked(s.db, after, id, j);
    }
  }

  lemma OneMoreOrder(db: Tables, after: Tables, id: DeliveryId)
    requires id in after.deliveries && after.deliveries == db.deliveries[id := after.deliveries[id]] && id !in db.deliveries
    ensures Orders(after) == Orders(db) + {after.deliveries[id].sellerOrderId}
  {
    forall j | j in db.deliveries ensures db.deliveries[j].sellerOrderId in Orders(after) {
      assert after.deliveries[j] == db.deliveries[j];
    }
  }

  lemma CreateKeepsTracked(db: Tables, after: Tables, id: DeliveryId, j: DeliveryId)
    requires id in after.deliveries && after.deliveries[id].status == PENDING
    requires after == db.(deliveries := db.deliveries[id := after.deliveries[id]], journal := db.journal[id := [PENDING]])
    requires after.deliveries[id].sellerOrderId !in Orders(db)
    requires forall k :: k in db.published && k.OrderKey? ==> k.sellerOrderId in Orders(db)
    requires forall k :: k in db.published && k.DriverKey? ==> k.deliveryId in db.deliveries
    requires id !in db.deliveries && (j != id ==> Tracked(db, j))
    ensures Tracked(after, j)
  {
  }

  lemma SaveKeepsOrderly(s: State, draft: DraftId, otp: Option<string>)
    requires Orderly(s.db) && Enabled(s, Save(draft, otp)) && Backed(s, s.drafts[draft]) && UpToDate(s, draft)
    ensures Orderly(Apply(s, Save(draft, otp)).db)
  {
    hide Orderly;
    SameProgress(s.db, Apply(s, Save(draft, otp)).db);
  }

  lemma OrderlyStep(s: State, step: Step)
    requires WithoutDirect(s) && Orderly(s.db) && Enabled(s, step) && Permitted(s, step, false, false)
    ensures Orderly(Apply(s, step).db)
  {
    hide Orderly, SameDriver, Consistent, Protected, Backed, DraftDriver;
    match step
    case Commit(t) => CommitKeepsOrderly(s, t);
    case CreateDelivery(id, order) => CreateKeepsOrderly(s, id, order);
    case Save(draft, otp) => SaveKeepsOrderly(s, draft, otp);
    case _ => SameProgress(s.db, Apply(s, step).db);
  }

  lemma KeepSameDriver(db: Tables, after: Tables)
    requires SameDriver(db)
    requires forall o :: IsAccepted(after, o) ==> IsAccepted(db, o) && after.offers[o] == db.offers[o]
    requires forall id :: id in db.deliveries ==>
               id in after.deliveries && after.deliveries[id].driver == db.deliveries[id].driver
    ensures SameDriver(after)
  {
    forall o | IsAccepted(after, o) ensures after.offers[o].delivery in after.deliveries
        && after.deliveries[after.offers[o].delivery].driver == Some(after.offers[o].driver) {
      assert IsAccepted(db, o);
    }
  }

  lemma AcceptKeepsSameDriver(db: Tables, offer: OfferId, expiring: set<OfferId>)
    requires Consistent(db) && SameDriver(db) && offer in db.offers
    requires CheckAssignable(db, db.offers[offer].delivery).None? && expiring <= Competitors(db, offer)
    ensures SameDriver(AcceptEffect(db, offer, expiring))
  {
    var after := AcceptEffect(db, offer, expiring);
    forall o | IsAccepted(after, o) ensures after.offers[o].delivery in after.deliveries
        && after.deliveries[after.offers[o].delivery].driver == Some(after.offers[o].driver) {
      if o != offer {
        assert IsAccepted(db, o) && db.offers[o].delivery != db.offers[offer].delivery;
      }
    }
  }

  lemma SameDriverStep(s: State, step: Step)
    requires WithoutDirect(s) && Enabled(s, step) && Permitted(s, step, false, true)
    ensures SameDriver(Apply(s, step).db)
  {
    hide SameDriver, Protected, Backed;
    if step.Commit? && s.txs[step.tx].AcceptOffer? {
      var offer := s.txs[step.tx].offer;
      AcceptKeepsSameDriver(s.db, offer, LockedCompetitors(s, step.tx, offer));
    } else if step.Commit? {
      CommitKeepsDrivers(s, step.tx);
      KeepSameDriver(s.db, CommitEffect(s, step.tx));
    } else {
      OtherStepsChangeNoDriver(s, step);
      KeepSameDriver(s.db, Apply(s, step).db);
    }
  }

  /** Outside commits no offer gets accepted and no delivery changes its driver; only a save changes a status. */
  lemma OtherStepsChangeNoDriver(s: State, step: Step)
    requires Enabled(s, step) && !step.Commit? && (step.Save? ==> DraftDriver(s, s.drafts[step.draft]))
    ensures var after := Apply(s, step).db;
            && (forall o :: IsAccepted(after, o) ==> IsAccepted(s.db, o) && after.offers[o] == s.db.offers[o])
            && (forall id :: id in s.db.deliveries ==>
                  && id in after.deliveries && after.deliveries[id].driver == s.db.deliveries[id].driver
                  && (after.deliveries[id].status == s.db.deliveries[id].status ||
                      (step.Save? && s.drafts[step.draft].delivery == id)))
  {
  }

  lemma CommitKeepsDrivers(s: State, t: TxId)
    requires Enabled(s, Commit(t)) && (s.txs[t].UpdateStatus? || s.txs[t].VerifyOtp?)
    ensures var after := CommitEffect(s, t);
            after.offers == s.db.offers && forall id :: id in s.db.deliveries ==>
              id in after.deliveries && after.deliveries[id].driver == s.db.deliveries[id].driver
  {
  }

  lemma DraftDriversStay(s: State, step: Step)
    requires WithoutDirect(s) && Enabled(s, step)
    ensures forall d :: d in Apply(s, step).drafts ==> DraftDriver(Apply(s, step), Apply(s, step).drafts[d])
  {
    hide SameDriver, Protected, Consistent;
    if step.Commit? {
      CommitDraftDrivers(s, step.tx);
      hide CommitEffect;
    } else {
      OtherStepsChangeNoDriver(s, step);
    }
  }

  /** A delivery that is not pending cannot be accepted, so no commit changes the driver of a draft's delivery. */
  lemma CommitDraftDrivers(s: State, t: TxId)
    requires Enabled(s, Commit(t)) && !s.txs[t].AssignDriver?
    ensures var after := CommitEffect(s, t);
            forall id :: id in s.db.deliveries && s.db.deliveries[id].status != PENDING ==>
              id in after.deliveries && after.deliveries[id].driver == s.db.deliveries[id].driver
  {
    if s.txs[t].AcceptOffer? {
      var offer := s.txs[t].offer;
      AcceptTouches(s.db, offer, LockedCompetitors(s, t, offer));
      hide AcceptEffect;
    } else {
      CommitKeepsDrivers(s, t);
    }
  }

  lemma WithoutDirectStep(s: State, step: Step)
    requires WithoutDirect(s) && Enabled(s, step) && Permitted(s, step, false, true)
    ensures WithoutDirect(Apply(s, step))
  {
    SafeStep(s, step);
    SameDriverStep(s, step);
    NoDirectStep(s, step);
    DraftDriversStay(s, step);
    hide Safe, SameDriver, DraftDriver, Apply, Enabled, Permitted;
  }

  lemma {:induction false} ExecutionsWithoutDirect(states: seq<State>, steps: seq<Step>, stale: bool, k: nat)
    requires Execution(states, steps, false, stale) && k <= |steps|
    ensures WithoutDirect(states[k]) && (!stale ==> Orderly(states[k].db))
  {
    hide WithoutDirect, Orderly, Apply, Enabled;
    if k == 0 {
      InitialWithoutDirect(states[0].now);
    } else {
      ExecutionsWithoutDirect(states, steps, stale, k - 1);
      var s, step := states[k - 1], steps[k - 1];
      WithoutDirectStep(s, step);
      if !stale {
        OrderlyStep(s, step);
      }
    }
  }

  lemma InitialWithoutDirect(now: int)
    ensures WithoutDirect(Initial(now)) && Orderly(Initial(now).db)
  {
  }

  lemma NoDirectStep(s: State, step: Step)
    requires Enabled(s, step) && Permitted(s, step, false, true)
    requires forall t :: t in s.txs ==> !s.txs[t].AssignDriver?
    ensures forall t :: t in Apply(s, step).txs ==> !Apply(s, step).txs[t].AssignDriver?
  {
  }

  lemma ReachableWithoutDirect(s: State, stale: bool)
    requires Reachable(s, false, stale)
    ensures WithoutDirect(s) && (!stale ==> Orderly(s.db))
  {
    hide WithoutDirect, Orderly;
    var states, steps :| Execution(states, steps, false, stale) && states[|steps|] == s;
    ExecutionsWithoutDirect(states, steps, stale, |steps|);
  }

  /** Without `assignDriver` and without a save of a delivery whose status has changed since it was read, a delivery
      enters each status at most once and no event of the delivery lifecycle is ever swallowed by deduplication. */
  lemma LifecycleEventsSurvive(s: State)
    requires Reachable(s, false, false)
    ensures s.db.swallowed == []
    ensures forall id :: id in s.db.deliveries ==>
              && id in s.db.journal && s.db.journal[id] != []
              && s.db.journal[id][|s.db.journal[id]| - 1] == s.db.deliveries[id].status
              && forall i, j :: 0 <= i < j < |s.db.journal[id]| ==> s.db.journal[id][i] != s.db.journal[id][j]
  {
    ReachableWithoutDirect(s, false);
    forall id | id in s.db.deliveries ensures Tracked(s.db, id) {
    }
  }

  /** Without `assignDriver` an accepted delivery keeps the driver of its accepted offer, whatever is written back. */
  lemma AcceptedDriverStays(s: State, stale: bool, o: OfferId)
    requires Reachable(s, false, stale) && IsAccepted(s.db, o)
    ensures s.db.offers[o].delivery in s.db.deliveries
    ensures s.db.deliveries[s.db.offers[o].delivery].driver == Some(s.db.offers[o].driver)
  {
    ReachableWithoutDirect(s, stale);
  }

  /** With `assignDriver` it is different: assigning a delivery again offers the key of the first assignment, so while
      the first ASSIGNED event is in the hot table the second one is swallowed, and the status is entered twice. */
  lemma ReassignmentIsSwallowed(db: Tables, id: DeliveryId, r1: DriverId, o1: string, r2: DriverId, o2: string)
    requires id in db.deliveries && id in db.journal
    ensures var once := AssignEffect(db, id, r1, o1);
            && id in once.deliveries && id in once.journal
            && AssignEffect(once, id, r2, o2).swallowed ==
               once.swallowed + [OrderKey("DELIVERY_ASSIGNED_V1", db.deliveries[id].sellerOrderId)]
            && !Increasing(AssignEffect(once, id, r2, o2).journal[id])
  {
    var twice := AssignEffect(AssignEffect(db, id, r1, o1), id, r2, o2);
    assert twice.journal[id] == db.journal[id] + [ASSIGNED] + [ASSIGNED];
    assert twice.journal[id][|db.journal[id]|] == ASSIGNED == twice.journal[id][|db.journal[id]| + 1];
  }

  /** `updateStatus` can mark a pending delivery ASSIGNED although it has no driver. Such a delivery never
      gets one without `assignDriver`: no offer for it can be accepted any more. */
  lemma AssignedWithoutDriverStaysWithout(s: State, stale: bool, step: Step, id: DeliveryId)
    requires Reachable(s, false, stale) && Enabled(s, step) && Permitted(s, step, false, stale)
    requires id in s.db.deliveries && s.db.deliveries[id].driver.None? && s.db.deliveries[id].status != PENDING
    ensures var after := Apply(s, step).db;
            id in after.deliveries && after.deliveries[id].driver.None? && after.deliveries[id].status != PENDING
  {
    hide Safe, SameDriver, CommitEffect, Reachable, DraftDriver, Backed;
    ReachableWithoutDirect(s, stale);
    if step.Commit? {
      DriverlessCommit(s, step.tx, id);
    } else {
      DriverlessStep(s, step, id);
    }
  }

  lemma DriverlessStep(s: State, step: Step, id: DeliveryId)
    requires WithoutDirect(s) && Enabled(s, step) && !step.Commit?
    requires id in s.db.deliveries && s.db.deliveries[id].driver.None? && s.db.deliveries[id].status != PENDING
    ensures var after := Apply(s, step).db;
            id in after.deliveries && after.deliveries[id].driver.None? && after.deliveries[id].status != PENDING
  {
    hide SameDriver, Consistent, Protected;
    assert step.Save? ==> Backed(s, s.drafts[step.draft]) && DraftDriver(s, s.drafts[step.draft]);
    OtherStepsChangeNoDriver(s, step);
    if step.Save? {
      assert Apply(s, step).db.deliveries[s.drafts[step.draft].delivery].status == s.drafts[step.draft].copy.status;
    }
    hide Apply, Enabled;
  }

  lemma DriverlessCommit(s: State, t: TxId, id: DeliveryId)
    requires Enabled(s, Commit(t)) && !s.txs[t].AssignDriver?
    requires id in s.db.deliveries && s.db.deliveries[id].driver.None? && s.db.deliveries[id].status != PENDING
    ensures var after := CommitEffect(s, t);
            id in after.deliveries && after.deliveries[id].driver.None? && after.deliveries[id].status != PENDING
  {
    if s.txs[t].AcceptOffer? {
      var offer := s.txs[t].offer;
      AcceptTouches(s.db, offer, LockedCompetitors(s, t, offer));
      hide AcceptEffect;
    } else {
      CommitKeepsDrivers(s, t);
      PlainCommitMoves(s, t);
      hide CommitEffect;
    }
  }
}
