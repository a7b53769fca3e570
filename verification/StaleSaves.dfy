/** What a late save can undo: `generateDeliveryOtp` and the SLA monitor read deliveries without a lock and save all of
    them later. */
module StaleSaves {
  import opened Options
  import opened IdempotencyKeys
  import opened DeliveryModel
  import opened DeliverySafety
  import opened DeliveryEvents

  /** In the runs in which statuses progress, a save keeps them progressing exactly when the status has not changed
      since the delivery was read. */
  lemma SaveKeepsProgressExactlyWhenUpToDate(s: State, draft: DraftId, otp: Option<string>)
    requires Reachable(s, false, false) && Enabled(s, Save(draft, otp))
    ensures var id := s.drafts[draft].delivery;
            Increasing(Apply(s, Save(draft, otp)).db.journal[id]) <==> UpToDate(s, draft)
  {
    ReachableWithoutDirect(s, false);
    DraftsWereEntered(s, draft);
    var id, copy := s.drafts[draft].delivery, s.drafts[draft].copy;
    assert Tracked(s.db, id);
    var journal := s.db.journal[id];
    if !UpToDate(s, draft) {
      var after := Apply(s, Save(draft, otp)).db.journal[id];
      assert after == journal + [copy.status];
      var i :| 0 <= i < |journal| && journal[i] == copy.status;
      assert after[i] == after[|journal|];
    }
  }

  /** The status of a draft was entered before, in every run. */
  lemma DraftsWereEntered(s: State, draft: DraftId)
    requires Reachable(s, false, false) && draft in s.drafts
    ensures s.drafts[draft].delivery in s.db.journal
    ensures s.drafts[draft].copy.status in s.db.journal[s.drafts[draft].delivery]
  {
    hide Entered, Journalled;
    var states, steps :| Execution(states, steps, false, false) && states[|steps|] == s;
    ExecutionsJournal(states, steps, |steps|);
    EnteredDraft(s, draft);
  }

  ghost predicate Entered(db: Tables, draft: Draft) {
    draft.delivery in db.journal && draft.copy.status in db.journal[draft.delivery]
  }

  /** Every delivery's status, and the status of every draft, is in the journal. */
  ghost predicate Journalled(s: State) {
    && (forall id :: id in s.db.deliveries && id in s.db.journal ==> s.db.deliveries[id].status in s.db.journal[id])
    && (forall d :: d in s.drafts ==> Entered(s.db, s.drafts[d]))
  }

  lemma EnteredDraft(s: State, draft: DraftId)
    requires Journalled(s) && draft in s.drafts
    ensures s.drafts[draft].delivery in s.db.journal
    ensures s.drafts[draft].copy.status in s.db.journal[s.drafts[draft].delivery]
  {
  }

  /** Journals only grow, and by the status that the delivery then has. */
  ghost predicate Grows(db: Tables, after: Tables) {
    && (forall id :: id in db.journal ==> id in after.journal && db.journal[id] <= after.journal[id])
    && (forall id :: id in after.deliveries && id in after.journal ==>
          || after.deliveries[id].status in after.journal[id]
          || (id in db.deliveries && id in db.journal && after.deliveries[id].status == db.deliveries[id].status))
  }

  lemma EnterGrows(db: Tables, after: Tables, id: DeliveryId, d: Delivery)
    requires id in db.journal && after.deliveries == db.deliveries[id := d]
    requires after.journal == db.journal[id := db.journal[id] + [d.status]]
    ensures Grows(db, after)
  {
    forall e | e in after.deliveries && e in after.journal
      ensures
        || after.deliveries[e].status in after.journal[e]
        || (e in db.deliveries && e in db.journal && after.deliveries[e].status == db.deliveries[e].status)
    {
      if e == id {
        assert after.journal[id][|db.journal[id]|] == d.status;
      }
    }
  }

  lemma CommitGrows(s: State, t: TxId)
    requires Enabled(s, Commit(t))
    ensures Grows(s.db, CommitEffect(s, t))
  {
    hide VendureEventType, Grows;
    var db, after := s.db, CommitEffect(s, t);
    match s.txs[t]
    case AcceptOffer(o, _, _) =>
      var id := db.offers[o].delivery;
      EnterGrows(db, after, id, db.deliveries[id].(status := ASSIGNED, driver := Some(db.offers[o].driver)));
    case AssignDriver(id, driver, otp, _) =>
      EnterGrows(db, after, id, db.deliveries[id].(status := ASSIGNED, driver := Some(driver), otp := Some(otp)));
    case UpdateStatus(id, target, _) => UpdateGrows(db, id, target);
    case VerifyOtp(id, _, _, _) => OtpGrows(db, id);
  }

  lemma UpdateGrows(db: Tables, id: DeliveryId, target: DeliveryStatus)
    requires CheckUpdate(db, id, target).None?
    ensures Grows(db, UpdateEffect(db, id, target))
  {
    if db.deliveries[id].status != target {
      EnterGrows(db, UpdateEffect(db, id, target), id, db.deliveries[id].(status := target));
    }
  }

  lemma OtpGrows(db: Tables, id: DeliveryId)
    requires id in db.deliveries && id in db.journal
    ensures Grows(db, OtpEffect(db, id))
  {
    if db.deliveries[id].status != DELIVERED {
      EnterGrows(db, OtpEffect(db, id), id, db.deliveries[id].(status := DELIVERED, otp := None));
    }
  }

  lemma OthersGrow(s: State, step: Step)
    requires Enabled(s, step) && !step.Commit?
    ensures Grows(s.db, Apply(s, step).db)
  {
  }

  lemma GrowthKeepsJournalled(s: State, next: State)
    requires Journalled(s) && Grows(s.db, next.db)
    requires forall d :: d in next.drafts ==>
               (d in s.drafts && next.drafts[d] == s.drafts[d]) || Entered(next.db, next.drafts[d])
    ensures Journalled(next)
  {
  }

  lemma JournalStep(s: State, step: Step)
    requires Journalled(s) && Enabled(s, step)
    ensures Journalled(Apply(s, step))
  {
    hide Grows, Journalled, Entered, CommitEffect;
    if step.Commit? {
      CommitGrows(s, step.tx);
    } else {
      OthersGrow(s, step);
      if step.Load? {
        LoadedEntered(s, step.draft, step.id, step.purpose);
      }
    }
    GrowthKeepsJournalled(s, Apply(s, step));
  }

  lemma LoadedEntered(s: State, draft: DraftId, id: DeliveryId, purpose: Purpose)
    requires Journalled(s) && Enabled(s, Load(draft, id, purpose))
    ensures var next := Apply(s, Load(draft, id, purpose)); Entered(next.db, next.drafts[draft])
  {
  }

  lemma {:induction false} ExecutionsJournal(states: seq<State>, steps: seq<Step>, k: nat)
    requires Execution(states, steps, false, false) && k <= |steps|
    ensures Journalled(states[k])
  {
    hide Apply, Enabled;
    if k == 0 {
      assert Journalled(Initial(states[0].now));
    } else {
      ExecutionsJournal(states, steps, k - 1);
      hide Journalled;
      JournalStep(states[k - 1], steps[k - 1]);
    }
  }

  // --- a failing run ---

  function Started(s: State, t: TxId, id: DeliveryId, target: DeliveryStatus): State {
    s.(txs := s.txs[t := UpdateStatus(id, target, true)], locks := s.locks[DeliveryRow(id) := t])
  }

  lemma UpdateStarts(s: State, t: TxId, id: DeliveryId, target: DeliveryStatus, direct: bool, stale: bool)
    requires Reachable(s, direct, stale) && t !in s.txs && DeliveryRow(id) !in s.locks
    requires id in s.db.deliveries && id in s.db.journal
    ensures Reachable(Started(s, t, id, target), direct, stale)
  {
    var begin := Begin(t, UpdateStatus(id, target, false));
    var begun := Apply(s, begin);
    ReachStep(s, begin, direct, stale);
    ReachStep(begun, LockDelivery(t), direct, stale);
    hide Reachable;
    assert Apply(begun, LockDelivery(t)).txs == Started(s, t, id, target).txs;
  }

  /** A transaction that nothing disturbs updates the status and leaves no lock behind. */
  lemma UpdateRuns(s: State, t: TxId, id: DeliveryId, target: DeliveryStatus, direct: bool, stale: bool)
    requires Reachable(s, direct, stale) && t !in s.txs && DeliveryRow(id) !in s.locks
    requires CheckUpdate(s.db, id, target).None? && target != PENDING
    ensures Reachable(s.(db := UpdateEffect(s.db, id, target)), direct, stale)
  {
    UpdateStarts(s, t, id, target, direct, stale);
    ReachableIsSafe(s, direct, stale);
    assert t !in s.locks.Values;
    hide Reachable, Safe, UpdateEffect, CheckUpdate;
    var started := Started(s, t, id, target);
    ReachStep(started, Commit(t), direct, stale);
    Finished(s, t, id, target, UpdateEffect(s.db, id, target));
  }

  lemma Finished(s: State, t: TxId, id: DeliveryId, target: DeliveryStatus, db: Tables)
    requires t !in s.txs && t !in s.locks.Values && DeliveryRow(id) !in s.locks
    ensures Finish(Started(s, t, id, target), t, db) == s.(db := db)
  {
    var u := Finish(Started(s, t, id, target), t, db);
    assert u.txs == s.txs;
    forall r ensures r in u.locks <==> r in s.locks {
      assert r in s.locks ==> s.locks[r] in s.locks.Values;
    }
    assert u.locks == s.locks;
  }

  /** A status update, as the only change of the tables that matters here. */
  lemma PickedUp(db: Tables, id: DeliveryId)
    requires id in db.deliveries && id in db.journal && db.deliveries[id].status == ASSIGNED
    ensures CheckUpdate(db, id, PICKED_UP).None?
    ensures var after, key := UpdateEffect(db, id, PICKED_UP), OrderKey(VendureEventType(PICKED_UP), db.deliveries[id].sellerOrderId);
            && id in after.deliveries && after.deliveries[id].status == PICKED_UP
            && after.deliveries[id].sellerOrderId == db.deliveries[id].sellerOrderId
            && id in after.journal && after.journal[id] == db.journal[id] + [PICKED_UP]
            && key in after.published
            && (key in db.published ==> after.swallowed == db.swallowed + [key])
  {
    hide VendureEventType;
  }

  lemma PutBack(db: Tables, id: DeliveryId, copy: Delivery, otp: Option<string>)
    requires id in db.deliveries && id in db.journal && copy.status == ASSIGNED != db.deliveries[id].status
    ensures var after := SaveEffect(db, id, copy, otp);
            && id in after.deliveries && after.deliveries[id].status == ASSIGNED
            && after.deliveries[id].sellerOrderId == copy.sellerOrderId
            && id in after.journal && after.journal[id] == db.journal[id] + [ASSIGNED]
            && after.published == db.published
  {
  }

  /** Any delivery that is assigned and not locked: read it, pick it up, save, pick it up again. The second event is
      dropped and the journal repeats a status. */
  lemma StaleSaveRepeatsStatus(s: State, id: DeliveryId, t: TxId, draft: DraftId, purpose: Purpose, otp: Option<string>)
    returns (u: State)
    requires Reachable(s, false, true) && t !in s.txs && draft !in s.drafts && DeliveryRow(id) !in s.locks
    requires id in s.db.deliveries && id in s.db.journal && s.db.deliveries[id].status == ASSIGNED
    requires purpose == NEW_CODE ==> s.db.deliveries[id].driver.Some?
    requires otp.Some? <==> purpose == NEW_CODE
    ensures Reachable(u, false, true)
    ensures u.db.swallowed != [] &&
            u.db.swallowed[|u.db.swallowed| - 1] ==
            OrderKey(VendureEventType(PICKED_UP), s.db.deliveries[id].sellerOrderId)
    ensures id in u.db.journal && !Increasing(u.db.journal[id])
  {
    var picked := PickedUpInBetween(s, id, t, draft, purpose);
    var back := SavedBack(picked, id, draft, s.db.deliveries[id], otp);
    hide UpdateEffect, VendureEventType, Reachable;
    PickedUp(back.db, id);
    UpdateRuns(back, t, id, PICKED_UP, false, true);
    u := back.(db := UpdateEffect(back.db, id, PICKED_UP));
    var i := |s.db.journal[id]|;
    assert u.db.journal[id][i] == PICKED_UP == u.db.journal[id][i + 2];
  }

  lemma PickedUpInBetween(s: State, id: DeliveryId, t: TxId, draft: DraftId, purpose: Purpose) returns (picked: State)
    requires Reachable(s, false, true) && t !in s.txs && draft !in s.drafts && DeliveryRow(id) !in s.locks
    requires id in s.db.deliveries && id in s.db.journal && s.db.deliveries[id].status == ASSIGNED
    requires purpose == NEW_CODE ==> s.db.deliveries[id].driver.Some?
    ensures Reachable(picked, false, true) && picked.txs == s.txs && picked.locks == s.locks
    ensures draft in picked.drafts && picked.drafts[draft] == Draft(id, s.db.deliveries[id], purpose)
    ensures id in picked.db.deliveries && picked.db.deliveries[id].status == PICKED_UP
    ensures id in picked.db.journal && picked.db.journal[id] == s.db.journal[id] + [PICKED_UP]
    ensures OrderKey(VendureEventType(PICKED_UP), s.db.deliveries[id].sellerOrderId) in picked.db.published
  {
    hide UpdateEffect, VendureEventType, Reachable;
    var read := Apply(s, Load(draft, id, purpose));
    ReachStep(s, Load(draft, id, purpose), false, true);
    PickedUp(s.db, id);
    UpdateRuns(read, t, id, PICKED_UP, false, true);
    picked := read.(db := UpdateEffect(s.db, id, PICKED_UP));
  }

  lemma SavedBack(picked: State, id: DeliveryId, draft: DraftId, copy: Delivery, otp: Option<string>)
    returns (back: State)
    requires Reachable(picked, false, true) && DeliveryRow(id) !in picked.locks
    requires id in picked.db.deliveries && id in picked.db.journal && picked.db.deliveries[id].status != ASSIGNED
    requires draft in picked.drafts && picked.drafts[draft].delivery == id && picked.drafts[draft].copy == copy
    requires copy.status == ASSIGNED && (otp.Some? <==> picked.drafts[draft].purpose == NEW_CODE)
    ensures Reachable(back, false, true) && back.txs == picked.txs && back.locks == picked.locks
    ensures id in back.db.deliveries && back.db.deliveries[id].status == ASSIGNED
    ensures back.db.deliveries[id].sellerOrderId == copy.sellerOrderId
    ensures id in back.db.journal && back.db.journal[id] == picked.db.journal[id] + [ASSIGNED]
    ensures back.db.published == picked.db.published
  {
    hide SaveEffect, Reachable;
    PutBack(picked.db, id, copy, otp);
    back := Apply(picked, Save(draft, otp));
    ReachStep(picked, Save(draft, otp), false, true);
  }

  // --- such deliveries occur ---

  ghost predicate OneOffered(s: State) {
    && s.db.deliveries == map["d" := Delivery("o", PENDING, None, None)] && s.db.journal.Keys == {"d"}
    && s.db.offers == map[0 := Offer("d", "r", OFFERED, 0)]
    && s.now == 0 && s.txs == map[] && s.locks == map[] && s.drafts == map[]
  }

  lemma OfferedDelivery() returns (s: State)
    ensures Reachable(s, false, true) && OneOffered(s)
  {
    var s0 := Initial(0);
    var none: seq<Step> := [];
    assert Execution([s0], none, false, true) && [s0][|none|] == s0;
    var create, offer := CreateDelivery("d", "o"), CreateOffer(0, "d", "r", 0);
    var s1 := Apply(s0, create);
    ReachStep(s0, create, false, true);
    s := Apply(s1, offer);
    ReachStep(s1, offer, false, true);
  }

  ghost predicate OneLocked(s: State) {
    && s.db.deliveries == map["d" := Delivery("o", PENDING, None, None)] && s.db.journal.Keys == {"d"}
    && s.db.offers == map[0 := Offer("d", "r", OFFERED, 0)]
    && s.txs == map[0 := AcceptOffer(0, "r", DeliveryLocked)] && s.drafts == map[]
    && s.locks == map[OfferRow(0) := 0, DeliveryRow("d") := 0]
  }

  lemma LockedDelivery(s: State) returns (u: State)
    requires Reachable(s, false, true) && OneOffered(s)
    ensures Reachable(u, false, true) && OneLocked(u)
  {
    var begin := Begin(0, AcceptOffer(0, "r", Stage.Started));
    var s1 := Apply(s, begin);
    ReachStep(s, begin, false, true);
    var s2 := Apply(s1, LockOffer(0));
    ReachStep(s1, LockOffer(0), false, true);
    u := Apply(s2, LockDelivery(0));
    ReachStep(s2, LockDelivery(0), false, true);
    hide Reachable;
  }

  lemma AssignedDelivery(s: State) returns (u: State)
    requires Reachable(s, false, true) && OneLocked(s)
    ensures Reachable(u, false, true) && u.txs == map[] && u.locks == map[] && u.drafts == map[]
    ensures "d" in u.db.deliveries && "d" in u.db.journal
    ensures u.db.deliveries["d"].status == ASSIGNED && u.db.deliveries["d"].driver.Some?
  {
    hide VendureEventType;
    ReachStep(s, Commit(0), false, true);
    u := Apply(s, Commit(0));
    hide Reachable;
    assert u.locks == map[];
  }

  /** Such deliveries are reachable, so without `assignDriver` events do get swallowed; here it is the SLA monitor that
      saves an outdated copy. */
  lemma StaleSavesSwallowEvents()
    ensures exists s, id :: Reachable(s, false, true) && s.db.swallowed != [] && RepeatsStatus(s.db, id)
  {
    var offered := OfferedDelivery();
    var locked := LockedDelivery(offered);
    var ready := AssignedDelivery(locked);
    var u := StaleSaveRepeatsStatus(ready, "d", 0, 0, SLA_BREACH, None);
    assert RepeatsStatus(u.db, "d");
  }

  ghost predicate RepeatsStatus(db: Tables, id: DeliveryId) {
    id in db.journal && !Increasing(db.journal[id])
  }

  // --- leaving FAILED ---

  /** The transition table has no way out of FAILED: a delivery leaves it exactly when a code is verified, a driver is
      assigned, or a save puts back an earlier status. */
  lemma LeavingFailed(s: State, step: Step, id: DeliveryId)
    requires Enabled(s, step) && id in s.db.deliveries && s.db.deliveries[id].status == DeliveryStatus.FAILED
    ensures id in Apply(s, step).db.deliveries
    ensures Apply(s, step).db.deliveries[id].status != DeliveryStatus.FAILED <==>
            || (step.Commit? && (s.txs[step.tx].VerifyOtp? || s.txs[step.tx].AssignDriver?) && s.txs[step.tx].delivery == id)
            || (step.Save? && s.drafts[step.draft].delivery == id &&
                s.drafts[step.draft].copy.status != DeliveryStatus.FAILED)
  {
    hide VendureEventType;
    if step.Commit? {
      CommitLeavesFailed(s, step.tx, id);
    }
  }

  lemma CommitLeavesFailed(s: State, t: TxId, id: DeliveryId)
    requires Enabled(s, Commit(t)) && id in s.db.deliveries && s.db.deliveries[id].status == DeliveryStatus.FAILED
    ensures id in CommitEffect(s, t).deliveries
    ensures CommitEffect(s, t).deliveries[id].status != DeliveryStatus.FAILED <==>
            (s.txs[t].VerifyOtp? || s.txs[t].AssignDriver?) && s.txs[t].delivery == id
  {
    hide VendureEventType, Competitors, ExpireAll;
    match s.txs[t]
    case UpdateStatus(e, target, _) => assert e == id ==> UpdateEffect(s.db, e, target) == s.db;
    case _ =>
  }
}
