/** What every interleaving of delivery transactions keeps. */
module DeliverySafety {
  import opened Options
  import opened IdempotencyKeys
  import opened DeliveryModel

  function Count(assignments: seq<Assignment>, offer: OfferId): nat {
    if assignments == [] then 0
    else
      var last := |assignments| - 1;
      Count(assignments[..last], offer) + if assignments[last].offer == offer then 1 else 0
  }

  predicate IsAccepted(db: Tables, o: OfferId) {
    o in db.offers && db.offers[o].status == ACCEPTED
  }

  /** The committed tables: an accepted offer has its delivery, no other accepted offer shares it, and the
      assignments made for an offer number one if it is accepted and none otherwise. */
  ghost predicate Consistent(db: Tables) {
    && (forall o :: IsAccepted(db, o) ==>
          && db.offers[o].delivery in db.deliveries
          && db.deliveries[db.offers[o].delivery].driver.Some?
          && db.deliveries[db.offers[o].delivery].status != PENDING)
    && (forall o, p :: IsAccepted(db, o) && IsAccepted(db, p) && db.offers[o].delivery == db.offers[p].delivery ==> o == p)
    && (forall o :: Count(db.assignments, o) == if IsAccepted(db, o) then 1 else 0)
    && (forall id :: id in db.deliveries && db.deliveries[id].driver.Some? ==> db.deliveries[id].status != PENDING)
  }

  predicate Owns(s: State, t: TxId, r: Lockable) {
    r in s.locks && s.locks[r] == t
  }

  /** What a transaction has checked stays true, because it owns the rows it has checked. */
  ghost predicate Protected(s: State, t: TxId, tx: Tx) {
    match tx
    case AcceptOffer(o, driver, stage) =>
      stage != Started ==>
        && Owns(s, t, OfferRow(o)) && o in s.db.offers
        && s.db.offers[o].status == OFFERED && s.db.offers[o].driver == driver
        && (stage == DeliveryLocked ==>
              && Owns(s, t, DeliveryRow(s.db.offers[o].delivery))
              && CheckAssignable(s.db, s.db.offers[o].delivery).None?)
    case _ => tx.locked ==> Owns(s, t, DeliveryRow(tx.delivery)) && tx.delivery in s.db.deliveries
  }

  /** A delivery is read when it is not pending any more. It never is again, so no offer for it can be accepted later,
      and one accepted before is in the copy. */
  ghost predicate Backed(s: State, draft: Draft) {
    && draft.delivery in s.db.deliveries
    && draft.copy.status != PENDING && s.db.deliveries[draft.delivery].status != PENDING
    && draft.copy.sellerOrderId == s.db.deliveries[draft.delivery].sellerOrderId
    && (forall o :: IsAccepted(s.db, o) && s.db.offers[o].delivery == draft.delivery ==> draft.copy.driver.Some?)
  }

  ghost predicate Safe(s: State) {
    && Consistent(s.db)
    && (forall d :: d in s.drafts ==> Backed(s, s.drafts[d]))
    && (forall t :: t in s.txs ==> Protected(s, t, s.txs[t]))
    && (forall r :: r in s.locks ==> s.locks[r] in s.txs)
  }

  // --- the tables ---

  lemma AcceptKeepsConsistent(db: Tables, offer: OfferId, expiring: set<OfferId>)
    requires Consistent(db) && offer in db.offers && db.offers[offer].status == OFFERED
    requires CheckAssignable(db, db.offers[offer].delivery).None?
    requires expiring <= Competitors(db, offer)
    ensures Consistent(AcceptEffect(db, offer, expiring))
  {
    hide AcceptEffect, Competitors, Count;
    AcceptChanges(db, offer, expiring);
    var after := AcceptEffect(db, offer, expiring);
    CountsAfterAccept(db.assignments, after.assignments, offer);
    assert forall o :: IsAccepted(db, o) ==> db.offers[o].delivery != db.offers[offer].delivery;
  }

  lemma CountsAfterAccept(before: seq<Assignment>, after: seq<Assignment>, offer: OfferId)
    requires |after| == |before| + 1 && after[..|before|] == before && after[|before|].offer == offer
    ensures forall o :: Count(after, o) == Count(before, o) + if o == offer then 1 else 0
  {
  }

  lemma AcceptChanges(db: Tables, offer: OfferId, expiring: set<OfferId>)
    requires offer in db.offers && db.offers[offer].status == OFFERED
    requires CheckAssignable(db, db.offers[offer].delivery).None?
    requires expiring <= Competitors(db, offer)
    ensures var after := AcceptEffect(db, offer, expiring);
            && after.offers.Keys == db.offers.Keys
            && (forall o :: IsAccepted(after, o) <==> o == offer || IsAccepted(db, o))
            && (forall o :: o in db.offers ==> after.offers[o].delivery == db.offers[o].delivery)
            && |after.assignments| == |db.assignments| + 1 && after.assignments[..|db.assignments|] == db.assignments
            && after.assignments[|db.assignments|].offer == offer
            && after.deliveries.Keys == db.deliveries.Keys && db.offers[offer].delivery in after.deliveries
            && after.deliveries[db.offers[offer].delivery].driver.Some?
            && after.deliveries[db.offers[offer].delivery].status == ASSIGNED
            && forall id :: id in db.deliveries && id != db.offers[offer].delivery ==>
                 id in after.deliveries && after.deliveries[id] == db.deliveries[id]
  {
    var after := AcceptEffect(db, offer, expiring);
    forall o ensures IsAccepted(after, o) <==> o == offer || IsAccepted(db, o) {
    }
  }

  /** No offer, no assignment and at most one delivery changes; drivers are not removed, and PENDING is not re-entered. */
  ghost predicate Moves(db: Tables, after: Tables, delivery: DeliveryId) {
    && after.offers == db.offers && after.assignments == db.assignments
    && after.deliveries.Keys == db.deliveries.Keys && after.journal.Keys == db.journal.Keys
    && (forall id :: id in db.deliveries && id != delivery ==> after.deliveries[id] == db.deliveries[id])
    && (delivery in db.deliveries ==>
          && after.deliveries[delivery].sellerOrderId == db.deliveries[delivery].sellerOrderId
          && (db.deliveries[delivery].driver.Some? ==> after.deliveries[delivery].driver.Some?)
          && (db.deliveries[delivery].status != PENDING ==> after.deliveries[delivery].status != PENDING)
          && (after.deliveries[delivery].status == PENDING ==>
                after.deliveries[delivery].driver == db.deliveries[delivery].driver))
  }

  lemma PlainCommitMoves(s: State, t: TxId)
    requires Enabled(s, Commit(t)) && !s.txs[t].AcceptOffer?
    ensures Moves(s.db, CommitEffect(s, t), s.txs[t].delivery)
  {
    match s.txs[t]
    case AssignDriver(id, driver, otp, _) => assert Moves(s.db, AssignEffect(s.db, id, driver, otp), id);
    case UpdateStatus(id, target, _) => UpdateMoves(s.db, id, target);
    case VerifyOtp(id, _, _, _) => assert Moves(s.db, OtpEffect(s.db, id), id);
  }

  lemma UpdateMoves(db: Tables, id: DeliveryId, target: DeliveryStatus)
    requires CheckUpdate(db, id, target).None? && target != PENDING
    ensures Moves(db, UpdateEffect(db, id, target), id)
  {
  }

  lemma SaveKeepsConsistent(s: State, draft: DraftId, otp: Option<string>)
    requires Consistent(s.db) && Enabled(s, Save(draft, otp)) && Backed(s, s.drafts[draft])
    ensures Consistent(Apply(s, Save(draft, otp)).db)
  {
    hide Count;
    assert forall o :: IsAccepted(Apply(s, Save(draft, otp)).db, o) <==> IsAccepted(s.db, o);
  }

  lemma MovesKeepConsistent(db: Tables, after: Tables, delivery: DeliveryId)
    requires Consistent(db) && Moves(db, after, delivery)
    ensures Consistent(after)
  {
    hide Count;
    assert forall o :: IsAccepted(after, o) <==> IsAccepted(db, o);
  }

  // --- the steps ---

  lemma CommitKeepsConsistent(s: State, t: TxId)
    requires Safe(s) && Enabled(s, Commit(t))
    ensures Consistent(CommitEffect(s, t))
  {
    assert Protected(s, t, s.txs[t]);
    hide Consistent;
    if s.txs[t].AcceptOffer? {
      AcceptKeepsConsistent(s.db, s.txs[t].offer, LockedCompetitors(s, t, s.txs[t].offer));
    } else {
      PlainCommitMoves(s, t);
      MovesKeepConsistent(s.db, CommitEffect(s, t), s.txs[t].delivery);
    }
  }

  /** No delivery disappears, changes its order or becomes pending again, and offers get accepted for pending deliveries
      only. */
  ghost predicate KeepsStarted(db: Tables, after: Tables) {
    && (forall id :: id in db.deliveries ==>
          && id in after.deliveries && after.deliveries[id].sellerOrderId == db.deliveries[id].sellerOrderId
          && (db.deliveries[id].status != PENDING ==> after.deliveries[id].status != PENDING))
    && (forall o :: IsAccepted(after, o) && after.offers[o].delivery in db.deliveries &&
                    db.deliveries[after.offers[o].delivery].status != PENDING ==>
          IsAccepted(db, o) && db.offers[o].delivery == after.offers[o].delivery)
  }

  lemma BackedElsewhere(s: State, next: State)
    requires KeepsStarted(s.db, next.db) && forall d :: d in s.drafts ==> Backed(s, s.drafts[d])
    ensures forall d :: d in s.drafts ==> Backed(next, s.drafts[d])
  {
  }

  lemma CommitKeepsStarted(s: State, t: TxId)
    requires Enabled(s, Commit(t)) && (s.txs[t].AcceptOffer? ==> s.db.offers[s.txs[t].offer].status == OFFERED)
    ensures KeepsStarted(s.db, CommitEffect(s, t))
  {
    hide KeepsStarted, AcceptEffect, AssignEffect, UpdateEffect, OtpEffect, Moves;
    if s.txs[t].AcceptOffer? {
      AcceptKeepsStarted(s.db, s.txs[t].offer, LockedCompetitors(s, t, s.txs[t].offer));
    } else {
      PlainCommitMoves(s, t);
      MovesKeepStarted(s.db, CommitEffect(s, t), s.txs[t].delivery);
    }
  }

  lemma AcceptKeepsStarted(db: Tables, offer: OfferId, expiring: set<OfferId>)
    requires offer in db.offers && db.offers[offer].status == OFFERED
    requires CheckAssignable(db, db.offers[offer].delivery).None?
    requires expiring <= Competitors(db, offer)
    ensures KeepsStarted(db, AcceptEffect(db, offer, expiring))
  {
    AcceptChanges(db, offer, expiring);
    AcceptTouches(db, offer, expiring);
    var id := db.offers[offer].delivery;
    assert AcceptEffect(db, offer, expiring).deliveries[id].sellerOrderId == db.deliveries[id].sellerOrderId;
    hide AcceptEffect, Competitors;
  }

  lemma MovesKeepStarted(db: Tables, after: Tables, delivery: DeliveryId)
    requires Moves(db, after, delivery)
    ensures KeepsStarted(db, after)
  {
  }

  lemma CommitKeepsSafe(s: State, t: TxId)
    requires Safe(s) && Enabled(s, Commit(t))
    ensures Safe(Apply(s, Commit(t)))
  {
    assert Protected(s, t, s.txs[t]);
    hide Consistent, CommitEffect, Protected, Backed, KeepsStarted;
    CommitKeepsConsistent(s, t);
    CommitKeepsStarted(s, t);
    var next := Apply(s, Commit(t));
    BackedElsewhere(s, next);
    forall u | u in next.txs ensures Protected(next, u, next.txs[u]) {
      OthersStayProtected(s, t, u);
    }
  }

  /** The effect touches at most the given offers and one delivery, and removes no row. */
  ghost predicate Touches(db: Tables, after: Tables, offers: set<OfferId>, delivery: DeliveryId) {
    && after.offers.Keys == db.offers.Keys
    && (forall o :: o in db.offers ==> after.offers[o].delivery == db.offers[o].delivery)
    && (forall o :: o in db.offers && o !in offers ==> after.offers[o] == db.offers[o])
    && after.deliveries.Keys == db.deliveries.Keys && after.journal.Keys == db.journal.Keys
    && (forall id :: id in db.deliveries && id != delivery ==> after.deliveries[id] == db.deliveries[id])
  }

  lemma AcceptTouches(db: Tables, offer: OfferId, expiring: set<OfferId>)
    requires offer in db.offers && CheckAssignable(db, db.offers[offer].delivery).None?
    requires expiring <= Competitors(db, offer)
    ensures Touches(db, AcceptEffect(db, offer, expiring), expiring + {offer}, db.offers[offer].delivery)
  {
  }

  lemma PlainCommitTouches(s: State, t: TxId)
    requires Enabled(s, Commit(t)) && !s.txs[t].AcceptOffer?
    ensures Touches(s.db, CommitEffect(s, t), {}, s.txs[t].delivery)
  {
    PlainCommitMoves(s, t);
    hide CommitEffect;
  }

  /** A commit changes only rows that its transaction has locked. */
  lemma CommitFrame(s: State, t: TxId) returns (offers: set<OfferId>, delivery: DeliveryId)
    requires Safe(s) && Enabled(s, Commit(t))
    ensures Touches(s.db, CommitEffect(s, t), offers, delivery)
    ensures Owns(s, t, DeliveryRow(delivery)) && forall o :: o in offers ==> Owns(s, t, OfferRow(o))
  {
    hide Consistent, Touches, AcceptEffect, AssignEffect, UpdateEffect, OtpEffect;
    var tx := s.txs[t];
    assert Protected(s, t, tx);
    if tx.AcceptOffer? {
      var expiring := LockedCompetitors(s, t, tx.offer);
      AcceptTouches(s.db, tx.offer, expiring);
      return expiring + {tx.offer}, s.db.offers[tx.offer].delivery;
    }
    PlainCommitTouches(s, t);
    return {}, tx.delivery;
  }

  lemma OthersStayProtected(s: State, t: TxId, u: TxId)
    requires Safe(s) && Enabled(s, Commit(t)) && u in s.txs && u != t
    ensures Protected(Apply(s, Commit(t)), u, s.txs[u])
  {
    hide Enabled, CommitEffect, CheckUpdate, Consistent;
    assert Protected(s, u, s.txs[u]);
    var offers, delivery := CommitFrame(s, t);
    var next := Apply(s, Commit(t));
    assert forall r :: Owns(s, u, r) ==> Owns(next, u, r) && !Owns(s, t, r);
  }

  lemma SafeStep(s: State, step: Step)
    requires Safe(s) && Enabled(s, step)
    ensures Safe(Apply(s, step))
  {
    if step.Commit? {
      CommitKeepsSafe(s, step.tx);
    } else {
      hide Protected, Consistent, Backed, KeepsStarted;
      var next := Apply(s, step);
      OtherStepsConsistent(s, step);
      OtherStepsBacked(s, step);
      forall u | u in next.txs ensures Protected(next, u, next.txs[u]) {
        OtherStepsProtect(s, step, u);
      }
    }
  }

  lemma OtherStepsKeepStarted(s: State, step: Step)
    requires Enabled(s, step) && !step.Commit? && (step.Save? ==> Backed(s, s.drafts[step.draft]))
    ensures KeepsStarted(s.db, Apply(s, step).db)
  {
  }

  lemma OtherStepsBacked(s: State, step: Step)
    requires Safe(s) && Enabled(s, step) && !step.Commit?
    ensures forall d :: d in Apply(s, step).drafts ==> Backed(Apply(s, step), Apply(s, step).drafts[d])
  {
    var next := Apply(s, step);
    OtherStepsKeepStarted(s, step);
    BackedElsewhere(s, next);
    if step.Load? {
      LoadedIsBacked(s, step.draft, step.id, step.purpose);
    }
    hide Protected, Consistent, Backed, KeepsStarted;
  }

  lemma LoadedIsBacked(s: State, draft: DraftId, id: DeliveryId, purpose: Purpose)
    requires Consistent(s.db) && Enabled(s, Load(draft, id, purpose))
    ensures var next := Apply(s, Load(draft, id, purpose)); Backed(next, next.drafts[draft])
  {
  }

  lemma OffersKeepConsistent(db: Tables, after: Tables)
    requires Consistent(db) && after.assignments == db.assignments
    requires forall o :: IsAccepted(after, o) ==> IsAccepted(db, o)
    requires forall o :: IsAccepted(db, o) ==> IsAccepted(after, o) && after.offers[o] == db.offers[o]
    requires forall id :: id in db.deliveries ==> id in after.deliveries && after.deliveries[id] == db.deliveries[id]
    requires forall id :: id in after.deliveries && id !in db.deliveries ==> after.deliveries[id].driver.None?
    ensures Consistent(after)
  {
    hide Count;
  }

  lemma OtherStepsConsistent(s: State, step: Step)
    requires Safe(s) && Enabled(s, step) && !step.Commit?
    ensures Consistent(Apply(s, step).db)
  {
    hide Protected, Count, Consistent;
    match step
    case CreateOffer(_, _, _, _) => OffersKeepConsistent(s.db, Apply(s, step).db);
    case ExpireOffer(_) => OffersKeepConsistent(s.db, Apply(s, step).db);
    case CreateDelivery(_, _) => OffersKeepConsistent(s.db, Apply(s, step).db);
    case Save(draft, otp) => SaveKeepsConsistent(s, draft, otp);
    case ArchiveEvents(_) => OffersKeepConsistent(s.db, Apply(s, step).db);
    case _ =>
  }

  /** Steps outside transactions leave locked rows alone. */
  lemma RowStepsProtect(s: State, step: Step, u: TxId)
    requires u in s.txs && Protected(s, u, s.txs[u]) && Enabled(s, step)
    requires step.Tick? || step.CreateDelivery? || step.CreateOffer? || step.ExpireOffer? || step.ArchiveEvents?
             || step.Load? || step.Save? || step.DropDraft?
    ensures u in Apply(s, step).txs && Protected(Apply(s, step), u, s.txs[u])
  {
  }

  /** Beginning, locking and aborting change no row, and no lock of another transaction. */
  lemma LockStepsProtect(s: State, step: Step, u: TxId)
    requires u in s.txs ==> Protected(s, u, s.txs[u])
    requires Enabled(s, step) && u in Apply(s, step).txs
    requires step.Begin? || step.LockOffer? || step.LockDelivery? || step.LockCompetitor? || step.Abort?
    ensures Protected(Apply(s, step), u, Apply(s, step).txs[u])
  {
  }

  lemma OtherStepsProtect(s: State, step: Step, u: TxId)
    requires Safe(s) && Enabled(s, step) && !step.Commit? && u in Apply(s, step).txs
    ensures Protected(Apply(s, step), u, Apply(s, step).txs[u])
  {
    assert u in s.txs ==> Protected(s, u, s.txs[u]);
    if step.Begin? || step.LockOffer? || step.LockDelivery? || step.LockCompetitor? || step.Abort? {
      LockStepsProtect(s, step, u);
    } else {
      RowStepsProtect(s, step, u);
    }
  }

  // --- what a completed operation leaves behind ---

  /** Once an offer is accepted with all its competitors expired, its delivery has no open offer any more, offers for
      other deliveries are as before, and exactly its driver has become busy. */
  lemma NothingLeftToAccept(db: Tables, offer: OfferId, driver: DriverId, now: int)
    requires CheckOffer(db, offer, driver, now).None? && CheckAssignable(db, db.offers[offer].delivery).None?
    ensures var after := AcceptEffect(db, offer, Competitors(db, offer));
            && IsAccepted(after, offer) && after.busy == db.busy + {driver}
            && (forall o :: o in after.offers && after.offers[o].delivery == db.offers[offer].delivery ==>
                  after.offers[o].status != OFFERED)
            && (forall o :: o in db.offers && db.offers[o].delivery != db.offers[offer].delivery ==>
                  o in after.offers && after.offers[o] == db.offers[o])
            && forall o, d, t :: o in after.offers && after.offers[o].delivery == db.offers[offer].delivery ==>
                 CheckOffer(after, o, d, t).Some?
  {
  }

  /** A repeated status update or code verification is accepted and changes nothing. */
  lemma RepeatsChangeNothing(db: Tables, id: DeliveryId, target: DeliveryStatus, otp: string, near: bool)
    ensures CheckUpdate(db, id, target).None? ==>
              var after := UpdateEffect(db, id, target);
              CheckUpdate(after, id, target).None? && UpdateEffect(after, id, target) == after
    ensures CheckOtp(db, id, otp, near).None? ==>
              var after := OtpEffect(db, id);
              && CheckOtp(after, id, otp, near).None? && OtpEffect(after, id) == after
              && (db.deliveries[id].status != DELIVERED ==> after.deliveries[id].otp.None?)
  {
  }

  // --- every reachable state ---

  lemma {:induction false} ExecutionsAreSafe(states: seq<State>, steps: seq<Step>, direct: bool, stale: bool, k: nat)
    requires Execution(states, steps, direct, stale) && k <= |steps|
    ensures Safe(states[k])
  {
    if k > 0 {
      ExecutionsAreSafe(states, steps, direct, stale, k - 1);
      SafeStep(states[k - 1], steps[k - 1]);
    }
  }

  lemma ReachableIsSafe(s: State, direct: bool, stale: bool)
    requires Reachable(s, direct, stale)
    ensures Safe(s)
  {
    var states, steps :| Execution(states, steps, direct, stale) && states[|steps|] == s;
    ExecutionsAreSafe(states, steps, direct, stale, |steps|);
  }

  /** Under any interleaving with aborts, and with `assignDriver` running too: no delivery has two accepted
      offers, each accepted offer has exactly one assignment made for it and no other offer has any, and
      an accepted delivery has a driver and is no longer pending. */
  lemma OneAcceptedOffer(s: State, direct: bool, stale: bool, o: OfferId, p: OfferId)
    requires Reachable(s, direct, stale)
    ensures IsAccepted(s.db, o) && IsAccepted(s.db, p) && s.db.offers[o].delivery == s.db.offers[p].delivery ==> o == p
    ensures Count(s.db.assignments, o) == if IsAccepted(s.db, o) then 1 else 0
    ensures IsAccepted(s.db, o) ==>
              && s.db.offers[o].delivery in s.db.deliveries
              && s.db.deliveries[s.db.offers[o].delivery].driver.Some?
              && s.db.deliveries[s.db.offers[o].delivery].status != PENDING
  {
    ReachableIsSafe(s, direct, stale);
  }
}
