/** How a delivery becomes DELIVERED, and what the transactions of the state machine need in order to commit. */
module DeliveryCompletion {
  import opened Options
  import opened IdempotencyKeys
  import opened DeliveryModel
  import opened DriverlessDeliveries
  import DeliveryStore

  predicate Known(db: Tables, id: DeliveryId) {
    id in db.deliveries && id in db.journal
  }

  lemma AcceptanceCommits(s: State, t: TxId)
    requires t in s.txs && s.txs[t].AcceptOffer?
    ensures Enabled(s, Commit(t)) <==>
            var tx := s.txs[t];
            && tx.stage == DeliveryLocked && tx.offer in s.db.offers
            && var id := s.db.offers[tx.offer].delivery;
            && Known(s.db, id) && s.db.deliveries[id].driver == None && s.db.deliveries[id].status == PENDING
  {
  }

  /** A status update commits for the moves of the table, and without effect for the status the delivery has. */
  lemma UpdateCommits(s: State, t: TxId)
    requires t in s.txs && s.txs[t].UpdateStatus?
    ensures Enabled(s, Commit(t)) <==>
            var tx := s.txs[t];
            && tx.locked && tx.target != PENDING && Known(s.db, tx.delivery)
            && var status := s.db.deliveries[tx.delivery].status;
            (status == tx.target || (status, tx.target) in DeliveryStore.MOVES)
  {
    var tx := s.txs[t];
    if Known(s.db, tx.delivery) {
      DeliveryStore.AllowedMoves(s.db.deliveries[tx.delivery].status, tx.target);
      hide AllowedTransitions, DeliveryStore.MOVES;
    }
  }

  /** A verification commits with the stored code near the destination, and without effect on what is delivered. */
  lemma VerificationCommits(s: State, t: TxId)
    requires t in s.txs && s.txs[t].VerifyOtp?
    ensures Enabled(s, Commit(t)) <==>
            var tx := s.txs[t];
            && tx.locked && Known(s.db, tx.delivery)
            && var d := s.db.deliveries[tx.delivery];
            (d.status == DELIVERED || (tx.near && d.otp == Some(tx.otp)))
  {
  }

  /** The row locks of an acceptance, in their order: its own open offer, the delivery, competing offers. */
  lemma AcceptanceLocks(s: State, t: TxId, other: OfferId)
    requires t in s.txs && s.txs[t].AcceptOffer?
    ensures Enabled(s, LockOffer(t)) <==>
            var tx := s.txs[t];
            && tx.stage == Started && OfferRow(tx.offer) !in s.locks && tx.offer in s.db.offers
            && s.db.offers[tx.offer].driver == tx.driver && s.db.offers[tx.offer].status == OFFERED
            && s.now <= s.db.offers[tx.offer].expiresAt
    ensures Enabled(s, LockDelivery(t)) <==>
            var tx := s.txs[t];
            && tx.stage == OfferLocked && tx.offer in s.db.offers
            && var id := s.db.offers[tx.offer].delivery;
            && DeliveryRow(id) !in s.locks && Known(s.db, id)
            && s.db.deliveries[id].driver == None && s.db.deliveries[id].status == PENDING
    ensures Enabled(s, LockCompetitor(t, other)) <==>
            var tx := s.txs[t];
            && tx.stage == DeliveryLocked && tx.offer in s.db.offers
            && OfferRow(other) !in s.locks && other in s.db.offers && other != tx.offer
            && s.db.offers[other].status == OFFERED && s.db.offers[other].delivery == s.db.offers[tx.offer].delivery
  {
  }

  /** The other transactions lock their delivery, whatever its state. */
  lemma OtherLocks(s: State, t: TxId)
    requires t in s.txs && !s.txs[t].AcceptOffer?
    ensures Enabled(s, LockDelivery(t)) <==>
            !s.txs[t].locked && DeliveryRow(s.txs[t].delivery) !in s.locks && Known(s.db, s.txs[t].delivery)
  {
  }

  /** A committing acceptance accepts its own offer and expires the competing ones that it has locked. */
  predicate ExpiredBy(s: State, t: TxId, o: OfferId)
    requires t in s.txs && s.txs[t].AcceptOffer? && s.txs[t].offer in s.db.offers && o in s.db.offers
  {
    && o != s.txs[t].offer && s.db.offers[o].delivery == s.db.offers[s.txs[t].offer].delivery
    && s.db.offers[o].status == OFFERED && OfferRow(o) in s.locks && s.locks[OfferRow(o)] == t
  }

  /** Every change of an offer, in all runs: its own acceptance, and expiry by a competitor or past its time. */
  lemma OfferStatusChanges(s: State, step: Step, o: OfferId)
    requires Enabled(s, step) && o in s.db.offers
    ensures var next, was := Apply(s, step), s.db.offers[o];
            && o in next.db.offers
            && next.db.offers[o] ==
               (if step.Commit? && s.txs[step.tx].AcceptOffer? && s.txs[step.tx].offer == o
                then was.(status := ACCEPTED)
                else if step.Commit? && s.txs[step.tx].AcceptOffer? && ExpiredBy(s, step.tx, o)
                then was.(status := EXPIRED)
                else if step.ExpireOffer? && step.offer == o then was.(status := EXPIRED) else was)
            && (step.ExpireOffer? ==> s.db.offers[step.offer].status == OFFERED && s.db.offers[step.offer].expiresAt < s.now)
            && next.now == s.now + if step.Tick? then step.dt else 0
  {
    if step.Commit? {
      CommittedOffer(s, step.tx, o);
      CommitTables(s, step.tx);
    }
    hide CommitEffect;
  }

  lemma CommittedOffer(s: State, t: TxId, o: OfferId)
    requires Enabled(s, Commit(t)) && o in s.db.offers
    ensures o in CommitEffect(s, t).offers
    ensures CommitEffect(s, t).offers[o] ==
            if s.txs[t].AcceptOffer? && s.txs[t].offer == o then s.db.offers[o].(status := ACCEPTED)
            else if s.txs[t].AcceptOffer? && ExpiredBy(s, t, o) then s.db.offers[o].(status := EXPIRED)
            else s.db.offers[o]
  {
    hide VendureEventType;
    match s.txs[t]
    case UpdateStatus(id, target, _) => UpdateKeepsOffers(s.db, id, target);
    case _ =>
  }

  lemma UpdateKeepsOffers(db: Tables, id: DeliveryId, target: DeliveryStatus)
    requires CheckUpdate(db, id, target).None?
    ensures UpdateEffect(db, id, target).offers == db.offers
  {
    hide VendureEventType;
  }

  /** The two ways to DELIVERED: the right code near the destination, or a status update that skips the code. */
  predicate Delivers(s: State, step: Step, id: DeliveryId)
    requires Enabled(s, step) && id in s.db.deliveries
  {
    step.Commit? &&
    match s.txs[step.tx]
    case VerifyOtp(d, otp, near, _) => d == id && near && s.db.deliveries[id].otp == Some(otp)
    case UpdateStatus(d, target, _) =>
      d == id && target == DELIVERED && (s.db.deliveries[id].status == PICKED_UP || s.db.deliveries[id].status == IN_TRANSIT)
    case _ => false
  }

  lemma CommitDelivers(s: State, t: TxId, id: DeliveryId)
    requires Enabled(s, Commit(t)) && id in s.db.deliveries && s.db.deliveries[id].status != DELIVERED
    ensures id in CommitEffect(s, t).deliveries
    ensures CommitEffect(s, t).deliveries[id].status == DELIVERED <==> Delivers(s, Commit(t), id)
  {
    hide VendureEventType, Competitors, ExpireAll;
    match s.txs[t]
    case UpdateStatus(d, target, _) => UpdateDelivers(s.db, d, target, id);
    case _ =>
  }

  lemma UpdateDelivers(db: Tables, d: DeliveryId, target: DeliveryStatus, id: DeliveryId)
    requires CheckUpdate(db, d, target).None? && id in db.deliveries && db.deliveries[id].status != DELIVERED
    ensures id in UpdateEffect(db, d, target).deliveries
    ensures UpdateEffect(db, d, target).deliveries[id].status == DELIVERED <==>
            d == id && target == DELIVERED && (db.deliveries[id].status == PICKED_UP || db.deliveries[id].status == IN_TRANSIT)
  {
    hide VendureEventType;
  }

  /** In every run a delivery becomes DELIVERED by exactly these steps; late saves write no DELIVERED copy. */
  lemma DeliveredExactlyBy(s: State, step: Step, id: DeliveryId, direct: bool, stale: bool)
    requires Reachable(s, direct, stale) && Enabled(s, step)
    requires id in s.db.deliveries && s.db.deliveries[id].status != DELIVERED
    ensures id in Apply(s, step).db.deliveries
    ensures Apply(s, step).db.deliveries[id].status == DELIVERED <==> Delivers(s, step, id)
    ensures step.Save? ==> s.drafts[step.draft].copy.status != DELIVERED
  {
    ReachableIsPlausible(s, direct, stale);
    hide Reachable, Delivers, Plausible, Enabled, Apply;
    if step.Commit? {
      CommitDelivers(s, step.tx, id);
      CommitTables(s, step.tx);
    } else {
      OthersDoNotDeliver(s, step, id);
    }
  }

  lemma OthersDoNotDeliver(s: State, step: Step, id: DeliveryId)
    requires AllPlausible(s) && Enabled(s, step) && !step.Commit?
    requires id in s.db.deliveries && s.db.deliveries[id].status != DELIVERED
    ensures id in Apply(s, step).db.deliveries && Apply(s, step).db.deliveries[id].status != DELIVERED
    ensures step.Save? ==> s.drafts[step.draft].copy.status != DELIVERED
    ensures !Delivers(s, step, id)
  {
    assert step.Save? ==> PlausibleDraft(s.drafts[step.draft]);
  }
}
