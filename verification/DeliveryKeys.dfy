/** The keys that deliveries leave in the outbox, over all runs, and when deduplication drops an event. */
module DeliveryKeys {
  import opened Options
  import opened IdempotencyKeys
  import opened DeliveryModel
  import opened DeliverySafety
  import opened DeliveryEvents

  function EverPublished(db: Tables): set<KeyId> {
    db.published + db.archived
  }

  /** Every key is an order key or a driver key of an event type of the transition table and an existing delivery. */
  ghost predicate KnownKey(db: Tables, k: KeyId) {
    && (exists st :: IsVendureStatus(st) && k.eventType == VendureEventType(st))
    && ((k.OrderKey? && k.sellerOrderId in Orders(db)) || (k.DriverKey? && k.deliveryId in db.deliveries))
  }

  /** The event of a status carries the seller order id, so whatever else is in its payload its key is the one recorded. */
  lemma StatusEventKey(db: Tables, id: DeliveryId, d: Delivery, p: Payload, now: string)
    requires IsVendureStatus(d.status) && p.sellerOrderId == d.sellerOrderId != ""
    ensures var key := Identify(VendureEventType(d.status), p, now);
            && Announce(db, id, d).published == db.published + {key}
            && Announce(db, id, d).swallowed == (if key in db.published then db.swallowed + [key] else db.swallowed)
            && Render(key) == VendureEventType(d.status) + ":order:" + d.sellerOrderId
  {
    hide VendureEventType;
    KeyStrings(VendureEventType(d.status), p, now);
  }

  /** The event of an acceptance carries the delivery and the driver, and no seller order id. */
  lemma AcceptanceEventKey(db: Tables, offer: OfferId, expiring: set<OfferId>, now: string)
    requires offer in db.offers && CheckAssignable(db, db.offers[offer].delivery).None?
    requires db.offers[offer].delivery != "" && db.offers[offer].driver != ""
    ensures var o, after := db.offers[offer], AcceptEffect(db, offer, expiring);
            var key := Identify("DELIVERY_ASSIGNED_V1", Payload("", o.delivery, o.driver, ""), now);
            && after.published == db.published + {key}
            && after.swallowed == (if key in db.published then db.swallowed + [key] else db.swallowed)
            && Render(key) == "DELIVERY_ASSIGNED_V1:delivery:" + o.delivery + ":driver:" + o.driver
  {
    var o := db.offers[offer];
    KeyStrings("DELIVERY_ASSIGNED_V1", Payload("", o.delivery, o.driver, ""), now);
    assert "DELIVERY_ASSIGNED_V1" + ":delivery:" == "DELIVERY_ASSIGNED_V1:delivery:";
    hide Render, Identify, ExpireAll;
  }

  /** A status of a delivery was announced exactly when its order key has been published at some time. */
  ghost predicate AnnouncedAt(db: Tables, id: DeliveryId, st: DeliveryStatus)
    requires id in db.deliveries && IsVendureStatus(st)
  {
    (id, st) in db.announced <==> OrderKey(VendureEventType(st), db.deliveries[id].sellerOrderId) in EverPublished(db)
  }

  ghost predicate KeysFit(db: Tables) {
    && (forall d, e :: d in db.deliveries && e in db.deliveries && d != e ==>
          db.deliveries[d].sellerOrderId != db.deliveries[e].sellerOrderId)
    && (forall k :: k in EverPublished(db) ==> KnownKey(db, k))
    && (forall id, st :: id in db.deliveries && IsVendureStatus(st) ==> AnnouncedAt(db, id, st))
    && (forall id, st :: (id, st) in db.announced ==> id in db.deliveries)
  }

  /** Changes of deliveries that keep their orders, and moving keys to the archive, change none of this. */
  lemma SameOrdersFit(db: Tables, after: Tables)
    requires KeysFit(db) && EverPublished(after) == EverPublished(db) && after.announced == db.announced
    requires after.deliveries.Keys == db.deliveries.Keys
    requires forall id :: id in db.deliveries ==>
      after.deliveries[id].sellerOrderId == db.deliveries[id].sellerOrderId
    ensures KeysFit(after)
  {
    SameOrders(db, after);
    hide Orders, EverPublished;
    forall k | k in EverPublished(after) ensures KnownKey(after, k) {
      assert KnownKey(db, k);
    }
    forall id, st | id in after.deliveries && IsVendureStatus(st) ensures AnnouncedAt(after, id, st) {
      assert AnnouncedAt(db, id, st);
    }
  }

  lemma AnnounceFits(db: Tables, id: DeliveryId, d: Delivery)
    requires KeysFit(db) && id in db.deliveries && db.deliveries[id].sellerOrderId == d.sellerOrderId
    requires IsVendureStatus(d.status)
    ensures KeysFit(Announce(db, id, d))
  {
    hide VendureEventType, Orders;
    var after, key := Announce(db, id, d), OrderKey(VendureEventType(d.status), d.sellerOrderId);
    OrderOf(db, id);
    OrderOf(after, id);
    SameOrders(db, after);
    forall k | k in EverPublished(after) ensures KnownKey(after, k) {
      assert k != key ==> KnownKey(db, k);
    }
    forall e, st | e in after.deliveries && IsVendureStatus(st) ensures AnnouncedAt(after, e, st) {
      assert AnnouncedAt(db, e, st);
      EventTypesDiffer(st, d.status);
    }
  }

  lemma OrderOf(db: Tables, id: DeliveryId)
    requires id in db.deliveries
    ensures db.deliveries[id].sellerOrderId in Orders(db)
  {
  }

  lemma DriverKeyFits(db: Tables, id: DeliveryId, driver: DriverId)
    requires KeysFit(db) && id in db.deliveries
    ensures KeysFit(Publish(db, DriverKey(VendureEventType(ASSIGNED), id, driver)))
  {
    hide VendureEventType, Orders;
    var key := DriverKey(VendureEventType(ASSIGNED), id, driver);
    var after := Publish(db, key);
    SameOrders(db, after);
    forall k | k in EverPublished(after) ensures KnownKey(after, k) {
      assert k != key ==> KnownKey(db, k);
    }
    forall e, st | e in after.deliveries && IsVendureStatus(st) ensures AnnouncedAt(after, e, st) {
      assert AnnouncedAt(db, e, st);
    }
  }

  lemma CreateFits(s: State, id: DeliveryId, order: string)
    requires KeysFit(s.db) && Enabled(s, CreateDelivery(id, order))
    ensures KeysFit(Apply(s, CreateDelivery(id, order)).db)
  {
    hide VendureEventType;
    var after := Apply(s, CreateDelivery(id, order)).db;
    OneMoreOrder(s.db, after, id);
    assert order !in Orders(s.db);
    hide Orders;
    forall k | k in EverPublished(after) ensures KnownKey(after, k) {
      assert KnownKey(s.db, k);
    }
    forall e, st | e in after.deliveries && IsVendureStatus(st) ensures AnnouncedAt(after, e, st) {
      if e == id {
        assert OrderKey(VendureEventType(st), order) in EverPublished(s.db) ==>
          KnownKey(s.db, OrderKey(VendureEventType(st), order));
      } else {
        assert AnnouncedAt(s.db, e, st);
      }
    }
  }

  lemma AcceptFits(db: Tables, offer: OfferId, expiring: set<OfferId>)
    requires KeysFit(db) && offer in db.offers && CheckAssignable(db, db.offers[offer].delivery).None?
    ensures KeysFit(AcceptEffect(db, offer, expiring))
  {
    hide KeysFit, VendureEventType;
    var o := db.offers[offer];
    var entered := Enter(db, o.delivery, db.deliveries[o.delivery].(status := ASSIGNED, driver := Some(o.driver)));
    SameOrdersFit(db, entered);
    DriverKeyFits(entered, o.delivery, o.driver);
    var key := DriverKey(VendureEventType(ASSIGNED), o.delivery, o.driver);
    SameOrdersFit(Publish(entered, key), AcceptEffect(db, offer, expiring));
  }

  lemma EnterFits(db: Tables, id: DeliveryId, d: Delivery)
    requires KeysFit(db) && id in db.deliveries && id in db.journal
    requires db.deliveries[id].sellerOrderId == d.sellerOrderId
    ensures KeysFit(Enter(db, id, d))
    ensures IsVendureStatus(d.status) ==> KeysFit(Announce(Enter(db, id, d), id, d))
  {
    hide KeysFit, VendureEventType, Announce;
    SameOrdersFit(db, Enter(db, id, d));
    if IsVendureStatus(d.status) {
      AnnounceFits(Enter(db, id, d), id, d);
    }
  }

  lemma CommitFits(s: State, t: TxId)
    requires KeysFit(s.db) && Enabled(s, Commit(t))
    ensures KeysFit(CommitEffect(s, t))
  {
    hide KeysFit, Enter, Announce, AcceptEffect;
    match s.txs[t]
    case AcceptOffer(o, _, _) => AcceptFits(s.db, o, LockedCompetitors(s, t, o));
    case AssignDriver(id, driver, otp, _) =>
      EnterFits(s.db, id, s.db.deliveries[id].(status := ASSIGNED, driver := Some(driver), otp := Some(otp)));
    case UpdateStatus(id, target, _) => EnterFits(s.db, id, s.db.deliveries[id].(status := target));
    case VerifyOtp(id, _, _, _) => EnterFits(s.db, id, s.db.deliveries[id].(status := DELIVERED, otp := None));
  }

  lemma FitStep(s: State, step: Step)
    requires Safe(s) && KeysFit(s.db) && Enabled(s, step)
    ensures KeysFit(Apply(s, step).db)
  {
    hide KeysFit, Consistent, Protected;
    match step
    case Commit(t) => CommitFits(s, t);
    case CreateDelivery(id, order) => CreateFits(s, id, order);
    case Save(draft, otp) => SaveFits(s, draft, otp);
    case ArchiveEvents(keys) => ArchiveFits(s, keys);
    case _ => SameOrdersFit(s.db, Apply(s, step).db);
  }

  lemma SaveFits(s: State, draft: DraftId, otp: Option<string>)
    requires Enabled(s, Save(draft, otp)) && Backed(s, s.drafts[draft]) && KeysFit(s.db)
    ensures KeysFit(Apply(s, Save(draft, otp)).db)
  {
    hide KeysFit;
    SameOrdersFit(s.db, Apply(s, Save(draft, otp)).db);
  }

  lemma ArchiveFits(s: State, keys: set<KeyId>)
    requires KeysFit(s.db)
    ensures KeysFit(Apply(s, ArchiveEvents(keys)).db)
  {
    hide KeysFit;
    SameOrdersFit(s.db, Apply(s, ArchiveEvents(keys)).db);
  }

  lemma InitiallyFit(now: int)
    ensures KeysFit(Initial(now).db) && Safe(Initial(now))
  {
  }

  lemma {:induction false} ExecutionsFit(states: seq<State>, steps: seq<Step>, direct: bool, stale: bool, k: nat)
    requires Execution(states, steps, direct, stale) && k <= |steps|
    ensures Safe(states[k]) && KeysFit(states[k].db)
  {
    hide Safe, KeysFit, Apply, Enabled;
    if k == 0 {
      InitiallyFit(states[0].now);
    } else {
      ExecutionsFit(states, steps, direct, stale, k - 1);
      SafeStep(states[k - 1], steps[k - 1]);
      FitStep(states[k - 1], steps[k - 1]);
    }
  }

  lemma ReachableFits(s: State, direct: bool, stale: bool)
    requires Reachable(s, direct, stale)
    ensures KeysFit(s.db)
  {
    hide KeysFit;
    var states, steps :| Execution(states, steps, direct, stale) && states[|steps|] == s;
    ExecutionsFit(states, steps, direct, stale, |steps|);
  }

  // --- when an event is dropped ---

  /** The status that a commit enters and announces with an order key, if it does. */
  function AnnouncedBy(s: State, t: TxId): Option<DeliveryStatus>
    requires Enabled(s, Commit(t))
  {
    match s.txs[t]
    case AcceptOffer(_, _, _) => None
    case AssignDriver(_, _, _, _) => Some(ASSIGNED)
    case UpdateStatus(id, target, _) =>
      if s.db.deliveries[id].status != target && IsVendureStatus(target) then Some(target) else None
    case VerifyOtp(id, _, _, _) => if s.db.deliveries[id].status != DELIVERED then Some(DELIVERED) else None
  }

  /**
   * In every run, `assignDriver` included: the event of an entered status is dropped exactly when its key is still in
   * the hot table. Unless the janitor has archived that key, this is the case exactly when the same status of the
   * delivery was announced before.
   */
  lemma DroppedExactlyWhenAnnounced(s: State, t: TxId, direct: bool, stale: bool)
    requires Reachable(s, direct, stale) && Enabled(s, Commit(t)) && AnnouncedBy(s, t).Some?
    ensures s.txs[t].delivery in s.db.deliveries
    ensures var id, st := s.txs[t].delivery, AnnouncedBy(s, t).value;
            IsVendureStatus(st) &&
            var key := OrderKey(VendureEventType(st), s.db.deliveries[id].sellerOrderId);
            && CommitEffect(s, t).swallowed == s.db.swallowed + (if key in s.db.published then [key] else [])
            && (key !in s.db.archived ==> (key in s.db.published <==> (id, st) in s.db.announced))
            && (id, st) in CommitEffect(s, t).announced
  {
    ReachableFits(s, direct, stale);
    hide VendureEventType, Reachable;
    var id, st := s.txs[t].delivery, AnnouncedBy(s, t).value;
    assert AnnouncedAt(s.db, id, st);
    hide KeysFit;
    if !s.txs[t].AssignDriver? {
      assert s.txs[t].UpdateStatus? || s.txs[t].VerifyOtp?;
    }
  }

  // --- keys as strings ---

  lemma KnownTypesAreValid(st: DeliveryStatus)
    requires IsVendureStatus(st)
    ensures IsValidVersionedEventType(VendureEventType(st))
  {
    hide IsValidVersionedEventType;
    match st
    case ASSIGNED => AssignedIsValid();
    case PICKED_UP => PickedUpIsValid();
    case DELIVERED => DeliveredIsValid();
    case FAILED => FailedIsValid();
    case CANCELLED => CancelledIsValid();
  }

  lemma AssignedIsValid()
    ensures IsValidVersionedEventType("DELIVERY_ASSIGNED_V1")
  {
    Words("DELIVERY_ASSIGNED");
  }

  lemma PickedUpIsValid()
    ensures IsValidVersionedEventType("DELIVERY_PICKUP_CONFIRMED_V1")
  {
    Words("DELIVERY_PICKUP_CONFIRMED");
  }

  lemma DeliveredIsValid()
    ensures IsValidVersionedEventType("DELIVERY_DROPOFF_CONFIRMED_V1")
  {
    Words("DELIVERY_DROPOFF_CONFIRMED");
  }

  lemma FailedIsValid()
    ensures IsValidVersionedEventType("DELIVERY_FAILED_V1")
  {
    Words("DELIVERY_FAILED");
  }

  lemma CancelledIsValid()
    ensures IsValidVersionedEventType("DELIVERY_CANCELLED_V1")
  {
    Words("DELIVERY_CANCELLED");
  }

  predicate IsWord(s: string) {
    forall i :: 0 <= i < |s| ==> 'A' <= s[i] <= 'Z' || s[i] == '_'
  }

  lemma Words(s: string)
    requires IsWord(s) && s != ""
    ensures IsValidVersionedEventType(s + "_V1")
  {
  }

  lemma KnownKeysAreWellFormed(db: Tables, k: KeyId)
    requires KnownKey(db, k) && forall id :: id in db.deliveries ==> !Marked(id)
    ensures WellFormed(k)
  {
    var st :| IsVendureStatus(st) && k.eventType == VendureEventType(st);
    KnownTypesAreValid(st);
    hide IsValidVersionedEventType, VendureEventType, Marked;
  }

  /**
   * The table compares strings, and that is no different: given delivery ids without a marker, no two published keys are the
   * same string, and looking up the string of a well-formed key finds that key or nothing.
   */
  lemma KeysAreComparedAsStrings(s: State, direct: bool, stale: bool, k: KeyId, l: KeyId)
    requires Reachable(s, direct, stale) && forall id :: id in s.db.deliveries ==> !Marked(id)
    requires k in EverPublished(s.db)
    ensures WellFormed(k)
    ensures WellFormed(l) ==> (Render(k) == Render(l) <==> k == l)
    ensures l in EverPublished(s.db) ==> WellFormed(l)
  {
    hide VendureEventType, Render, WellFormed, Marked;
    ReachableFits(s, direct, stale);
    KnownKeysAreWellFormed(s.db, k);
    if l in EverPublished(s.db) {
      KnownKeysAreWellFormed(s.db, l);
    }
    if WellFormed(l) {
      KeysIdentify(k, l);
    }
  }
}
