/** Offers, deliveries and assignments, changed by row-locking transactions
    (delivery-state-machine.service.ts, deliveries.service.ts, offers.service.ts). */
module DeliveryModel {
  import opened Options
  import opened IdempotencyKeys

  datatype OfferStatus = OFFERED | ACCEPTED | REJECTED | EXPIRED

  datatype DeliveryStatus = PENDING | ASSIGNED | PICKED_UP | IN_TRANSIT | DELIVERED | FAILED | CANCELLED

  type OfferId = nat
  type DriverId = string
  type DeliveryId = string
  type TxId = nat

  datatype Offer = Offer(delivery: DeliveryId, driver: DriverId, status: OfferStatus, expiresAt: int)

  datatype Delivery = Delivery(sellerOrderId: string, status: DeliveryStatus, driver: Option<DriverId>, otp: Option<string>)

  /** An assignment row, with the offer it was created for. */
  datatype Assignment = Assignment(driver: DriverId, sellerOrderId: string, offer: OfferId)

  /** The committed tables. `published` holds the keys in the hot outbox table and `archived` those that the janitor
      has moved away. `swallowed` records the events that deduplication dropped, `journal` the statuses each delivery
      has entered, and `announced` the statuses for which an event with an order key was offered to the outbox. */
  datatype Tables = Tables(
    offers: map<OfferId, Offer>,
    deliveries: map<DeliveryId, Delivery>,
    assignments: seq<Assignment>,
    busy: set<DriverId>,
    published: set<KeyId>,
    archived: set<KeyId>,
    swallowed: seq<KeyId>,
    journal: map<DeliveryId, seq<DeliveryStatus>>,
    announced: set<(DeliveryId, DeliveryStatus)>)

  datatype Error =
    | OFFER_NOT_FOUND | OFFER_ALREADY_USED | OFFER_EXPIRED
    | DELIVERY_NOT_FOUND | DELIVERY_ALREADY_ASSIGNED | INVALID_DELIVERY_STATE
    | INVALID_TRANSITION | NO_OTP | INVALID_OTP | TOO_FAR_AWAY
    | NO_DRIVER | TERMINAL_STATE

  // --- the transition table and the event names ---

  function AllowedTransitions(s: DeliveryStatus): set<DeliveryStatus> {
    match s
    case PENDING => {ASSIGNED, CANCELLED}
    case ASSIGNED => {PICKED_UP, FAILED, CANCELLED}
    case PICKED_UP => {IN_TRANSIT, DELIVERED, FAILED}
    case IN_TRANSIT => {DELIVERED, FAILED}
    case _ => {}
  }

  predicate IsVendureStatus(s: DeliveryStatus) {
    s != PENDING && s != IN_TRANSIT
  }

  function VendureEventType(s: DeliveryStatus): string
    requires IsVendureStatus(s)
  {
    match s
    case ASSIGNED => "DELIVERY_ASSIGNED_V1"
    case PICKED_UP => "DELIVERY_PICKUP_CONFIRMED_V1"
    case DELIVERED => "DELIVERY_DROPOFF_CONFIRMED_V1"
    case FAILED => "DELIVERY_FAILED_V1"
    case CANCELLED => "DELIVERY_CANCELLED_V1"
  }

  // --- the checks and effects of each operation on the committed tables ---

  function Publish(db: Tables, key: KeyId): Tables {
    if key in db.published then db.(swallowed := db.swallowed + [key])
    else db.(published := db.published + {key})
  }

  /** The event of the status that the delivery has entered, with its order key. */
  function Announce(db: Tables, id: DeliveryId, d: Delivery): Tables
    requires IsVendureStatus(d.status)
  {
    Publish(db.(announced := db.announced + {(id, d.status)}), OrderKey(VendureEventType(d.status), d.sellerOrderId))
  }

  function Enter(db: Tables, id: DeliveryId, d: Delivery): Tables
    requires id in db.journal
  {
    db.(deliveries := db.deliveries[id := d], journal := db.journal[id := db.journal[id] + [d.status]])
  }

  function CheckOffer(db: Tables, offer: OfferId, driver: DriverId, now: int): Option<Error> {
    if offer !in db.offers || db.offers[offer].driver != driver then Some(OFFER_NOT_FOUND)
    else if db.offers[offer].status != OFFERED then Some(OFFER_ALREADY_USED)
    else if db.offers[offer].expiresAt < now then Some(OFFER_EXPIRED)
    else None
  }

  function CheckAssignable(db: Tables, id: DeliveryId): Option<Error> {
    if id !in db.deliveries || id !in db.journal then Some(DELIVERY_NOT_FOUND)
    else if db.deliveries[id].driver.Some? then Some(DELIVERY_ALREADY_ASSIGNED)
    else if db.deliveries[id].status != PENDING then Some(INVALID_DELIVERY_STATE)
    else None
  }

  function Competitors(db: Tables, offer: OfferId): set<OfferId>
    requires offer in db.offers
  {
    set o | o in db.offers && o != offer && db.offers[o].status == OFFERED
            && db.offers[o].delivery == db.offers[offer].delivery
  }

  function ExpireAll(offers: map<OfferId, Offer>, expiring: set<OfferId>): map<OfferId, Offer> {
    map o | o in offers :: if o in expiring then offers[o].(status := EXPIRED) else offers[o]
  }

  /** Accepts the offer and expires the competing offers in `expiring`. */
  function AcceptEffect(db: Tables, offer: OfferId, expiring: set<OfferId>): Tables
    requires offer in db.offers && CheckAssignable(db, db.offers[offer].delivery).None?
  {
    var o := db.offers[offer];
    var d := db.deliveries[o.delivery];
    var withDriver := Enter(db, o.delivery, d.(status := ASSIGNED, driver := Some(o.driver)));
    var accepted := withDriver.(
      offers := ExpireAll(db.offers, expiring)[offer := o.(status := ACCEPTED)],
      assignments := db.assignments + [Assignment(o.driver, d.sellerOrderId, offer)],
      busy := db.busy + {o.driver});
    Publish(accepted, DriverKey(VendureEventType(ASSIGNED), o.delivery, o.driver))
  }

  /** `assignDriver` checks nothing but that the delivery exists. */
  function AssignEffect(db: Tables, id: DeliveryId, driver: DriverId, otp: string): Tables
    requires id in db.deliveries && id in db.journal
  {
    var d := db.deliveries[id].(status := ASSIGNED, driver := Some(driver), otp := Some(otp));
    Announce(Enter(db, id, d), id, d)
  }

  function CheckUpdate(db: Tables, id: DeliveryId, target: DeliveryStatus): Option<Error> {
    if id !in db.deliveries || id !in db.journal then Some(DELIVERY_NOT_FOUND)
    else if db.deliveries[id].status == target then None
    else if target !in AllowedTransitions(db.deliveries[id].status) then Some(INVALID_TRANSITION)
    else None
  }

  function UpdateEffect(db: Tables, id: DeliveryId, target: DeliveryStatus): Tables
    requires CheckUpdate(db, id, target).None?
  {
    var d := db.deliveries[id];
    if d.status == target then db
    else
      var entered := Enter(db, id, d.(status := target));
      if IsVendureStatus(target) then Announce(entered, id, d.(status := target)) else entered
  }

  /** `near` says that the geofence check passes or does not apply. A wrong code is an error, so the
      transaction that counted the attempt is rolled back. */
  function CheckOtp(db: Tables, id: DeliveryId, otp: string, near: bool): Option<Error> {
    if id !in db.deliveries || id !in db.journal then Some(DELIVERY_NOT_FOUND)
    else if db.deliveries[id].status == DELIVERED then None
    else if db.deliveries[id].otp.None? then Some(NO_OTP)
    else if !near then Some(TOO_FAR_AWAY)
    else if db.deliveries[id].otp.value != otp then Some(INVALID_OTP)
    else None
  }

  function OtpEffect(db: Tables, id: DeliveryId): Tables
    requires id in db.deliveries && id in db.journal
  {
    var d := db.deliveries[id];
    if d.status == DELIVERED then db
    else
      var delivered := d.(status := DELIVERED, otp := None);
      Announce(Enter(db, id, delivered), id, delivered)
  }

  /** What `generateDeliveryOtp` checks on the delivery it has read without a lock. */
  function CheckOtpRequest(db: Tables, id: DeliveryId): Option<Error> {
    if id !in db.deliveries || id !in db.journal then Some(DELIVERY_NOT_FOUND)
    else if db.deliveries[id].driver.None? then Some(NO_DRIVER)
    else if db.deliveries[id].status == DELIVERED || db.deliveries[id].status == CANCELLED then Some(TERMINAL_STATE)
    else None
  }

  /** What the SLA monitor's queries select, apart from the times, which are not modelled. */
  predicate Monitored(db: Tables, id: DeliveryId) {
    id in db.deliveries && id in db.journal && db.deliveries[id].status in {ASSIGNED, PICKED_UP, IN_TRANSIT}
  }

  /** Saving writes the whole entity as it was read, with the new code if there is one: a status or a driver that has
      changed since is put back. */
  function SaveEffect(db: Tables, id: DeliveryId, copy: Delivery, otp: Option<string>): Tables
    requires id in db.deliveries && id in db.journal
  {
    var d := if otp.Some? then copy.(otp := otp) else copy;
    if d.status == db.deliveries[id].status then db.(deliveries := db.deliveries[id := d]) else Enter(db, id, d)
  }

  // --- transactions ---

  datatype Lockable = OfferRow(offer: OfferId) | DeliveryRow(delivery: DeliveryId)

  datatype Stage = Started | OfferLocked | DeliveryLocked

  datatype Tx =
    | AcceptOffer(offer: OfferId, driver: DriverId, stage: Stage)
    | AssignDriver(delivery: DeliveryId, driver: DriverId, otp: string, locked: bool)
    | UpdateStatus(delivery: DeliveryId, target: DeliveryStatus, locked: bool)
    | VerifyOtp(delivery: DeliveryId, otp: string, near: bool, locked: bool)

  datatype Purpose = NEW_CODE | SLA_BREACH

  /** A delivery in the memory of `generateDeliveryOtp` or of the SLA monitor, between its read and its save. */
  datatype Draft = Draft(delivery: DeliveryId, copy: Delivery, purpose: Purpose)

  type DraftId = nat

  datatype State = State(
    now: int, db: Tables, locks: map<Lockable, TxId>, txs: map<TxId, Tx>, drafts: map<DraftId, Draft>)

  datatype Step =
    | Tick(dt: nat)
    | CreateDelivery(id: DeliveryId, sellerOrderId: string)
    | CreateOffer(offer: OfferId, delivery: DeliveryId, driver: DriverId, expiresAt: int)
    | ExpireOffer(offer: OfferId)
    | Load(draft: DraftId, id: DeliveryId, purpose: Purpose)
    | Save(draft: DraftId, otp: Option<string>)
    | DropDraft(draft: DraftId)
    | ArchiveEvents(keys: set<KeyId>)
    | Begin(tx: TxId, what: Tx)
    | LockOffer(tx: TxId)
    | LockDelivery(tx: TxId)
    | LockCompetitor(tx: TxId, offer: OfferId)
    | Commit(tx: TxId)
    | Abort(tx: TxId)

  predicate Fresh(tx: Tx) {
    match tx case AcceptOffer(_, _, stage) => stage == Started case _ => !tx.locked
  }

  /** The delivery row a transaction needs. */
  function DeliveryRowOf(db: Tables, tx: Tx): DeliveryId
    requires tx.AcceptOffer? ==> tx.offer in db.offers
  {
    if tx.AcceptOffer? then db.offers[tx.offer].delivery else tx.delivery
  }

  function LockedCompetitors(s: State, tx: TxId, offer: OfferId): set<OfferId>
    requires offer in s.db.offers
  {
    set o | o in Competitors(s.db, offer) && OfferRow(o) in s.locks && s.locks[OfferRow(o)] == tx
  }

  /** A blocked or failing transaction can only wait or abort; aborting, a deadlock victim's fate too, is
      possible at any time. */
  predicate Enabled(s: State, step: Step) {
    match step
    case Tick(_) => true
    case CreateDelivery(id, order) =>
      && id !in s.db.deliveries && id !in s.db.journal && order != ""
      && forall d :: d in s.db.deliveries ==> s.db.deliveries[d].sellerOrderId != order
    case CreateOffer(o, d, _, _) => o !in s.db.offers && OfferRow(o) !in s.locks
    case ExpireOffer(o) =>
      o in s.db.offers && OfferRow(o) !in s.locks && s.db.offers[o].status == OFFERED && s.db.offers[o].expiresAt < s.now
    case Load(draft, id, purpose) =>
      draft !in s.drafts && if purpose == NEW_CODE then CheckOtpRequest(s.db, id).None? else Monitored(s.db, id)
    case Save(draft, otp) =>
      && draft in s.drafts && DeliveryRow(s.drafts[draft].delivery) !in s.locks
      && s.drafts[draft].delivery in s.db.deliveries && s.drafts[draft].delivery in s.db.journal
      && (otp.Some? <==> s.drafts[draft].purpose == NEW_CODE)
    case DropDraft(draft) => draft in s.drafts
    case ArchiveEvents(_) => true
    case Begin(t, what) => t !in s.txs && Fresh(what)
    case LockOffer(t) =>
      && t in s.txs && s.txs[t].AcceptOffer? && s.txs[t].stage == Started
      && OfferRow(s.txs[t].offer) !in s.locks && CheckOffer(s.db, s.txs[t].offer, s.txs[t].driver, s.now).None?
    case LockDelivery(t) =>
      && t in s.txs
      && (s.txs[t].AcceptOffer? ==> s.txs[t].stage == OfferLocked && s.txs[t].offer in s.db.offers)
      && (!s.txs[t].AcceptOffer? ==> !s.txs[t].locked)
      && var id := DeliveryRowOf(s.db, s.txs[t]);
      && DeliveryRow(id) !in s.locks && id in s.db.deliveries && id in s.db.journal
      && (s.txs[t].AcceptOffer? ==> CheckAssignable(s.db, id).None?)
    case LockCompetitor(t, o) =>
      && t in s.txs && s.txs[t].AcceptOffer? && s.txs[t].stage == DeliveryLocked && s.txs[t].offer in s.db.offers
      && o in Competitors(s.db, s.txs[t].offer) && OfferRow(o) !in s.locks
    case Commit(t) =>
      && t in s.txs
      && (match s.txs[t]
          case AcceptOffer(o, _, stage) =>
            stage == DeliveryLocked && o in s.db.offers && CheckAssignable(s.db, s.db.offers[o].delivery).None?
          case AssignDriver(id, _, _, locked) => locked && id in s.db.deliveries && id in s.db.journal
          case UpdateStatus(id, target, locked) => locked && target != PENDING && CheckUpdate(s.db, id, target).None?
          case VerifyOtp(id, otp, near, locked) => locked && CheckOtp(s.db, id, otp, near).None?)
    case Abort(t) => t in s.txs
  }

  function Finish(s: State, t: TxId, db: Tables): State {
    s.(db := db, locks := map r | r in s.locks && s.locks[r] != t :: s.locks[r], txs := s.txs - {t})
  }

  function CommitEffect(s: State, t: TxId): Tables
    requires Enabled(s, Commit(t))
  {
    match s.txs[t]
    case AcceptOffer(o, _, _) => AcceptEffect(s.db, o, LockedCompetitors(s, t, o))
    case AssignDriver(id, driver, otp, _) => AssignEffect(s.db, id, driver, otp)
    case UpdateStatus(id, target, _) => UpdateEffect(s.db, id, target)
    case VerifyOtp(id, _, _, _) => OtpEffect(s.db, id)
  }

  function Apply(s: State, step: Step): State
    requires Enabled(s, step)
  {
    match step
    case Tick(dt) => s.(now := s.now + dt)
    case CreateDelivery(id, order) =>
      s.(db := s.db.(deliveries := s.db.deliveries[id := Delivery(order, PENDING, None, None)],
                     journal := s.db.journal[id := [PENDING]]))
    case CreateOffer(o, d, driver, expiresAt) =>
      s.(db := s.db.(offers := s.db.offers[o := Offer(d, driver, OFFERED, expiresAt)]))
    case ExpireOffer(o) => s.(db := s.db.(offers := s.db.offers[o := s.db.offers[o].(status := EXPIRED)]))
    case Load(draft, id, purpose) => s.(drafts := s.drafts[draft := Draft(id, s.db.deliveries[id], purpose)])
    case Save(draft, otp) =>
      var d := s.drafts[draft];
      s.(db := SaveEffect(s.db, d.delivery, d.copy, otp), drafts := s.drafts - {draft})
    case DropDraft(draft) => s.(drafts := s.drafts - {draft})
    case ArchiveEvents(keys) =>
      s.(db := s.db.(published := s.db.published - keys, archived := s.db.archived + (s.db.published * keys)))
    case Begin(t, what) => s.(txs := s.txs[t := what])
    case LockOffer(t) =>
      s.(txs := s.txs[t := s.txs[t].(stage := OfferLocked)], locks := s.locks[OfferRow(s.txs[t].offer) := t])
    case LockDelivery(t) =>
      var tx := s.txs[t];
      s.(txs := s.txs[t := if tx.AcceptOffer? then tx.(stage := DeliveryLocked) else tx.(locked := true)],
         locks := s.locks[DeliveryRow(DeliveryRowOf(s.db, tx)) := t])
    case LockCompetitor(t, o) => s.(locks := s.locks[OfferRow(o) := t])
    case Commit(t) => Finish(s, t, CommitEffect(s, t))
    case Abort(t) => Finish(s, t, s.db)
  }

  function Initial(now: int): State {
    State(now, Tables(map[], map[], [], {}, {}, {}, [], map[], {}), map[], map[], map[])
  }

  // --- runs ---

  /** The delivery still has the status it had when it was read. */
  predicate UpToDate(s: State, draft: DraftId)
    requires draft in s.drafts && s.drafts[draft].delivery in s.db.deliveries
  {
    s.drafts[draft].copy.status == s.db.deliveries[s.drafts[draft].delivery].status
  }

  /** `direct` allows `assignDriver` transactions, and `stale` allows saves of deliveries read before a change. */
  predicate Permitted(s: State, step: Step, direct: bool, stale: bool)
    requires Enabled(s, step)
  {
    && (direct || !(step.Begin? && step.what.AssignDriver?))
    && (stale || !step.Save? || UpToDate(s, step.draft))
  }

  ghost predicate Execution(states: seq<State>, steps: seq<Step>, direct: bool, stale: bool) {
    && |states| == |steps| + 1
    && states[0] == Initial(states[0].now)
    && forall i :: 0 <= i < |steps| ==>
         && Enabled(states[i], steps[i]) && states[i + 1] == Apply(states[i], steps[i])
         && Permitted(states[i], steps[i], direct, stale)
  }

  ghost predicate Reachable(s: State, direct: bool, stale: bool) {
    exists states, steps :: Execution(states, steps, direct, stale) && states[|steps|] == s
  }

  lemma ReachStep(s: State, step: Step, direct: bool, stale: bool)
    requires Reachable(s, direct, stale) && Enabled(s, step) && Permitted(s, step, direct, stale)
    ensures Reachable(Apply(s, step), direct, stale)
  {
    hide Enabled, Apply, Permitted;
    var states, steps :| Execution(states, steps, direct, stale) && states[|steps|] == s;
    var t := Apply(s, step);
    assert Execution(states + [t], steps + [step], direct, stale);
    assert (states + [t])[|steps + [step]|] == t;
  }
}
