/** The delivery operations as they run inside one transaction, row by row: an error leaves everything as
    it was, because the transaction is rolled back. */
module DeliveryStore {
  import opened Options
  import opened IdempotencyKeys
  import opened DeliveryModel

  /** The moves a status update accepts. */
  const MOVES: set<(DeliveryStatus, DeliveryStatus)> := {
    (PENDING, ASSIGNED), (PENDING, CANCELLED),
    (ASSIGNED, PICKED_UP), (ASSIGNED, DeliveryStatus.FAILED), (ASSIGNED, CANCELLED),
    (PICKED_UP, IN_TRANSIT), (PICKED_UP, DELIVERED), (PICKED_UP, DeliveryStatus.FAILED),
    (IN_TRANSIT, DELIVERED), (IN_TRANSIT, DeliveryStatus.FAILED)
  }

  /** The statuses that are announced, with their event types. */
  const EVENT_TYPES: map<DeliveryStatus, string> := map[
    ASSIGNED := "DELIVERY_ASSIGNED_V1",
    PICKED_UP := "DELIVERY_PICKUP_CONFIRMED_V1",
    DELIVERED := "DELIVERY_DROPOFF_CONFIRMED_V1",
    DeliveryStatus.FAILED := "DELIVERY_FAILED_V1",
    CANCELLED := "DELIVERY_CANCELLED_V1"
  ]

  lemma AllowedMoves(s: DeliveryStatus, t: DeliveryStatus)
    ensures t in AllowedTransitions(s) <==> (s, t) in MOVES
  {
  }

  lemma AnnouncedStatuses(s: DeliveryStatus)
    ensures IsVendureStatus(s) <==> s in EVENT_TYPES
    ensures s in EVENT_TYPES ==> VendureEventType(s) == EVENT_TYPES[s]
  {
  }

  class Store {
    var offers: map<OfferId, Offer>
    var deliveries: map<DeliveryId, Delivery>
    var assignments: seq<Assignment>
    var busy: set<DriverId>
    var published: set<KeyId>
    var archived: set<KeyId>
    var swallowed: seq<KeyId>
    var journal: map<DeliveryId, seq<DeliveryStatus>>
    var announced: set<(DeliveryId, DeliveryStatus)>

    constructor ()
      ensures Db() == Initial(0).db
    {
      offers, deliveries, assignments, busy := map[], map[], [], {};
      published, archived, swallowed, journal, announced := {}, {}, [], map[], {};
    }

    function Db(): Tables
      reads this
    {
      Tables(offers, deliveries, assignments, busy, published, archived, swallowed, journal, announced)
    }

    method PublishKey(key: KeyId)
      modifies this
      ensures Db() == Publish(old(Db()), key)
      ensures published == old(published) + {key}
      ensures swallowed == old(swallowed) + if key in old(published) then [key] else []
    {
      if key in published {
        swallowed := swallowed + [key];
      } else {
        published := published + {key};
      }
    }

    method PublishStatus(id: DeliveryId, delivery: Delivery)
      requires IsVendureStatus(delivery.status) && delivery.status in EVENT_TYPES
      modifies this
      ensures Db() == Announce(old(Db()), id, delivery)
      ensures var key := OrderKey(EVENT_TYPES[delivery.status], delivery.sellerOrderId);
              && published == old(published) + {key}
              && swallowed == old(swallowed) + (if key in old(published) then [key] else [])
              && announced == old(announced) + {(id, delivery.status)}
    {
      AnnouncedStatuses(delivery.status);
      announced := announced + {(id, delivery.status)};
      PublishKey(OrderKey(VendureEventType(delivery.status), delivery.sellerOrderId));
    }

    method SaveDelivery(id: DeliveryId, delivery: Delivery)
      requires id in journal
      modifies this
      ensures Db() == Enter(old(Db()), id, delivery)
    {
      deliveries := deliveries[id := delivery];
      journal := journal[id := journal[id] + [delivery.status]];
    }

    /** An offer is accepted when it is open, in time and the driver's own, for a pending delivery nobody has. */
    method AcceptOffer(offerId: OfferId, driverId: DriverId, now: int) returns (error: Option<Error>)
      modifies this
      ensures error == if CheckOffer(old(Db()), offerId, driverId, now).Some?
                       then CheckOffer(old(Db()), offerId, driverId, now)
                       else CheckAssignable(old(Db()), old(offers)[offerId].delivery)
      ensures error.Some? ==> Db() == old(Db())
      ensures error.None? ==> Db() == AcceptEffect(old(Db()), offerId, Competitors(old(Db()), offerId))
      ensures error == Some(OFFER_NOT_FOUND) <==> offerId !in old(offers) || old(offers)[offerId].driver != driverId
      ensures offerId in old(offers) && old(offers)[offerId].driver == driverId ==>
                var offer := old(offers)[offerId];
                var known := offer.delivery in old(deliveries) && offer.delivery in old(journal);
                && (error == Some(OFFER_ALREADY_USED) <==> offer.status != OFFERED)
                && (error == Some(OFFER_EXPIRED) <==> offer.status == OFFERED && offer.expiresAt < now)
                && (offer.status == OFFERED && offer.expiresAt >= now ==>
                      && (error == Some(DELIVERY_NOT_FOUND) <==> !known)
                      && (known ==>
                            var delivery := old(deliveries)[offer.delivery];
                            && (error == Some(DELIVERY_ALREADY_ASSIGNED) <==> delivery.driver.Some?)
                            && (error == Some(INVALID_DELIVERY_STATE) <==> delivery.driver.None? && delivery.status != PENDING)
                            && (error == None <==> delivery.driver.None? && delivery.status == PENDING)))
      ensures error.None? ==>
                var offer := old(offers)[offerId];
                && offers.Keys == old(offers).Keys
                && (forall o :: o in offers ==>
                      offers[o] ==
                      if o == offerId then offer.(status := ACCEPTED)
                      else if old(offers)[o].delivery == offer.delivery && old(offers)[o].status == OFFERED
                      then old(offers)[o].(status := EXPIRED) else old(offers)[o])
                && deliveries == old(deliveries)[offer.delivery :=
                     old(deliveries)[offer.delivery].(status := ASSIGNED, driver := Some(driverId))]
                && journal == old(journal)[offer.delivery := old(journal)[offer.delivery] + [ASSIGNED]]
                && assignments == old(assignments) +
                     [Assignment(driverId, old(deliveries)[offer.delivery].sellerOrderId, offerId)]
                && busy == old(busy) + {driverId}
                && published == old(published) + {DriverKey("DELIVERY_ASSIGNED_V1", offer.delivery, driverId)}
    {
      if offerId !in offers || offers[offerId].driver != driverId {
        return Some(OFFER_NOT_FOUND);
      }
      var offer := offers[offerId];
      if offer.status != OFFERED {
        return Some(OFFER_ALREADY_USED);
      }
      if offer.expiresAt < now {
        return Some(OFFER_EXPIRED);
      }
      if offer.delivery !in deliveries || offer.delivery !in journal {
        return Some(DELIVERY_NOT_FOUND);
      }
      var delivery := deliveries[offer.delivery];
      if delivery.driver.Some? {
        return Some(DELIVERY_ALREADY_ASSIGNED);
      }
      if delivery.status != PENDING {
        return Some(INVALID_DELIVERY_STATE);
      }
      var competitors := Competitors(Db(), offerId);
      offers := offers[offerId := offer.(status := ACCEPTED)];
      SaveDelivery(offer.delivery, delivery.(status := ASSIGNED, driver := Some(driverId)));
      assignments := assignments + [Assignment(driverId, delivery.sellerOrderId, offerId)];
      busy := busy + {driverId};
      offers := ExpireAll(offers, competitors);
      assert offers == ExpireAll(old(offers), competitors)[offerId := offer.(status := ACCEPTED)];
      PublishKey(DriverKey("DELIVERY_ASSIGNED_V1", offer.delivery, driverId));
      return None;
    }

    method AssignDriver(deliveryId: DeliveryId, driverId: DriverId, otp: string) returns (error: Option<Error>)
      modifies this
      ensures error == if deliveryId in old(deliveries) && deliveryId in old(journal) then None else Some(DELIVERY_NOT_FOUND)
      ensures Db() == if error.Some? then old(Db()) else AssignEffect(old(Db()), deliveryId, driverId, otp)
      ensures error.None? ==>
                && deliveries == old(deliveries)[deliveryId :=
                     old(deliveries)[deliveryId].(status := ASSIGNED, driver := Some(driverId), otp := Some(otp))]
                && journal == old(journal)[deliveryId := old(journal)[deliveryId] + [ASSIGNED]]
                && published == old(published) + {OrderKey("DELIVERY_ASSIGNED_V1", deliveries[deliveryId].sellerOrderId)}
                && offers == old(offers) && assignments == old(assignments) && busy == old(busy)
    {
      if deliveryId !in deliveries || deliveryId !in journal {
        return Some(DELIVERY_NOT_FOUND);
      }
      var delivery := deliveries[deliveryId].(driver := Some(driverId), status := ASSIGNED, otp := Some(otp));
      SaveDelivery(deliveryId, delivery);
      PublishStatus(deliveryId, delivery);
      return None;
    }

    method UpdateStatusInternal(deliveryId: DeliveryId, target: DeliveryStatus) returns (error: Option<Error>)
      modifies this
      ensures error == CheckUpdate(old(Db()), deliveryId, target)
      ensures Db() == if error.Some? then old(Db()) else UpdateEffect(old(Db()), deliveryId, target)
      ensures error == Some(DELIVERY_NOT_FOUND) <==> !(deliveryId in old(deliveries) && deliveryId in old(journal))
      ensures deliveryId in old(deliveries) && deliveryId in old(journal) ==>
                var was := old(deliveries)[deliveryId];
                && error == (if was.status == target || (was.status, target) in MOVES then None
                             else Some(INVALID_TRANSITION))
                && (error.None? && was.status != target ==>
                      && deliveries == old(deliveries)[deliveryId := was.(status := target)]
                      && journal == old(journal)[deliveryId := old(journal)[deliveryId] + [target]]
                      && published == old(published) +
                           (if target in EVENT_TYPES then {OrderKey(EVENT_TYPES[target], was.sellerOrderId)} else {})
                      && offers == old(offers) && assignments == old(assignments) && busy == old(busy))
                && (was.status == target ==> Db() == old(Db()))
    {
      AnnouncedStatuses(target);
      if deliveryId in deliveries {
        AllowedMoves(deliveries[deliveryId].status, target);
      }
      hide AllowedTransitions, VendureEventType, MOVES, EVENT_TYPES, IsVendureStatus;
      if deliveryId !in deliveries || deliveryId !in journal {
        return Some(DELIVERY_NOT_FOUND);
      }
      var delivery := deliveries[deliveryId];
      if delivery.status == target {
        return None;
      }
      if target !in AllowedTransitions(delivery.status) {
        return Some(INVALID_TRANSITION);
      }
      delivery := delivery.(status := target);
      SaveDelivery(deliveryId, delivery);
      if IsVendureStatus(target) {
        PublishStatus(deliveryId, delivery);
      }
      return None;
    }

    method VerifyOtp(deliveryId: DeliveryId, otp: string, near: bool) returns (error: Option<Error>)
      modifies this
      ensures error == CheckOtp(old(Db()), deliveryId, otp, near)
      ensures Db() == if error.Some? then old(Db()) else OtpEffect(old(Db()), deliveryId)
      ensures error == Some(DELIVERY_NOT_FOUND) <==> !(deliveryId in old(deliveries) && deliveryId in old(journal))
      ensures deliveryId in old(deliveries) && deliveryId in old(journal) ==>
                var was := old(deliveries)[deliveryId];
                && (was.status == DELIVERED ==> error == None && Db() == old(Db()))
                && (was.status != DELIVERED ==>
                      && (error == Some(NO_OTP) <==> was.otp == None)
                      && (error == Some(TOO_FAR_AWAY) <==> was.otp.Some? && !near)
                      && (error == Some(INVALID_OTP) <==> was.otp.Some? && near && was.otp != Some(otp))
                      && (error == None <==> near && was.otp == Some(otp))
                      && (error == None ==>
                            && deliveries == old(deliveries)[deliveryId := was.(status := DELIVERED, otp := None)]
                            && journal == old(journal)[deliveryId := old(journal)[deliveryId] + [DELIVERED]]
                            && published == old(published) +
                                 {OrderKey("DELIVERY_DROPOFF_CONFIRMED_V1", was.sellerOrderId)}
                            && offers == old(offers) && assignments == old(assignments) && busy == old(busy)))
    {
      if deliveryId !in deliveries || deliveryId !in journal {
        return Some(DELIVERY_NOT_FOUND);
      }
      var delivery := deliveries[deliveryId];
      if delivery.status == DELIVERED {
        return None;
      }
      if delivery.otp.None? {
        return Some(NO_OTP);
      }
      if !near {
        return Some(TOO_FAR_AWAY);
      }
      if delivery.otp.value != otp {
        return Some(INVALID_OTP);
      }
      delivery := delivery.(otp := None, status := DELIVERED);
      SaveDelivery(deliveryId, delivery);
      PublishStatus(deliveryId, delivery);
      return None;
    }

    /** The first half of `generateDeliveryOtp`: it reads without a lock and checks what it has read. */
    method LoadForOtp(deliveryId: DeliveryId) returns (error: Option<Error>, copy: Option<Delivery>)
      ensures error == CheckOtpRequest(Db(), deliveryId)
      ensures copy == if error.Some? then None else Some(deliveries[deliveryId])
      ensures error == Some(DELIVERY_NOT_FOUND) <==> !(deliveryId in deliveries && deliveryId in journal)
      ensures deliveryId in deliveries && deliveryId in journal ==>
                var delivery := deliveries[deliveryId];
                && (error == Some(NO_DRIVER) <==> delivery.driver == None)
                && (error == None <==> delivery.driver.Some? && delivery.status != DELIVERED && delivery.status != CANCELLED)
                && (error == Some(TERMINAL_STATE) <==>
                      delivery.driver.Some? && (delivery.status == DELIVERED || delivery.status == CANCELLED))
    {
      if deliveryId !in deliveries || deliveryId !in journal {
        return Some(DELIVERY_NOT_FOUND), None;
      }
      var delivery := deliveries[deliveryId];
      if delivery.driver.None? {
        return Some(NO_DRIVER), None;
      }
      if delivery.status == DELIVERED || delivery.status == CANCELLED {
        return Some(TERMINAL_STATE), None;
      }
      return None, Some(delivery);
    }

    /** The read of the SLA monitor. */
    method LoadForSla() returns (breaches: set<DeliveryId>)
      ensures breaches == set id | id in deliveries && Monitored(Db(), id)
      ensures forall id :: id in breaches <==>
                && id in deliveries && id in journal
                && (deliveries[id].status == ASSIGNED || deliveries[id].status == PICKED_UP || deliveries[id].status == IN_TRANSIT)
    {
      breaches := set id | id in deliveries && id in journal && deliveries[id].status in {ASSIGNED, PICKED_UP, IN_TRANSIT};
    }

    /** The later save writes the delivery back as it was read, with the new code if there is one. */
    method SaveCopy(deliveryId: DeliveryId, copy: Delivery, otp: Option<string>)
      requires deliveryId in deliveries && deliveryId in journal
      modifies this
      ensures Db() == SaveEffect(old(Db()), deliveryId, copy, otp)
      ensures deliveries == old(deliveries)[deliveryId :=
                Delivery(copy.sellerOrderId, copy.status, copy.driver, if otp.Some? then otp else copy.otp)]
      ensures journal == if copy.status == old(deliveries)[deliveryId].status then old(journal)
                         else old(journal)[deliveryId := old(journal)[deliveryId] + [copy.status]]
      ensures offers == old(offers) && assignments == old(assignments) && busy == old(busy) && published == old(published)
    {
      var delivery := copy;
      if otp.Some? {
        delivery := copy.(otp := otp);
      }
      if delivery.status == deliveries[deliveryId].status {
        deliveries := deliveries[deliveryId := delivery];
      } else {
        SaveDelivery(deliveryId, delivery);
      }
    }
  }
}
