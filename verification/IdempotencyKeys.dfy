/** Publishing into the outbox and the idempotency keys that deduplicate it (outbox.service.ts). */
module IdempotencyKeys {

  /** The payload fields a key can be made of. An empty string stands for a missing field too, because
      the source tests them for truthiness. */
  datatype Payload = Payload(sellerOrderId: string, deliveryId: string, driverId: string, proofType: string)

  /** What a key identifies: its class and the fields of that class. */
  datatype KeyId =
    | OrderKey(eventType: string, sellerOrderId: string)
    | DriverKey(eventType: string, deliveryId: string, driverId: string)
    | ProofKey(eventType: string, deliveryId: string, proofType: string)
    | DeliveryKey(eventType: string, deliveryId: string)
    | TimestampKey(eventType: string, timestamp: string)

  function Identify(eventType: string, p: Payload, now: string): KeyId {
    if p.sellerOrderId != "" then OrderKey(eventType, p.sellerOrderId)
    else if p.deliveryId != "" && p.driverId != "" then DriverKey(eventType, p.deliveryId, p.driverId)
    else if p.deliveryId != "" && p.proofType != "" then ProofKey(eventType, p.deliveryId, p.proofType)
    else if p.deliveryId != "" then DeliveryKey(eventType, p.deliveryId)
    else TimestampKey(eventType, now)
  }

  function Render(k: KeyId): string {
    k.eventType + ":" +
    match k
    case OrderKey(_, s) => "order:" + s
    case DriverKey(_, d, r) => "delivery:" + d + ":driver:" + r
    case ProofKey(_, d, p) => "delivery:" + d + ":proof:" + p
    case DeliveryKey(_, d) => "delivery:" + d
    case TimestampKey(_, t) => "ts:" + t
  }

  function GenerateIdempotencyKey(eventType: string, p: Payload, now: string): string {
    Render(Identify(eventType, p, now))
  }

  /** The key as a string, from the payload fields in their order of precedence. */
  lemma KeyStrings(eventType: string, p: Payload, now: string)
    ensures var key := GenerateIdempotencyKey(eventType, p, now);
            if p.sellerOrderId != "" then key == eventType + ":order:" + p.sellerOrderId
            else if p.deliveryId == "" then key == eventType + ":ts:" + now
            else if p.driverId != "" then key == eventType + ":delivery:" + p.deliveryId + ":driver:" + p.driverId
            else if p.proofType != "" then key == eventType + ":delivery:" + p.deliveryId + ":proof:" + p.proofType
            else key == eventType + ":delivery:" + p.deliveryId
  {
    RenderParts(Identify(eventType, p, now));
  }

  /** The class of the key, from the payload fields. */
  lemma KeyClasses(eventType: string, p: Payload, now: string)
    ensures var k := Identify(eventType, p, now);
            && k.eventType == eventType
            && (k.OrderKey? <==> p.sellerOrderId != "")
            && (k.OrderKey? ==> k.sellerOrderId == p.sellerOrderId)
            && (k.TimestampKey? <==> p.sellerOrderId == "" && p.deliveryId == "")
            && (k.TimestampKey? ==> k.timestamp == now)
            && (!k.OrderKey? && !k.TimestampKey? ==>
                  && DeliveryOf(k) == p.deliveryId
                  && (k.DriverKey? <==> p.driverId != "")
                  && (k.DriverKey? ==> k.driverId == p.driverId)
                  && (k.ProofKey? <==> p.driverId == "" && p.proofType != "")
                  && (k.ProofKey? ==> k.proofType == p.proofType))
  {
  }

  /** The valid event types are the words of capitals and underscores with a version from 1 to 3 behind them. */
  lemma ValidEventTypes(eventType: string)
    ensures IsValidVersionedEventType(eventType) <==>
            exists word: string, version: char ::
              && eventType == word + "_V" + [version]
              && word != "" && (forall c :: c in word ==> c in "ABCDEFGHIJKLMNOPQRSTUVWXYZ_")
              && version in "123"
  {
    var n := |eventType| - 3;
    if IsValidVersionedEventType(eventType) {
      var word, version := eventType[..n], eventType[n + 2];
      assert eventType == word + "_V" + [version];
      forall c | c in word ensures c in "ABCDEFGHIJKLMNOPQRSTUVWXYZ_" {
        var i :| 0 <= i < n && word[i] == c;
        Capitals(eventType[i]);
      }
      Digits(version);
    }
    if word: string, version: char :|
        eventType == word + "_V" + [version] && word != "" &&
        (forall c :: c in word ==> c in "ABCDEFGHIJKLMNOPQRSTUVWXYZ_") && version in "123" {
      forall i | 0 <= i < n ensures 'A' <= eventType[i] <= 'Z' || eventType[i] == '_' {
        assert eventType[i] == word[i];
        Capitals(word[i]);
      }
      Digits(version);
    }
  }

  lemma Capitals(c: char)
    ensures c in "ABCDEFGHIJKLMNOPQRSTUVWXYZ_" <==> 'A' <= c <= 'Z' || c == '_'
  {
    var all := "ABCDEFGHIJKLMNOPQRSTUVWXYZ_";
    assert forall i :: 0 <= i < 26 ==> all[i] == 'A' + i as char;
    if 'A' <= c <= 'Z' {
      assert all[(c - 'A') as int] == c;
    }
    assert all[26] == '_';
  }

  lemma Digits(c: char)
    ensures c in "123" <==> '1' <= c <= '3'
  {
    var all := "123";
    assert all[0] == '1' && all[1] == '2' && all[2] == '3';
  }

  predicate IsValidVersionedEventType(eventType: string) {
    && |eventType| >= 4
    && (forall i :: 0 <= i < |eventType| - 3 ==> 'A' <= eventType[i] <= 'Z' || eventType[i] == '_')
    && eventType[|eventType| - 3] == '_' && eventType[|eventType| - 2] == 'V'
    && '1' <= eventType[|eventType| - 1] <= '3'
  }

  predicate ColonFree(s: string) {
    ':' !in s
  }

  /** The delivery id of a key class that has one. */
  function DeliveryOf(k: KeyId): string {
    match k
    case DriverKey(_, d, _) => d
    case ProofKey(_, d, _) => d
    case DeliveryKey(_, d) => d
    case _ => ""
  }

  predicate OccursAt(word: string, s: string, i: nat) {
    i + |word| <= |s| && s[i..i + |word|] == word
  }

  /** A delivery id that can be taken for a shorter one with the marker of another key class behind it. */
  ghost predicate Marked(d: string) {
    exists i: nat :: OccursAt(":driver:", d + ":", i) || OccursAt(":proof:", d + ":", i)
  }

  ghost predicate WellFormed(k: KeyId) {
    IsValidVersionedEventType(k.eventType) && !Marked(DeliveryOf(k))
  }

  lemma ColonFreeIdsAreUnmarked(d: string)
    ensures ColonFree(d) ==> !Marked(d)
  {
    if Marked(d) {
      var i: nat :| OccursAt(":driver:", d + ":", i) || OccursAt(":proof:", d + ":", i);
      if OccursAt(":driver:", d + ":", i) {
        MarkerStart(":driver:", d, i);
      } else {
        MarkerStart(":proof:", d, i);
      }
    }
  }

  lemma MarkerStart(marker: string, d: string, i: nat)
    requires OccursAt(marker, d + ":", i) && |marker| >= 2 && marker[0] == ':'
    ensures i < |d| && d[i] == ':'
  {
    assert (d + ":")[i..i + |marker|][0] == (d + ":")[i];
  }

  // --- parsing ---

  lemma FirstColon(a: string, x: string, b: string, y: string)
    requires ColonFree(a) && ColonFree(b) && a + ":" + x == b + ":" + y
    ensures a == b && x == y
  {
    var s, t := a + ":" + x, b + ":" + y;
    assert s[|a|] == ':' && t[|b|] == ':';
    assert forall i :: 0 <= i < |a| ==> s[i] != ':';
    assert forall i :: 0 <= i < |b| ==> t[i] != ':';
    assert a == s[..|a|] && b == t[..|b|];
    assert x == s[|a| + 1..] && y == t[|b| + 1..];
  }

  lemma ValidTypesAreColonFree(eventType: string)
    requires IsValidVersionedEventType(eventType)
    ensures ColonFree(eventType)
  {
    forall i | 0 <= i < |eventType| ensures eventType[i] != ':' {
      if i >= |eventType| - 3 {
        assert i == |eventType| - 3 || i == |eventType| - 2 || i == |eventType| - 1;
      }
    }
  }

  function Rest(k: KeyId): string {
    match k
    case OrderKey(_, s) => s
    case DriverKey(_, d, r) => d + ":driver:" + r
    case ProofKey(_, d, p) => d + ":proof:" + p
    case DeliveryKey(_, d) => d
    case TimestampKey(_, t) => t
  }

  function Word(k: KeyId): string {
    match k case OrderKey(_, _) => "order" case TimestampKey(_, _) => "ts" case _ => "delivery"
  }

  lemma RenderParts(k: KeyId)
    ensures Render(k) == k.eventType + ":" + (Word(k) + ":" + Rest(k))
    ensures ColonFree(Word(k))
  {
    match k
    case OrderKey(_, s) => assert "order:" + s == "order" + ":" + s;
    case DriverKey(_, d, r) => assert "delivery:" + d + ":driver:" + r == "delivery" + ":" + (d + ":driver:" + r);
    case ProofKey(_, d, p) => assert "delivery:" + d + ":proof:" + p == "delivery" + ":" + (d + ":proof:" + p);
    case DeliveryKey(_, d) => assert "delivery:" + d == "delivery" + ":" + d;
    case TimestampKey(_, t) => assert "ts:" + t == "ts" + ":" + t;
  }

  /** What follows the delivery id: nothing, or a marker and the identifying field. */
  function Behind(k: KeyId): string {
    match k case DriverKey(_, _, r) => ":driver:" + r case ProofKey(_, _, p) => ":proof:" + p case _ => ""
  }

  lemma RestParts(k: KeyId)
    requires Word(k) == "delivery"
    ensures Rest(k) == DeliveryOf(k) + Behind(k)
  {
    match k
    case DriverKey(_, d, r) => assert d + ":driver:" + r == d + (":driver:" + r);
    case ProofKey(_, d, p) => assert d + ":proof:" + p == d + (":proof:" + p);
    case _ =>
  }

  lemma SameSplit(a: string, x: string, b: string, y: string)
    requires a + x == b + y && |a| == |b|
    ensures a == b && x == y
  {
    assert a == (a + x)[..|a|] && b == (b + y)[..|b|];
    assert x == (a + x)[|a|..] && y == (b + y)[|b|..];
  }

  lemma BehindTells(k: KeyId, l: KeyId)
    requires Word(k) == "delivery" == Word(l) && k.eventType == l.eventType
    requires DeliveryOf(k) == DeliveryOf(l) && Behind(k) == Behind(l)
    ensures k == l
  {
    assert k.DriverKey? ==> Behind(k)[1] == 'd' && Behind(k)[8..] == k.driverId;
    assert l.DriverKey? ==> Behind(l)[1] == 'd' && Behind(l)[8..] == l.driverId;
    assert k.ProofKey? ==> Behind(k)[1] == 'p' && Behind(k)[7..] == k.proofType;
    assert l.ProofKey? ==> Behind(l)[1] == 'p' && Behind(l)[7..] == l.proofType;
  }

  /** Ids of one length leave the same text behind them, which says what the key is. */
  lemma SameIdSameKey(k: KeyId, l: KeyId)
    requires Word(k) == "delivery" == Word(l) && k.eventType == l.eventType && Rest(k) == Rest(l)
    requires |DeliveryOf(k)| == |DeliveryOf(l)|
    ensures k == l
  {
    RestParts(k);
    RestParts(l);
    hide Rest, Word, Behind, DeliveryOf;
    SameSplit(DeliveryOf(k), Behind(k), DeliveryOf(l), Behind(l));
    BehindTells(k, l);
  }

  /** A marker that begins behind a text, where a longer text with a colon or nothing behind it reads the same, lies in
      the longer text and its colon, because its inner characters are no colons. */
  lemma MarkerInside(marker: string, d: string, r: string, longer: string, behind: string)
    requires |marker| >= 2 && forall j :: 0 < j < |marker| - 1 ==> marker[j] != ':'
    requires d + (marker + r) == longer + behind && |d| < |longer| && (behind == "" || behind[0] == ':')
    ensures OccursAt(marker, longer + ":", |d|)
  {
    var text, n := longer + behind, |longer|;
    forall j | 0 <= j < |marker| ensures text[|d| + j] == marker[j] {
      assert text[|d| + j] == (d + (marker + r))[|d| + j];
    }
    assert n < |text| ==> text[n] == behind[0];
    assert |d| + |marker| <= n + 1;
    var whole := longer + ":";
    forall j | 0 <= j < |marker| ensures whole[|d|..|d| + |marker|][j] == marker[j] {
      assert whole[|d| + j] == if |d| + j < n then text[|d| + j] else ':';
      assert text[|d| + j] == marker[j];
    }
  }

  /** If two different keys read the same behind their event type, the longer of their ids is marked. */
  lemma LongerIdIsMarked(k: KeyId, l: KeyId)
    requires Word(k) == "delivery" == Word(l) && Rest(k) == Rest(l) && |DeliveryOf(k)| < |DeliveryOf(l)|
    ensures Marked(DeliveryOf(l))
  {
    RestParts(k);
    RestParts(l);
    hide OccursAt, Rest, Word;
    match k
    case DriverKey(_, d, r) => MarkerInside(":driver:", d, r, DeliveryOf(l), Behind(l));
    case ProofKey(_, d, p) => MarkerInside(":proof:", d, p, DeliveryOf(l), Behind(l));
    case _ =>
  }

  /** Two keys with unmarked ids are the same string exactly when event type, class and identifying fields agree. */
  lemma KeysIdentify(k: KeyId, l: KeyId)
    requires WellFormed(k) && WellFormed(l)
    ensures Render(k) == Render(l) <==> k == l
  {
    if Render(k) == Render(l) {
      SameStringSameRest(k, l);
      hide Render, Marked, IsValidVersionedEventType;
      if Word(k) == "delivery" {
        if |DeliveryOf(k)| < |DeliveryOf(l)| {
          LongerIdIsMarked(k, l);
        } else if |DeliveryOf(l)| < |DeliveryOf(k)| {
          LongerIdIsMarked(l, k);
        } else {
          SameIdSameKey(k, l);
        }
      }
    }
  }

  lemma SameStringSameRest(k: KeyId, l: KeyId)
    requires IsValidVersionedEventType(k.eventType) && IsValidVersionedEventType(l.eventType)
    requires Render(k) == Render(l)
    ensures k.eventType == l.eventType && Word(k) == Word(l) && Rest(k) == Rest(l)
    ensures Word(k) == "order" ==> k.OrderKey? && l.OrderKey?
    ensures Word(k) == "ts" ==> k.TimestampKey? && l.TimestampKey?
    ensures Word(k) in {"order", "ts", "delivery"}
  {
    RenderParts(k);
    RenderParts(l);
    ValidTypesAreColonFree(k.eventType);
    ValidTypesAreColonFree(l.eventType);
    hide IsValidVersionedEventType, Render;
    FirstColon(k.eventType, Word(k) + ":" + Rest(k), l.eventType, Word(l) + ":" + Rest(l));
    FirstColon(Word(k), Rest(k), Word(l), Rest(l));
    assert "order" != "delivery" && "order" != "ts" && "ts" != "delivery";
  }

  /** A different key with a shorter id that is the same string. */
  ghost predicate TakenFor(k: KeyId, l: KeyId) {
    && Word(k) == "delivery" == Word(l) && k != l && |DeliveryOf(l)| < |DeliveryOf(k)|
    && IsValidVersionedEventType(k.eventType) && IsValidVersionedEventType(l.eventType) && Render(k) == Render(l)
  }

  /** Exactly the marked ids occur in a key that is also the key of a shorter id. */
  lemma MarkedIdsAreConfused(d: string, eventType: string)
    requires IsValidVersionedEventType(eventType)
    ensures Marked(d) <==> exists k, l :: DeliveryOf(k) == d && k.eventType == eventType && TakenFor(k, l)
  {
    hide IsValidVersionedEventType;
    if Marked(d) {
      var i: nat :| OccursAt(":driver:", d + ":", i) || OccursAt(":proof:", d + ":", i);
      hide Marked;
      if OccursAt(":driver:", d + ":", i) {
        DriverMarker(d, eventType, i);
      } else {
        ProofMarker(d, eventType, i);
      }
    }
    forall k, l | DeliveryOf(k) == d && TakenFor(k, l) ensures Marked(d) {
      SameStringSameRest(k, l);
      LongerIdIsMarked(l, k);
    }
  }

  /** An id with a whole marker is also the id before it, with what follows as driver or proof type. */
  lemma MarkerIn(d: string, marker: string, i: nat)
    requires OccursAt(marker, d + ":", i) && marker != "" && i + |marker| <= |d|
    ensures d == d[..i] + marker + d[i + |marker|..]
  {
    assert d[i..i + |marker|] == (d + ":")[i..i + |marker|];
  }

  /** An id that ends in a marker without its last colon borrows the colon of the text behind it. */
  lemma MarkerAtEnd(d: string, marker: string, i: nat)
    requires OccursAt(marker, d + ":", i) && marker != "" && i + |marker| > |d|
    ensures i < |d| + 1 && d + ":" == d[..i] + marker
  {
    assert d + ":" == (d + ":")[..i] + (d + ":")[i..i + |marker|];
    if i <= |d| {
      assert (d + ":")[..i] == d[..i];
    }
  }

  lemma DriverMarker(d: string, eventType: string, i: nat)
    requires IsValidVersionedEventType(eventType) && OccursAt(":driver:", d + ":", i)
    ensures exists k, l :: DeliveryOf(k) == d && k.eventType == eventType && TakenFor(k, l)
  {
    hide IsValidVersionedEventType, OccursAt;
    assert i < |d| + 1 by { OccursBefore(":driver:", d, i); }
    var a := d[..i];
    if i + 8 <= |d| {
      MarkerIn(d, ":driver:", i);
      Imitation(DeliveryKey(eventType, d), DriverKey(eventType, a, d[i + 8..]));
    } else {
      MarkerAtEnd(d, ":driver:", i);
      assert d + ":driver:" + "" == (d + ":") + "driver:" == a + ":driver:" + "driver:";
      Imitation(DriverKey(eventType, d, ""), DriverKey(eventType, a, "driver:"));
    }
  }

  lemma OccursBefore(marker: string, d: string, i: nat)
    requires OccursAt(marker, d + ":", i) && |marker| >= 2
    ensures i < |d|
  {
  }

  lemma Imitation(k: KeyId, l: KeyId)
    requires Word(k) == "delivery" == Word(l) && k != l && |DeliveryOf(l)| < |DeliveryOf(k)|
    requires k.eventType == l.eventType && IsValidVersionedEventType(k.eventType) && Rest(k) == Rest(l)
    ensures TakenFor(k, l)
  {
    RenderParts(k);
    RenderParts(l);
    hide Render, IsValidVersionedEventType;
  }

  lemma ProofMarker(d: string, eventType: string, i: nat)
    requires IsValidVersionedEventType(eventType) && OccursAt(":proof:", d + ":", i)
    ensures exists k, l :: DeliveryOf(k) == d && k.eventType == eventType && TakenFor(k, l)
  {
    hide IsValidVersionedEventType, OccursAt;
    assert i < |d| + 1 by { OccursBefore(":proof:", d, i); }
    var a := d[..i];
    if i + 7 <= |d| {
      MarkerIn(d, ":proof:", i);
      Imitation(DeliveryKey(eventType, d), ProofKey(eventType, a, d[i + 7..]));
    } else {
      MarkerAtEnd(d, ":proof:", i);
      assert d + ":driver:" + "" == (d + ":") + "driver:" == a + ":proof:" + "driver:";
      Imitation(DriverKey(eventType, d, ""), ProofKey(eventType, a, "driver:"));
    }
  }

  /** For example, an id with a driver marker imitates a driver key. */
  lemma ColonsConfuseKeys(eventType: string)
    ensures Render(DeliveryKey(eventType, "a:driver:b")) == Render(DriverKey(eventType, "a", "b"))
  {
    assert "delivery:" + "a:driver:b" == "delivery:" + "a" + ":driver:" + "b";
  }

  // --- publishing ---

  datatype Event = Event(eventType: string, payload: Payload, version: nat)

  datatype Outcome = Published | Duplicate | UnknownEventType

  /** The hot table by key: a known key changes nothing. */
  function AfterPublish(events: map<string, Event>, eventType: string, p: Payload, version: nat, now: string)
    : map<string, Event>
  {
    var key := GenerateIdempotencyKey(eventType, p, now);
    if !IsValidVersionedEventType(eventType) || key in events then events
    else events[key := Event(eventType, p, version)]
  }

  class OutboxService {
    var events: map<string, Event>

    constructor ()
      ensures events == map[]
    {
      events := map[];
    }

    method Publish(eventType: string, p: Payload, version: nat, now: string) returns (outcome: Outcome)
      modifies this
      ensures events == AfterPublish(old(events), eventType, p, version, now)
      ensures events == if outcome == Published
                        then old(events)[GenerateIdempotencyKey(eventType, p, now) := Event(eventType, p, version)]
                        else old(events)
      ensures outcome.UnknownEventType? <==> !IsValidVersionedEventType(eventType)
      ensures outcome.Duplicate? <==>
                IsValidVersionedEventType(eventType) && GenerateIdempotencyKey(eventType, p, now) in old(events)
    {
      if !IsValidVersionedEventType(eventType) {
        return UnknownEventType;
      }
      var key := GenerateIdempotencyKey(eventType, p, now);
      if key in events {
        return Duplicate;
      }
      events := events[key := Event(eventType, p, version)];
      return Published;
    }
  }

  /** Publishing again is without effect whenever the payload has a stable field, whatever else has changed in it. */
  lemma PublishingTwiceIsOnce(
    events: map<string, Event>, eventType: string, p: Payload, q: Payload, v: nat, w: nat, t1: string, t2: string)
    requires Identify(eventType, p, t1) == Identify(eventType, q, t2)
    ensures var once := AfterPublish(events, eventType, p, v, t1);
            AfterPublish(once, eventType, q, w, t2) == once
    ensures !Identify(eventType, p, t1).TimestampKey? ==> Identify(eventType, p, t2) == Identify(eventType, p, t1)
  {
    assert GenerateIdempotencyKey(eventType, q, t2) == GenerateIdempotencyKey(eventType, p, t1);
  }

  /** A driver's proof events for one delivery share a key whatever their proof types, so once the pickup
      proof is in the table the drop-off proof is swallowed. */
  lemma DropoffProofIsSwallowed(
    events: map<string, Event>, delivery: string, driver: string, t1: string, t2: string)
    requires delivery != "" && driver != ""
    ensures var pickup, dropoff := Payload("", delivery, driver, "PICKUP"), Payload("", delivery, driver, "DROPOFF");
            var after := AfterPublish(events, "PROOF_ACCEPTED_V1", pickup, 1, t1);
            AfterPublish(after, "PROOF_ACCEPTED_V1", dropoff, 1, t2) == after
  {
    var key := Render(DriverKey("PROOF_ACCEPTED_V1", delivery, driver));
    assert GenerateIdempotencyKey("PROOF_ACCEPTED_V1", Payload("", delivery, driver, "PICKUP"), t1) == key;
    assert GenerateIdempotencyKey("PROOF_ACCEPTED_V1", Payload("", delivery, driver, "DROPOFF"), t2) == key;
  }

  /** Accepting an offer publishes without a seller order id, `assignDriver` with one: their ASSIGNED
      events never share a key, so deduplication never merges them. */
  lemma AssignedEventsAreNotMerged(
    delivery: string, driver: string, other: string, otherDriver: string, order: string, t1: string, t2: string)
    requires delivery != "" && driver != "" && order != ""
    ensures GenerateIdempotencyKey("DELIVERY_ASSIGNED_V1", Payload("", delivery, driver, ""), t1) !=
            GenerateIdempotencyKey("DELIVERY_ASSIGNED_V1", Payload(order, other, otherDriver, ""), t2)
  {
    var k, l := DriverKey("DELIVERY_ASSIGNED_V1", delivery, driver), OrderKey("DELIVERY_ASSIGNED_V1", order);
    RenderParts(k);
    RenderParts(l);
    hide Render;
    var n := |"DELIVERY_ASSIGNED_V1"| + 1;
    assert (k.eventType + ":" + (Word(k) + ":" + Rest(k)))[n] == 'd';
    assert (l.eventType + ":" + (Word(l) + ":" + Rest(l)))[n] == 'o';
  }
}
