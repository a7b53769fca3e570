/** The field names that the janitor shortens in archived payloads (outbox-janitor.service.ts). */
module FieldNames {

  function ShortName(key: string): string {
    if key == "created_at" then "ca"
    else if key == "updated_at" then "ua"
    else if key == "event_type" then "et"
    else if key == "event_id" then "eid"
    else if key == "user_id" then "uid"
    else if key == "driver_id" then "did"
    else if key == "delivery_id" then "dlid"
    else if key == "location" then "loc"
    else if key == "timestamp" then "ts"
    else if key == "status" then "st"
    else if key == "payload" then "pl"
    else if key == "metadata" then "md"
    else if key == "description" then "desc"
    else if key == "message" then "msg"
    else if key == "error" then "err"
    else if key == "success" then "suc"
    else if key == "failed" then "fail"
    else if key == "completed" then "comp"
    else if key == "processing" then "proc"
    else if key == "pending" then "pend"
    else key
  }

  /** The inverse key map, one branch per length of the short name. */
  function LongName(key: string): string {
    if |key| == 2 then LongOfTwo(key)
    else if |key| == 3 then LongOfThree(key)
    else if |key| == 4 then LongOfFour(key)
    else key
  }

  function LongOfTwo(key: string): string {
    if key == "ca" then "created_at"
    else if key == "ua" then "updated_at"
    else if key == "et" then "event_type"
    else if key == "ts" then "timestamp"
    else if key == "st" then "status"
    else if key == "pl" then "payload"
    else if key == "md" then "metadata"
    else key
  }

  function LongOfThree(key: string): string {
    if key == "eid" then "event_id"
    else if key == "uid" then "user_id"
    else if key == "did" then "driver_id"
    else if key == "loc" then "location"
    else if key == "msg" then "message"
    else if key == "err" then "error"
    else if key == "suc" then "success"
    else key
  }

  function LongOfFour(key: string): string {
    if key == "dlid" then "delivery_id"
    else if key == "desc" then "description"
    else if key == "fail" then "failed"
    else if key == "comp" then "completed"
    else if key == "proc" then "processing"
    else if key == "pend" then "pending"
    else key
  }

  predicate IsShortName(key: string) {
    LongName(key) != key
  }

  predicate IsWord(s: string) {
    forall i :: 0 <= i < |s| ==> 'a' <= s[i] <= 'z'
  }

  predicate Entry(long: string, short: string) {
    || (long == "created_at" && short == "ca")
    || (long == "updated_at" && short == "ua")
    || (long == "event_type" && short == "et")
    || (long == "event_id" && short == "eid")
    || (long == "user_id" && short == "uid")
    || (long == "driver_id" && short == "did")
    || (long == "delivery_id" && short == "dlid")
    || (long == "location" && short == "loc")
    || (long == "timestamp" && short == "ts")
    || (long == "status" && short == "st")
    || (long == "payload" && short == "pl")
    || (long == "metadata" && short == "md")
    || (long == "description" && short == "desc")
    || (long == "message" && short == "msg")
    || (long == "error" && short == "err")
    || (long == "success" && short == "suc")
    || (long == "failed" && short == "fail")
    || (long == "completed" && short == "comp")
    || (long == "processing" && short == "proc")
    || (long == "pending" && short == "pend")
  }

  lemma ShortNameIsAnEntry(key: string)
    ensures ShortName(key) == key || Entry(key, ShortName(key))
  {
  }

  lemma LongOfTwoInverts(long: string, short: string)
    requires Entry(long, short) && |short| == 2
    ensures LongOfTwo(short) == long && |long| >= 5 && IsWord(short)
  {
  }

  lemma LongOfThreeInverts(long: string, short: string)
    requires Entry(long, short) && |short| == 3
    ensures LongOfThree(short) == long && |long| >= 5 && IsWord(short)
  {
  }

  lemma LongOfFourInverts(long: string, short: string)
    requires Entry(long, short) && |short| == 4
    ensures LongOfFour(short) == long && |long| >= 5 && IsWord(short)
  {
  }

  lemma LongNameIsAnEntry(key: string)
    ensures LongName(key) == key || (Entry(LongName(key), key) && 2 <= |key| <= 4)
  {
  }

  lemma EntryInverts(long: string, short: string)
    requires Entry(long, short)
    ensures LongName(short) == long && |long| >= 5 && |short| < 5 && IsWord(short)
  {
    hide LongOfTwo, LongOfThree, LongOfFour;
    assert 2 <= |short| <= 4;
    hide Entry;
    if |short| == 2 {
      LongOfTwoInverts(long, short);
    } else if |short| == 3 {
      LongOfThreeInverts(long, short);
    } else {
      LongOfFourInverts(long, short);
    }
  }

  lemma ShortWordsStay(key: string)
    requires |key| < 5
    ensures ShortName(key) == key
  {
  }

  /**
   * A renamed key becomes a shorter lower-case word that is not renamed again; the inverse map gives the key back
   * exactly when it was not a short name already.
   */
  lemma NamesInvert(key: string)
    ensures ShortName(ShortName(key)) == ShortName(key)
    ensures ShortName(key) == key || (|ShortName(key)| < |key| && IsWord(ShortName(key)))
    ensures LongName(ShortName(key)) == key <==> !IsShortName(key)
    ensures !IsShortName(LongName(key))
  {
    ShortNameIsAnEntry(key);
    LongNameIsAnEntry(key);
    hide ShortName, Entry, LongOfTwo, LongOfThree, LongOfFour;
    if ShortName(key) != key {
      EntryInverts(key, ShortName(key));
      ShortWordsStay(ShortName(key));
    }
    if LongName(key) != key {
      EntryInverts(LongName(key), key);
    }
  }

  /** The names that are shortened are exactly those of the entries, and each becomes its entry's short form. */
  lemma ShortNamesAreTheEntries(key: string, short: string)
    ensures Entry(key, short) <==> ShortName(key) == short != key
  {
    ShortNameIsAnEntry(key);
    if Entry(key, short) {
      EntryIsShortened(key, short);
      EntryInverts(key, short);
    }
  }

  lemma EntryIsShortened(long: string, short: string)
    requires Entry(long, short)
    ensures ShortName(long) == short
  {
  }
}
