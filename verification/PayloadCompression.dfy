/** Compression of archived payloads (outbox-janitor.service.ts). */
module PayloadCompression {
  import opened Options
  import opened PayloadTrees
  import opened FieldNames

  // --- cleaning ---

  /** The value without nulls and empty objects; absent when nothing is left. Empty arrays stay. */
  function Clean(j: Json): Option<Json> {
    match j
    case Null => None
    case Arr(items) => Some(Arr(CleanItems(items)))
    case Obj(fields) => var kept := CleanFields(fields); if kept == [] then None else Some(Obj(kept))
    case _ => Some(j)
  }

  function CleanItems(items: seq<Json>): seq<Json> {
    if items == [] then []
    else
      CleanItems(items[..|items| - 1]) +
      match Clean(items[|items| - 1]) { case None => [] case Some(kept) => [kept] }
  }

  function CleanFields(fields: seq<Field>): seq<Field> {
    if fields == [] then []
    else
      var front, last := CleanFields(fields[..|fields| - 1]), fields[|fields| - 1];
      match Clean(last.value) case None => front case Some(kept) => Put(front, last.key, kept)
  }

  method CleanPayload(payload: Json) returns (r: Option<Json>)
    ensures r == Clean(payload)
    decreases payload
  {
    match payload
    case Null => return None;
    case Arr(items) =>
      var kept := [];
      for i := 0 to |items|
        invariant kept == CleanItems(items[..i])
      {
        assert items[..i + 1][..i] == items[..i];
        var item := CleanPayload(items[i]);
        if item.Some? {
          kept := kept + [item.value];
        }
      }
      assert items[..|items|] == items;
      return Some(Arr(kept));
    case Obj(fields) =>
      var cleaned := [];
      for i := 0 to |fields|
        invariant cleaned == CleanFields(fields[..i])
      {
        assert fields[..i + 1][..i] == fields[..i];
        var value := CleanPayload(fields[i].value);
        if value.Some? {
          cleaned := Put(cleaned, fields[i].key, value.value);
        }
      }
      assert fields[..|fields|] == fields;
      return if |cleaned| > 0 then Some(Obj(cleaned)) else None;
    case _ => return Some(payload);
  }

  /** No null and no empty object at any depth. */
  predicate Tidy(j: Json) {
    match j
    case Null => false
    case Arr(items) => forall i :: 0 <= i < |items| ==> Tidy(items[i])
    case Obj(fields) => fields != [] && forall i :: 0 <= i < |fields| ==> Tidy(fields[i].value)
    case _ => true
  }

  datatype Token = Scalar(value: Json) | Key(key: string) | ArrOpen | ArrClose | ObjOpen | ObjClose

  /** The value read from left to right, passing over nulls and over objects without content. */
  function Content(j: Json): seq<Token> {
    match j
    case Null => []
    case Arr(items) => [ArrOpen] + ItemsContent(items) + [ArrClose]
    case Obj(fields) => var inside := FieldsContent(fields); if inside == [] then [] else [ObjOpen] + inside + [ObjClose]
    case _ => [Scalar(j)]
  }

  function ItemsContent(items: seq<Json>): seq<Token> {
    if items == [] then [] else ItemsContent(items[..|items| - 1]) + Content(items[|items| - 1])
  }

  function FieldsContent(fields: seq<Field>): seq<Token> {
    if fields == [] then []
    else
      var inside := Content(fields[|fields| - 1].value);
      FieldsContent(fields[..|fields| - 1]) + if inside == [] then [] else [Key(fields[|fields| - 1].key)] + inside
  }

  lemma ItemsContentSnoc(front: seq<Json>, last: Json)
    ensures ItemsContent(front + [last]) == ItemsContent(front) + Content(last)
  {
    hide Content;
    assert (front + [last])[..|front|] == front;
  }

  lemma FieldsContentSnoc(front: seq<Field>, last: Field)
    ensures FieldsContent(front + [last]) ==
            FieldsContent(front) + if Content(last.value) == [] then [] else [Key(last.key)] + Content(last.value)
  {
    hide Content;
    assert (front + [last])[..|front|] == front;
  }

  /** A value has content exactly when cleaning leaves something, and then the same content in a tidy value. */
  lemma {:induction false} CleanKeepsContent(j: Json)
    requires Proper(j)
    ensures Clean(j).None? <==> Content(j) == []
    ensures Clean(j).Some? ==> Content(Clean(j).value) == Content(j) && Tidy(Clean(j).value) && Proper(Clean(j).value)
    decreases j
  {
    match j
    case Arr(items) => CleanItemsKeepContent(items);
    case Obj(fields) => CleanFieldsKeepContent(fields);
    case _ =>
  }

  predicate TidyItems(items: seq<Json>) {
    forall i :: 0 <= i < |items| ==> Tidy(items[i]) && Proper(items[i])
  }

  lemma {:induction false} CleanItemsKeepContent(items: seq<Json>)
    requires forall i :: 0 <= i < |items| ==> Proper(items[i])
    ensures ItemsContent(CleanItems(items)) == ItemsContent(items) && TidyItems(CleanItems(items))
    decreases items
  {
    hide Clean, Content;
    if items != [] {
      var front, last := items[..|items| - 1], items[|items| - 1];
      CleanItemsKeepContent(front);
      CleanKeepsContent(last);
      if Clean(last).Some? {
        ItemsContentSnoc(CleanItems(front), Clean(last).value);
        assert CleanItems(items) == CleanItems(front) + [Clean(last).value];
      } else {
        assert CleanItems(items) == CleanItems(front);
        assert ItemsContent(items) == ItemsContent(front);
      }
    }
  }

  predicate TidyFields(fields: seq<Field>) {
    DistinctKeys(fields) && forall i :: 0 <= i < |fields| ==> Tidy(fields[i].value) && Proper(fields[i].value)
  }

  lemma {:induction false} CleanFieldsKeepContent(fields: seq<Field>)
    requires DistinctKeys(fields) && forall i :: 0 <= i < |fields| ==> Proper(fields[i].value)
    ensures FieldsContent(CleanFields(fields)) == FieldsContent(fields) && TidyFields(CleanFields(fields))
    ensures Keys(CleanFields(fields)) <= Keys(fields)
    ensures CleanFields(fields) == [] <==> FieldsContent(fields) == []
    decreases fields
  {
    hide Clean, Content;
    if fields != [] {
      var front, last := fields[..|fields| - 1], fields[|fields| - 1];
      CleanFieldsKeepContent(front);
      CleanKeepsContent(last.value);
      if Clean(last.value).Some? {
        var kept := Field(last.key, Clean(last.value).value);
        KeysSnoc(CleanFields(front), kept);
        FieldsContentSnoc(CleanFields(front), kept);
        assert CleanFields(fields) == CleanFields(front) + [kept];
      }
    }
  }

  /** Arrays always stay, also when nothing is left in them. */
  lemma ArraysStay(items: seq<Json>)
    ensures Clean(Arr(items)) == Some(Arr(CleanItems(items)))
    ensures Content(Arr(items)) != [] && Clean(Arr([])) == Some(Arr([])) && Clean(Arr([Null])) == Some(Arr([]))
  {
    assert [Null][..0] == [];
    assert CleanItems([Null]) == CleanItems([]) + [];
    assert Content(Arr(items))[0] == ArrOpen;
  }

  /** Cleaning a tidy value changes nothing, so cleaning twice is cleaning once. */
  lemma {:induction false} TidyStays(j: Json)
    requires Proper(j) && Tidy(j)
    ensures Clean(j) == Some(j)
    decreases j
  {
    match j
    case Arr(items) => TidyItemsStay(items);
    case Obj(fields) => TidyFieldsStay(fields);
    case _ =>
  }

  lemma {:induction false} TidyItemsStay(items: seq<Json>)
    requires TidyItems(items)
    ensures CleanItems(items) == items
    decreases items
  {
    hide Tidy, Proper, Clean;
    if items != [] {
      var front, last := items[..|items| - 1], items[|items| - 1];
      TidyItemsStay(front);
      TidyStays(last);
      assert items == front + [last];
    }
  }

  lemma {:induction false} TidyFieldsStay(fields: seq<Field>)
    requires TidyFields(fields)
    ensures CleanFields(fields) == fields
    decreases fields
  {
    hide Tidy, Proper, Clean;
    if fields != [] {
      var front, last := fields[..|fields| - 1], fields[|fields| - 1];
      TidyFieldsStay(front);
      TidyStays(last.value);
      SplitLast(fields);
    }
  }

  lemma CleanIsIdempotent(j: Json)
    requires Proper(j) && Clean(j).Some?
    ensures Clean(Clean(j).value) == Clean(j)
  {
    CleanKeepsContent(j);
    TidyStays(Clean(j).value);
  }

  /** Cleaning invents no key. */
  lemma {:induction false} CleanKeepsKeys(j: Json, p: string -> bool)
    requires AllKeys(j, p) && Clean(j).Some?
    ensures AllKeys(Clean(j).value, p)
    decreases j
  {
    match j
    case Arr(items) => CleanItemsKeepKeys(items, p);
    case Obj(fields) => CleanFieldsKeepKeys(fields, p);
    case _ =>
  }

  lemma {:induction false} CleanItemsKeepKeys(items: seq<Json>, p: string -> bool)
    requires forall i :: 0 <= i < |items| ==> AllKeys(items[i], p)
    ensures forall x :: x in CleanItems(items) ==> AllKeys(x, p)
    decreases items
  {
    hide Clean;
    if items != [] {
      CleanItemsKeepKeys(items[..|items| - 1], p);
      if Clean(items[|items| - 1]).Some? {
        CleanKeepsKeys(items[|items| - 1], p);
      }
    }
  }

  lemma {:induction false} CleanFieldsKeepKeys(fields: seq<Field>, p: string -> bool)
    requires forall i :: 0 <= i < |fields| ==> p(fields[i].key) && AllKeys(fields[i].value, p)
    ensures forall x :: x in CleanFields(fields) ==> p(x.key) && AllKeys(x.value, p)
    decreases fields
  {
    hide Clean, Put;
    if fields != [] {
      var front, last := fields[..|fields| - 1], fields[|fields| - 1];
      CleanFieldsKeepKeys(front, p);
      if Clean(last.value).Some? {
        CleanKeepsKeys(last.value, p);
        forall x | x in CleanFields(fields) ensures p(x.key) && AllKeys(x.value, p) {
          PutMembers(CleanFields(front), last.key, Clean(last.value).value, x);
        }
      }
    }
  }

  /** Cleaning never makes the text longer. */
  lemma {:induction false} CleanLength(j: Json)
    requires Clean(j).Some?
    ensures JsonLength(Clean(j).value) <= JsonLength(j)
    decreases j
  {
    match j
    case Arr(items) => CleanItemsLength(items);
    case Obj(fields) => CleanFieldsLength(fields);
    case _ =>
  }

  lemma {:induction false} CleanItemsLength(items: seq<Json>)
    ensures ItemsLength(CleanItems(items)) <= ItemsLength(items)
    ensures items != [] ==> ItemsLength(items) >= 1
    decreases items
  {
    hide Clean, JsonLength;
    if items != [] {
      var front, last := items[..|items| - 1], items[|items| - 1];
      CleanItemsLength(front);
      if Clean(last).Some? {
        CleanLength(last);
        assert (CleanItems(front) + [Clean(last).value])[..|CleanItems(front)|] == CleanItems(front);
      } else {
        assert CleanItems(items) == CleanItems(front);
      }
    }
  }

  lemma {:induction false} CleanFieldsLength(fields: seq<Field>)
    ensures FieldsLength(CleanFields(fields)) <= FieldsLength(fields)
    decreases fields
  {
    hide Clean, JsonLength, Put;
    if fields != [] {
      var front, last := fields[..|fields| - 1], fields[|fields| - 1];
      CleanFieldsLength(front);
      if Clean(last.value).Some? {
        CleanLength(last.value);
        PutLength(CleanFields(front), last.key, Clean(last.value).value);
      }
    }
  }

  // --- short field names ---

  function Normalize(j: Json): Json {
    Rename(j, ShortName)
  }

  function Expand(j: Json): Json {
    Rename(j, LongName)
  }

  predicate Free(key: string) {
    !IsShortName(key)
  }

  method NormalizeFieldNames(payload: Json) returns (r: Json)
    ensures r == Normalize(payload)
    decreases payload
  {
    match payload
    case Arr(items) =>
      var renamed := [];
      for i := 0 to |items|
        invariant renamed == RenameItems(items[..i], ShortName)
      {
        assert items[..i + 1][..i] == items[..i];
        var item := NormalizeFieldNames(items[i]);
        renamed := renamed + [item];
      }
      assert items[..|items|] == items;
      return Arr(renamed);
    case Obj(fields) =>
      var normalized := [];
      for i := 0 to |fields|
        invariant normalized == RenameFields(fields[..i], ShortName)
      {
        assert fields[..i + 1][..i] == fields[..i];
        var value := NormalizeFieldNames(fields[i].value);
        normalized := Put(normalized, ShortName(fields[i].key), value);
      }
      assert fields[..|fields|] == fields;
      return Obj(normalized);
    case _ => return payload;
  }

  /** Normalising twice is normalising once, also when a long name and its short form meet in one object. */
  lemma NormalizeIsIdempotent(j: Json)
    ensures Normalize(Normalize(j)) == Normalize(j)
  {
    var fixed := (k: string) => ShortName(k) == k;
    forall k ensures fixed(ShortName(k)) {
      NamesInvert(k);
    }
    hide ShortName, LongName;
    RenamedKeys(j, ShortName, fixed);
    RenameFixed(Normalize(j), ShortName, fixed);
  }

  /** The inverse key map gives a value back exactly when none of its keys is one of the short names. */
  lemma ExpandUndoesNormalize(j: Json)
    requires Proper(j)
    ensures Expand(Normalize(j)) == j <==> AllKeys(j, Free)
  {
    forall k ensures Free(LongName(k)) && (Free(k) ==> LongName(ShortName(k)) == k) {
      NamesInvert(k);
    }
    hide ShortName, LongName;
    RenamedKeys(Normalize(j), LongName, Free);
    if AllKeys(j, Free) {
      RenameUndone(j, ShortName, LongName, Free);
    }
  }

  lemma {:induction false} WordLength(s: string)
    requires IsWord(s)
    ensures StringLength(s) == |s| + 2
  {
    if s != "" {
      WordLength(s[..|s| - 1]);
    }
  }

  lemma {:induction false} StringIsNoShorter(s: string)
    ensures StringLength(s) >= |s| + 2
  {
    if s != "" {
      StringIsNoShorter(s[..|s| - 1]);
    }
  }

  lemma NormalizeLength(j: Json)
    ensures JsonLength(Normalize(j)) <= JsonLength(j)
  {
    hide ShortName, StringLength;
    forall k ensures StringLength(ShortName(k)) <= StringLength(k) {
      NamesInvert(k);
      if ShortName(k) != k {
        WordLength(ShortName(k));
        StringIsNoShorter(k);
      }
    }
    RenameLength(j, ShortName);
  }

  lemma {:induction false} RenameKeepsTidy(j: Json, f: string -> string)
    requires Tidy(j)
    ensures Tidy(Rename(j, f))
    decreases j
  {
    match j
    case Arr(items) =>
      RenameItemsAt(items, f);
      forall i | 0 <= i < |items| ensures Tidy(Rename(items[i], f)) {
        RenameKeepsTidy(items[i], f);
      }
    case Obj(fields) => RenameFieldsKeepTidy(fields, f);
    case _ =>
  }

  lemma {:induction false} RenameFieldsKeepTidy(fields: seq<Field>, f: string -> string)
    requires forall i :: 0 <= i < |fields| ==> Tidy(fields[i].value)
    ensures forall x :: x in RenameFields(fields, f) ==> Tidy(x.value)
    ensures fields != [] ==> RenameFields(fields, f) != []
    decreases fields
  {
    hide Rename, Put, Tidy;
    if fields != [] {
      var front, last := fields[..|fields| - 1], fields[|fields| - 1];
      RenameFieldsKeepTidy(front, f);
      RenameKeepsTidy(last.value, f);
      PutKeys(RenameFields(front, f), f(last.key), Rename(last.value, f));
      forall x | x in RenameFields(fields, f) ensures Tidy(x.value) {
        PutMembers(RenameFields(front, f), f(last.key), Rename(last.value, f), x);
      }
    }
  }

  // --- the three strategies in order ---

  /** Large strings are kept for now, so this rebuilds the same value. */
  method CompressLargeStrings(payload: Json) returns (r: Json)
    requires Proper(payload)
    ensures r == payload
    decreases payload
  {
    match payload
    case Arr(items) =>
      var rebuilt := [];
      for i := 0 to |items|
        invariant rebuilt == items[..i]
      {
        var item := CompressLargeStrings(items[i]);
        rebuilt := rebuilt + [item];
      }
      return Arr(rebuilt);
    case Obj(fields) =>
      var rebuilt := [];
      for i := 0 to |fields|
        invariant rebuilt == fields[..i]
      {
        var value := CompressLargeStrings(fields[i].value);
        PrefixIsDistinct(fields, i + 1);
        assert fields[..i + 1][..i] == fields[..i];
        rebuilt := Put(rebuilt, fields[i].key, value);
      }
      return Obj(rebuilt);
    case _ => return payload;
  }

  lemma {:induction false} PrefixIsDistinct(fields: seq<Field>, n: nat)
    requires DistinctKeys(fields) && n <= |fields|
    ensures DistinctKeys(fields[..n])
    decreases |fields| - n
  {
    if n < |fields| {
      PrefixIsDistinct(fields, n + 1);
      assert fields[..n + 1][..n] == fields[..n];
    } else {
      assert fields[..n] == fields;
    }
  }

  function Compress(j: Json): Option<Json> {
    match Clean(j) case None => None case Some(kept) => Some(Normalize(kept))
  }

  method CompressPayload(payload: Json) returns (r: Option<Json>)
    requires Proper(payload)
    ensures r == Compress(payload)
  {
    var cleaned := CleanPayload(payload);
    if cleaned.None? {
      return None;
    }
    CleanKeepsContent(payload);
    var compressed := CompressLargeStrings(cleaned.value);
    var normalized := NormalizeFieldNames(compressed);
    return Some(normalized);
  }

  /**
   * Compression fails exactly for values without content; otherwise it gives a tidy value that is no longer than the
   * original, that has no long name left and that compression leaves alone.
   */
  lemma CompressSettles(j: Json)
    requires Proper(j)
    ensures Compress(j).None? <==> Content(j) == []
    ensures Compress(j).Some? ==>
      var r := Compress(j).value;
      && Tidy(r) && Proper(r) && JsonLength(r) <= JsonLength(j) && Compress(r) == Some(r)
      && AllKeys(r, k => ShortName(k) == k)
  {
    CleanKeepsContent(j);
    if Clean(j).Some? {
      var kept := Clean(j).value;
      CleanLength(j);
      NormalizeLength(kept);
      RenameKeepsTidy(kept, ShortName);
      var shortened := (k: string) => ShortName(k) == k;
      forall k ensures shortened(ShortName(k)) {
        NamesInvert(k);
      }
      hide ShortName;
      RenamedKeys(kept, ShortName, shortened);
      TidyStays(Normalize(kept));
      NormalizeIsIdempotent(kept);
    }
  }

  /** When no key was a short name, the inverse key map recovers the cleaned value, and so all the content. */
  lemma CompressedPayloadsReadBack(j: Json)
    requires Proper(j) && AllKeys(j, Free) && Compress(j).Some?
    ensures Expand(Compress(j).value) == Clean(j).value
    ensures Content(Expand(Compress(j).value)) == Content(j)
  {
    CleanKeepsContent(j);
    CleanKeepsKeys(j, Free);
    ExpandUndoesNormalize(Clean(j).value);
  }

  // --- the pass over the archive ---

  datatype ArchivedEvent = ArchivedEvent(
    archivedAt: int, payload: Json, originalPayloadSize: nat,
    isCompressed: bool, compressedPayload: Option<Json>, compressedPayloadSize: Option<nat>)

  predicate Due(row: ArchivedEvent, cutoff: int) {
    row.archivedAt < cutoff && !row.isCompressed
  }

  /** The text of an absent value has no length, so the row of a payload without content fails and stays as it is. */
  function CompressedRow(row: ArchivedEvent, cutoff: int): ArchivedEvent {
    var small := Compress(row.payload);
    if Due(row, cutoff) && small.Some? then
      row.(compressedPayload := small, isCompressed := true, compressedPayloadSize := Some(JsonLength(small.value)))
    else row
  }

  function CompressedRows(rows: seq<ArchivedEvent>, cutoff: int): seq<ArchivedEvent> {
    if rows == [] then []
    else CompressedRows(rows[..|rows| - 1], cutoff) + [CompressedRow(rows[|rows| - 1], cutoff)]
  }

  function Compressed(rows: seq<ArchivedEvent>): nat {
    if rows == [] then 0
    else Compressed(rows[..|rows| - 1]) + if rows[|rows| - 1].isCompressed then 1 else 0
  }

  lemma {:induction false} CompressedCounts(rows: seq<ArchivedEvent>)
    ensures Compressed(rows) == |set i | 0 <= i < |rows| && rows[i].isCompressed|
  {
    if rows != [] {
      var n := |rows| - 1;
      CompressedCounts(rows[..n]);
      var before := set i | 0 <= i < n && rows[..n][i].isCompressed;
      var all := set i | 0 <= i < |rows| && rows[i].isCompressed;
      assert all == before + if rows[n].isCompressed then {n} else {};
    }
  }

  lemma PassStart(cutoff: int)
    ensures CompressedRows([], cutoff) == [] && Compressed([]) == 0
  {
  }

  lemma PassStep(rows: seq<ArchivedEvent>, cutoff: int, i: nat)
    requires i < |rows|
    ensures CompressedRows(rows[..i + 1], cutoff) == CompressedRows(rows[..i], cutoff) + [CompressedRow(rows[i], cutoff)]
    ensures Compressed(CompressedRows(rows[..i + 1], cutoff)) ==
            Compressed(CompressedRows(rows[..i], cutoff)) + if CompressedRow(rows[i], cutoff).isCompressed then 1 else 0
    ensures Compressed(rows[..i + 1]) == Compressed(rows[..i]) + if rows[i].isCompressed then 1 else 0
  {
    hide CompressedRow;
    assert rows[..i + 1][..i] == rows[..i];
    var done := CompressedRows(rows[..i], cutoff);
    assert (done + [CompressedRow(rows[i], cutoff)])[..|done|] == done;
  }

  lemma RowReplaced(done: seq<ArchivedEvent>, events: seq<ArchivedEvent>, i: nat, row: ArchivedEvent)
    requires |done| == i < |events|
    ensures (done + events[i..])[i := row] == done + [row] + events[i + 1..]
    ensures row == events[i] ==> done + events[i..] == done + [row] + events[i + 1..]
  {
  }

  lemma RowOutcome(row: ArchivedEvent, cutoff: int)
    ensures CompressedRow(row, cutoff) ==
            if row.archivedAt < cutoff && !row.isCompressed && Compress(row.payload).Some? then
              row.(compressedPayload := Compress(row.payload), isCompressed := true,
                   compressedPayloadSize := Some(JsonLength(Compress(row.payload).value)))
            else row
  {
    hide Compress, JsonLength;
  }

  class Archive {
    var rows: seq<ArchivedEvent>

    constructor (rows: seq<ArchivedEvent>)
      ensures this.rows == rows
    {
      this.rows := rows;
    }

    /** One pass; the count is the number of rows that became compressed. */
    method CompressOldArchives(cutoff: int) returns (compressedCount: nat)
      requires forall i :: 0 <= i < |rows| ==> Proper(rows[i].payload)
      modifies this
      ensures rows == CompressedRows(old(rows), cutoff)
      ensures compressedCount == Compressed(rows) - Compressed(old(rows))
      ensures |rows| == |old(rows)|
      ensures forall i :: 0 <= i < |rows| ==>
                rows[i] == if old(rows)[i].archivedAt < cutoff && !old(rows)[i].isCompressed &&
                              Compress(old(rows)[i].payload).Some?
                           then old(rows)[i].(
                             isCompressed := true, compressedPayload := Compress(old(rows)[i].payload),
                             compressedPayloadSize := Some(JsonLength(Compress(old(rows)[i].payload).value)))
                           else old(rows)[i]
    {
      hide *;
      var events := rows;
      compressedCount := 0;
      PassStart(cutoff);
      for i := 0 to |events|
        invariant rows == CompressedRows(events[..i], cutoff) + events[i..]
        invariant |CompressedRows(events[..i], cutoff)| == i
        invariant compressedCount == Compressed(CompressedRows(events[..i], cutoff)) - Compressed(events[..i])
      {
        ghost var done := CompressedRows(events[..i], cutoff);
        var event := events[i];
        if event.archivedAt < cutoff && !event.isCompressed {
          var compressedPayload := CompressPayload(event.payload);
          if compressedPayload.Some? {
            var compressedSize := JsonLength(compressedPayload.value);
            rows := rows[i := event.(compressedPayload := compressedPayload, isCompressed := true,
                                     compressedPayloadSize := Some(compressedSize))];
            compressedCount := compressedCount + 1;
          }
        }
        PassStep(events, cutoff, i);
        RowOutcome(event, cutoff);
        RowReplaced(done, events, i, CompressedRow(event, cutoff));
      }
      assert events[..|events|] == events;
      forall i | 0 <= i < |events|
        ensures |rows| == |events| && rows[i] == CompressedRow(events[i], cutoff)
        ensures rows[i] == if events[i].archivedAt < cutoff && !events[i].isCompressed && Compress(events[i].payload).Some?
                           then events[i].(
                             isCompressed := true, compressedPayload := Compress(events[i].payload),
                             compressedPayloadSize := Some(JsonLength(Compress(events[i].payload).value)))
                           else events[i]
      {
        CompressedRowsAt(events, cutoff, i);
        RowOutcome(events[i], cutoff);
      }
    }
  }

  /**
   * After a pass every row keeps its payload; a due row is compressed exactly when its payload has content, in no more
   * space than the payload took; and a second pass changes nothing, so a row whose payload has no content is selected
   * again in every later pass.
   */
  lemma {:induction false} PassSettles(rows: seq<ArchivedEvent>, cutoff: int, i: nat)
    requires i < |rows| && Proper(rows[i].payload)
    ensures |CompressedRows(rows, cutoff)| == |rows|
    ensures
      var row := CompressedRows(rows, cutoff)[i];
      && row.payload == rows[i].payload
      && (Due(rows[i], cutoff) ==>
            && (Due(row, cutoff) <==> Content(row.payload) == [])
            && (row.isCompressed ==>
                  && row.compressedPayload == Compress(row.payload) && row.compressedPayload.Some?
                  && row.compressedPayloadSize == Some(JsonLength(row.compressedPayload.value))
                  && row.compressedPayloadSize.value <= JsonLength(row.payload)
                  && row.archivedAt == rows[i].archivedAt && row.originalPayloadSize == rows[i].originalPayloadSize)
            && (!row.isCompressed ==> row == rows[i]))
      && (!Due(rows[i], cutoff) ==> row == rows[i])
      && CompressedRow(row, cutoff) == row
  {
    CompressedRowsAt(rows, cutoff, i);
    CompressSettles(rows[i].payload);
  }

  lemma {:induction false} CompressedRowsAt(rows: seq<ArchivedEvent>, cutoff: int, i: nat)
    requires i < |rows|
    ensures |CompressedRows(rows, cutoff)| == |rows|
    ensures CompressedRows(rows, cutoff)[i] == CompressedRow(rows[i], cutoff)
  {
    hide CompressedRow;
    if |rows| > 1 {
      CompressedRowsAt(rows[..|rows| - 1], cutoff, if i < |rows| - 1 then i else 0);
    }
  }
}
