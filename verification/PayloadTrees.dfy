/** JSON values, their length as text, and renaming of their keys. */
module PayloadTrees {

  /** A number keeps the text it is written with. */
  datatype Json =
    | Null
    | Bool(truth: bool)
    | Num(text: string)
    | Str(chars: string)
    | Arr(items: seq<Json>)
    | Obj(fields: seq<Field>)

  datatype Field = Field(key: string, value: Json)

  // --- objects as ordered lists of fields ---

  function Keys(fields: seq<Field>): set<string> {
    if fields == [] then {} else Keys(fields[..|fields| - 1]) + {fields[|fields| - 1].key}
  }

  predicate DistinctKeys(fields: seq<Field>) {
    fields == [] ||
    (fields[|fields| - 1].key !in Keys(fields[..|fields| - 1]) && DistinctKeys(fields[..|fields| - 1]))
  }

  function Replace(fields: seq<Field>, key: string, value: Json): seq<Field>
    requires key in Keys(fields)
  {
    var front, last := fields[..|fields| - 1], fields[|fields| - 1];
    if last.key == key then front + [Field(key, value)] else Replace(front, key, value) + [last]
  }

  /** Assignment to a property: it keeps its position when it exists, and comes last when it is new. */
  function Put(fields: seq<Field>, key: string, value: Json): seq<Field> {
    if key in Keys(fields) then Replace(fields, key, value) else fields + [Field(key, value)]
  }

  lemma KeysSnoc(front: seq<Field>, last: Field)
    ensures Keys(front + [last]) == Keys(front) + {last.key}
    ensures DistinctKeys(front + [last]) <==> last.key !in Keys(front) && DistinctKeys(front)
  {
    assert (front + [last])[..|front|] == front;
  }

  lemma {:induction false} ReplaceKeys(fields: seq<Field>, key: string, value: Json)
    requires key in Keys(fields)
    ensures Keys(Replace(fields, key, value)) == Keys(fields)
    ensures DistinctKeys(fields) ==> DistinctKeys(Replace(fields, key, value))
  {
    var front, last := fields[..|fields| - 1], fields[|fields| - 1];
    if last.key == key {
      KeysSnoc(front, Field(key, value));
    } else {
      ReplaceKeys(front, key, value);
      KeysSnoc(Replace(front, key, value), last);
    }
  }

  lemma PutKeys(fields: seq<Field>, key: string, value: Json)
    ensures Keys(Put(fields, key, value)) == Keys(fields) + {key}
    ensures DistinctKeys(fields) ==> DistinctKeys(Put(fields, key, value))
  {
    if key in Keys(fields) {
      ReplaceKeys(fields, key, value);
    } else {
      KeysSnoc(fields, Field(key, value));
    }
  }

  /** A property that exists keeps its place and gets the new value; any other comes last. */
  lemma {:induction false} PutPlaces(fields: seq<Field>, key: string, value: Json, i: nat)
    requires DistinctKeys(fields)
    ensures i < |fields| && fields[i].key == key ==> Put(fields, key, value) == fields[i := Field(key, value)]
    ensures (forall k :: 0 <= k < |fields| ==> fields[k].key != key) ==>
              Put(fields, key, value) == fields + [Field(key, value)]
  {
    if fields != [] {
      var n := |fields| - 1;
      if i < n {
        assert fields[..n][i] == fields[i];
        PutPlaces(fields[..n], key, value, i);
        KeyAt(fields[..n], i);
        assert fields[i := Field(key, value)] == fields[..n][i := Field(key, value)] + [fields[n]];
      }
      KeyOf(fields, key);
    }
  }

  lemma {:induction false} KeyAt(fields: seq<Field>, i: nat)
    requires i < |fields|
    ensures fields[i].key in Keys(fields)
  {
    if i < |fields| - 1 {
      KeyAt(fields[..|fields| - 1], i);
    }
  }

  lemma {:induction false} KeyOf(fields: seq<Field>, key: string)
    ensures key in Keys(fields) ==> exists i :: 0 <= i < |fields| && fields[i].key == key
  {
    if fields != [] {
      var n := |fields| - 1;
      KeyOf(fields[..n], key);
      if i :| 0 <= i < n && fields[..n][i].key == key {
        assert fields[i].key == key;
      }
    }
  }

  lemma {:induction false} PutMembers(fields: seq<Field>, key: string, value: Json, f: Field)
    requires f in Put(fields, key, value)
    ensures f in fields || f == Field(key, value)
  {
    if key in Keys(fields) && fields[|fields| - 1].key != key && f != fields[|fields| - 1] {
      PutMembers(fields[..|fields| - 1], key, value, f);
    }
  }

  /** The keys of every object of the value are distinct, as in every value that was read from JSON text. */
  predicate Proper(j: Json) {
    match j
    case Arr(items) => forall i :: 0 <= i < |items| ==> Proper(items[i])
    case Obj(fields) => DistinctKeys(fields) && forall i :: 0 <= i < |fields| ==> Proper(fields[i].value)
    case _ => true
  }

  predicate AllKeys(j: Json, p: string -> bool) {
    match j
    case Arr(items) => forall i :: 0 <= i < |items| ==> AllKeys(items[i], p)
    case Obj(fields) => forall i :: 0 <= i < |fields| ==> p(fields[i].key) && AllKeys(fields[i].value, p)
    case _ => true
  }

  // --- renaming ---

  function Rename(j: Json, f: string -> string): Json {
    match j
    case Arr(items) => Arr(RenameItems(items, f))
    case Obj(fields) => Obj(RenameFields(fields, f))
    case _ => j
  }

  function RenameItems(items: seq<Json>, f: string -> string): seq<Json> {
    if items == [] then []
    else RenameItems(items[..|items| - 1], f) + [Rename(items[|items| - 1], f)]
  }

  /** Fields are assigned one after another, so a later field wins when two keys get one name. */
  function RenameFields(fields: seq<Field>, f: string -> string): seq<Field> {
    if fields == [] then []
    else
      var last := fields[|fields| - 1];
      Put(RenameFields(fields[..|fields| - 1], f), f(last.key), Rename(last.value, f))
  }

  lemma {:induction false} RenameItemsAt(items: seq<Json>, f: string -> string)
    ensures |RenameItems(items, f)| == |items|
    ensures forall i :: 0 <= i < |items| ==> RenameItems(items, f)[i] == Rename(items[i], f)
  {
    if items != [] {
      RenameItemsAt(items[..|items| - 1], f);
    }
  }

  /** Whatever the new names have in common, all keys of the result have it, and they stay distinct. */
  lemma {:induction false} RenamedKeys(j: Json, f: string -> string, p: string -> bool)
    requires forall k :: p(f(k))
    ensures Proper(Rename(j, f)) && AllKeys(Rename(j, f), p)
    decreases j
  {
    match j
    case Arr(items) =>
      RenameItemsAt(items, f);
      forall i | 0 <= i < |items| ensures Proper(Rename(items[i], f)) && AllKeys(Rename(items[i], f), p) {
        RenamedKeys(items[i], f, p);
      }
    case Obj(fields) =>
      RenamedFieldKeys(fields, f, p);
    case _ =>
  }

  lemma {:induction false} RenamedFieldKeys(fields: seq<Field>, f: string -> string, p: string -> bool)
    requires forall k :: p(f(k))
    ensures DistinctKeys(RenameFields(fields, f))
    ensures forall x :: x in RenameFields(fields, f) ==> p(x.key) && Proper(x.value) && AllKeys(x.value, p)
    decreases fields
  {
    hide Rename, Put, Proper, AllKeys;
    if fields != [] {
      var front, last := fields[..|fields| - 1], fields[|fields| - 1];
      RenamedFieldKeys(front, f, p);
      RenamedKeys(last.value, f, p);
      PutKeys(RenameFields(front, f), f(last.key), Rename(last.value, f));
      forall x | x in RenameFields(fields, f) ensures p(x.key) && Proper(x.value) && AllKeys(x.value, p) {
        PutMembers(RenameFields(front, f), f(last.key), Rename(last.value, f), x);
      }
    }
  }

  lemma SplitLast(fields: seq<Field>)
    requires fields != []
    ensures fields == fields[..|fields| - 1] + [fields[|fields| - 1]]
  {
  }

  ghost predicate Undoes(g: string -> string, f: string -> string, p: string -> bool) {
    forall k :: p(k) ==> g(f(k)) == k
  }

  ghost predicate AllFields(fields: seq<Field>, p: string -> bool) {
    forall i :: 0 <= i < |fields| ==> p(fields[i].key) && Proper(fields[i].value) && AllKeys(fields[i].value, p)
  }

  /** Renaming that leaves every key alone changes nothing. */
  lemma {:induction false} RenameFixed(j: Json, f: string -> string, p: string -> bool)
    requires Proper(j) && AllKeys(j, p) && forall k :: p(k) ==> f(k) == k
    ensures Rename(j, f) == j
    decreases j
  {
    match j
    case Arr(items) =>
      RenameItemsAt(items, f);
      forall i | 0 <= i < |items| ensures Rename(items[i], f) == items[i] {
        RenameFixed(items[i], f, p);
      }
      assert RenameItems(items, f) == items;
    case Obj(fields) =>
      RenameFieldsFixed(fields, f, p);
    case _ =>
  }

  lemma {:induction false} RenameFieldsFixed(fields: seq<Field>, f: string -> string, p: string -> bool)
    requires DistinctKeys(fields) && AllFields(fields, p) && forall k :: p(k) ==> f(k) == k
    ensures RenameFields(fields, f) == fields
    decreases fields
  {
    if fields != [] {
      var front, last := fields[..|fields| - 1], fields[|fields| - 1];
      SplitLast(fields);
      RenameFieldsFixed(front, f, p);
      RenameFixed(last.value, f, p);
    }
  }

  /** A renaming that some function undoes on every key of the value is undone on the value. */
  lemma {:induction false} RenameUndone(j: Json, f: string -> string, g: string -> string, p: string -> bool)
    requires Proper(j) && AllKeys(j, p) && Undoes(g, f, p)
    ensures Rename(Rename(j, f), g) == j
    decreases j
  {
    hide Undoes;
    match j
    case Arr(items) =>
      RenameItemsUndone(items, f, g, p);
    case Obj(fields) =>
      RenameFieldsUndone(fields, f, g, p);
    case _ =>
  }

  lemma {:induction false} RenameItemsUndone(
      items: seq<Json>, f: string -> string, g: string -> string, p: string -> bool)
    requires Undoes(g, f, p) && forall i :: 0 <= i < |items| ==> Proper(items[i]) && AllKeys(items[i], p)
    ensures RenameItems(RenameItems(items, f), g) == items
    decreases items
  {
    hide Undoes, Rename;
    if items != [] {
      var front, last := items[..|items| - 1], items[|items| - 1];
      RenameItemsUndone(front, f, g, p);
      RenameUndone(last, f, g, p);
      assert items == front + [last];
      assert RenameItems(items, f)[..|items| - 1] == RenameItems(front, f) by { RenameItemsAt(front, f); }
    }
  }

  lemma {:induction false} RenameFieldsUndone(
      fields: seq<Field>, f: string -> string, g: string -> string, p: string -> bool)
    requires DistinctKeys(fields) && AllFields(fields, p) && Undoes(g, f, p)
    ensures RenameFields(RenameFields(fields, f), g) == fields
    ensures forall k :: k in Keys(RenameFields(fields, f)) ==> g(k) in Keys(fields)
    decreases fields
  {
    if fields != [] {
      var front, last := fields[..|fields| - 1], fields[|fields| - 1];
      SplitLast(fields);
      RenameFieldsUndone(front, f, g, p);
      RenameUndone(last.value, f, g, p);
      assert p(last.key) && g(f(last.key)) == last.key;
      LastUndone(front, last, f, g);
    }
  }

  lemma LastUndone(front: seq<Field>, last: Field, f: string -> string, g: string -> string)
    requires last.key !in Keys(front) && g(f(last.key)) == last.key
    requires Rename(Rename(last.value, f), g) == last.value
    requires RenameFields(RenameFields(front, f), g) == front
    requires forall k :: k in Keys(RenameFields(front, f)) ==> g(k) in Keys(front)
    ensures RenameFields(RenameFields(front + [last], f), g) == front + [last]
    ensures forall k :: k in Keys(RenameFields(front + [last], f)) ==> g(k) in Keys(front + [last])
  {
    hide Rename;
    var renamed, extra := RenameFields(front, f), Field(f(last.key), Rename(last.value, f));
    assert (front + [last])[..|front|] == front && (renamed + [extra])[..|renamed|] == renamed;
    assert f(last.key) !in Keys(renamed);
    assert RenameFields(front + [last], f) == renamed + [extra];
    KeysSnoc(renamed, extra);
    KeysSnoc(front, last);
  }

  // --- the length of a value as JSON text ---

  /** Characters of a string literal: escapes take two or six, characters beyond the basic plane two. */
  function CharLength(c: char): nat {
    if c == '"' || c == '\\' || c == '\n' || c == '\r' || c == '\t' then 2
    else if c as int == 8 || c as int == 12 then 2
    else if c as int < 32 then 6
    else if c as int > 0xFFFF then 2
    else 1
  }

  function CharsLength(s: string): nat {
    if s == "" then 0 else CharsLength(s[..|s| - 1]) + CharLength(s[|s| - 1])
  }

  function StringLength(s: string): nat {
    CharsLength(s) + 2
  }

  function JsonLength(j: Json): nat {
    match j
    case Null => 4
    case Bool(truth) => if truth then 4 else 5
    case Num(text) => |text|
    case Str(chars) => StringLength(chars)
    case Arr(items) => if items == [] then 2 else 1 + ItemsLength(items)
    case Obj(fields) => if fields == [] then 2 else 1 + FieldsLength(fields)
  }

  /** The items with the comma or bracket that follows each of them. */
  function ItemsLength(items: seq<Json>): nat {
    if items == [] then 0
    else ItemsLength(items[..|items| - 1]) + JsonLength(items[|items| - 1]) + 1
  }

  function FieldLength(f: Field): nat {
    StringLength(f.key) + 1 + JsonLength(f.value) + 1
  }

  function FieldsLength(fields: seq<Field>): nat {
    if fields == [] then 0
    else
      var last := fields[|fields| - 1];
      FieldsLength(fields[..|fields| - 1]) + (StringLength(last.key) + 1 + JsonLength(last.value) + 1)
  }

  // --- the text itself, in code units of UTF-16 ---

  function Units(s: string): (r: seq<int>)
    ensures |r| == |s|
  {
    if s == "" then [] else Units(s[..|s| - 1]) + [s[|s| - 1] as int]
  }

  function CharText(c: char): seq<int> {
    if c == '"' then Units("\\\"")
    else if c == '\\' then Units("\\\\")
    else if c == '\n' then Units("\\n")
    else if c == '\r' then Units("\\r")
    else if c == '\t' then Units("\\t")
    else if c as int == 8 then Units("\\b")
    else if c as int == 12 then Units("\\f")
    else if c as int < 32 then Units("\\u00") + Units([if c as int < 16 then '0' else '1']) + Units(["0123456789abcdef"[c as int % 16]])
    else if c as int < 0x10000 then [c as int]
    else [0xD800 + (c as int - 0x10000) / 0x400, 0xDC00 + (c as int - 0x10000) % 0x400]
  }

  function CharsText(s: string): seq<int> {
    if s == "" then [] else CharsText(s[..|s| - 1]) + CharText(s[|s| - 1])
  }

  function StringText(s: string): seq<int> {
    Units("\"") + CharsText(s) + Units("\"")
  }

  function Text(j: Json): seq<int> {
    match j
    case Null => Units("null")
    case Bool(truth) => Units(if truth then "true" else "false")
    case Num(text) => Units(text)
    case Str(chars) => StringText(chars)
    case Arr(items) => Units("[") + ItemsText(items) + Units("]")
    case Obj(fields) => Units("{") + FieldsText(fields) + Units("}")
  }

  function ItemsText(items: seq<Json>): seq<int> {
    if items == [] then []
    else ItemsText(items[..|items| - 1]) + Units(if |items| > 1 then "," else "") + Text(items[|items| - 1])
  }

  function FieldsText(fields: seq<Field>): seq<int> {
    if fields == [] then []
    else
      var last := fields[|fields| - 1];
      FieldsText(fields[..|fields| - 1]) + Units(if |fields| > 1 then "," else "") +
      (StringText(last.key) + Units(":") + Text(last.value))
  }

  lemma {:induction false} StringTextLength(s: string)
    ensures |StringText(s)| == StringLength(s)
  {
    if s != "" {
      StringTextLength(s[..|s| - 1]);
    }
  }

  /** The length is that of the text. */
  lemma {:induction false} TextLength(j: Json)
    ensures |Text(j)| == JsonLength(j)
    decreases j
  {
    match j
    case Str(chars) => StringTextLength(chars);
    case Arr(items) => ItemsTextLength(items);
    case Obj(fields) => FieldsTextLength(fields);
    case _ =>
  }

  lemma {:induction false} ItemsTextLength(items: seq<Json>)
    ensures items != [] ==> |ItemsText(items)| + 1 == ItemsLength(items)
    decreases items
  {
    if items != [] {
      hide JsonLength, Text;
      ItemsTextLength(items[..|items| - 1]);
      TextLength(items[|items| - 1]);
    }
  }

  lemma {:induction false} FieldsTextLength(fields: seq<Field>)
    ensures fields != [] ==> |FieldsText(fields)| + 1 == FieldsLength(fields)
    decreases fields
  {
    if fields != [] {
      hide JsonLength, Text, StringText, StringLength;
      FieldsTextLength(fields[..|fields| - 1]);
      StringTextLength(fields[|fields| - 1].key);
      TextLength(fields[|fields| - 1].value);
    }
  }

  lemma {:induction false} ReplaceLength(fields: seq<Field>, key: string, value: Json)
    requires key in Keys(fields)
    ensures FieldsLength(Replace(fields, key, value)) <= FieldsLength(fields) + FieldLength(Field(key, value))
  {
    var front, last := fields[..|fields| - 1], fields[|fields| - 1];
    if last.key == key {
      assert (front + [Field(key, value)])[..|front|] == front;
    } else {
      ReplaceLength(front, key, value);
      assert (Replace(front, key, value) + [last])[..|Replace(front, key, value)|] == Replace(front, key, value);
    }
  }

  lemma PutLength(fields: seq<Field>, key: string, value: Json)
    ensures FieldsLength(Put(fields, key, value)) <= FieldsLength(fields) + FieldLength(Field(key, value))
  {
    if key in Keys(fields) {
      ReplaceLength(fields, key, value);
    } else {
      assert (fields + [Field(key, value)])[..|fields|] == fields;
    }
  }

  /** Renaming to names that are no longer never makes the text longer. */
  lemma {:induction false} RenameLength(j: Json, f: string -> string)
    requires forall k :: StringLength(f(k)) <= StringLength(k)
    ensures JsonLength(Rename(j, f)) <= JsonLength(j)
    decreases j
  {
    match j
    case Arr(items) => RenameItemsLength(items, f);
    case Obj(fields) => RenameFieldsLength(fields, f);
    case _ =>
  }

  lemma {:induction false} RenameItemsLength(items: seq<Json>, f: string -> string)
    requires forall k :: StringLength(f(k)) <= StringLength(k)
    ensures ItemsLength(RenameItems(items, f)) <= ItemsLength(items)
    ensures |RenameItems(items, f)| == |items|
    decreases items
  {
    if items != [] {
      var front, last := items[..|items| - 1], items[|items| - 1];
      RenameItemsLength(front, f);
      RenameLength(last, f);
      assert RenameItems(items, f)[..|items| - 1] == RenameItems(front, f);
    }
  }

  lemma {:induction false} RenameFieldsLength(fields: seq<Field>, f: string -> string)
    requires forall k :: StringLength(f(k)) <= StringLength(k)
    ensures FieldsLength(RenameFields(fields, f)) <= FieldsLength(fields)
    ensures fields != [] ==> RenameFields(fields, f) != []
    decreases fields
  {
    if fields != [] {
      var front, last := fields[..|fields| - 1], fields[|fields| - 1];
      RenameFieldsLength(front, f);
      RenameLength(last.value, f);
      PutLength(RenameFields(front, f), f(last.key), Rename(last.value, f));
    }
  }
}
