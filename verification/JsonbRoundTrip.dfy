/** What the JSONB codec promises: decoding and rendering an encoding give back the value, whatever
    decodes also renders, and path strings tell paths apart. */
module JsonbRoundTrip {
  import opened Common
  import opened Jsonb

  // ----- Headers -----------------------------------------------------------

  function Limit(width: nat): nat { if width == 0 then 1 else 256 * Limit(width - 1) }

  lemma {:induction false} BigEndianReadsBack(n: nat, width: nat)
    requires n < Limit(width)
    ensures BigEndianValue(BigEndian(n, width)) == n
  {
    if width > 0 {
      var raw := BigEndian(n, width);
      BigEndianReadsBack(n / 256, width - 1);
      assert raw[..|raw| - 1] == BigEndian(n / 256, width - 1);
    }
  }

  lemma LimitValues()
    ensures Limit(1) == 0x100 && Limit(2) == 0x1_0000 && Limit(4) == 0x1_0000_0000 && Limit(8) == LENGTH_LIMIT
  {
  }

  /** How many length bytes follow the first. */
  function LengthWidth(n: nat): nat {
    if n <= 11 then 0 else if n < 0x100 then 1 else if n < 0x1_0000 then 2 else if n < 0x1_0000_0000 then 4 else 8
  }

  function Marker(n: nat): nat {
    if n <= 11 then n else if n < 0x100 then 12 else if n < 0x1_0000 then 13 else if n < 0x1_0000_0000 then 14 else 15
  }

  lemma HeaderShape(tag: byte, n: nat)
    requires tag < 16 && n < LENGTH_LIMIT
    ensures var h := Header(tag, n);
            && |h| == 1 + LengthWidth(n) && h[0] % 16 == tag && h[0] / 16 == Marker(n)
            && (n > 11 ==> BigEndianValue(h[1..]) == n)
  {
    LimitValues();
    if 11 < n {
      var width := LengthWidth(n);
      BigEndianReadsBack(n, width);
      if width == 1 {
        assert BigEndian(n, 1) == [n] by { assert BigEndian(n / 256, 0) == []; }
      }
      assert Header(tag, n)[1..] == BigEndian(n, width);
    }
  }

  /** Every header form reads back as its type and length. */
  lemma HeaderReadsBack(before: Bytes, tag: byte, payload: Bytes, after: Bytes)
    requires tag < 16 && |payload| < LENGTH_LIMIT
    ensures var start := |before| + |Header(tag, |payload|)|;
            ReadHeader(before + (Header(tag, |payload|) + payload) + after, |before|) ==
                Ok(Span(tag, start, start + |payload|))
  {
    var n, at := |payload|, |before|;
    var header, width := Header(tag, n), LengthWidth(n);
    var bytes := before + (header + payload) + after;
    HeaderShape(tag, n);
    assert bytes[at] == header[0];
    assert bytes[at + 1..at + 1 + width] == header[1..];
  }

  // ----- Round trip --------------------------------------------------------

  ghost predicate KeysAscend(fields: seq<Field>) {
    forall i, j :: 0 <= i < j < |fields| ==> CompareText(fields[i].key, fields[j].key) == Less
  }

  /** A JSON value as the library holds it: numbers in canonical text, object entries by ascending key. */
  ghost predicate WellFormed(o: Outside, v: Json) {
    match v
    case JsonNum(n) => o.number(n.text) == Some(n)
    case JsonArray(items) => forall i :: 0 <= i < |items| ==> WellFormed(o, items[i])
    case JsonObject(fields) => KeysAscend(fields) && forall i :: 0 <= i < |fields| ==> WellFormed(o, fields[i].value)
    case _ => true
  }

  /** Compact JSON text. */
  function TextOfJson(o: Outside, v: Json): string
    decreases v
  {
    match v
    case JsonNull => "null"
    case JsonBool(b) => if b then "true" else "false"
    case JsonNum(n) => n.text
    case JsonText(s) => Quoted(o, s)
    case JsonArray(items) => "[" + Commas(ItemTexts(o, items)) + "]"
    case JsonObject(fields) => "{" + Commas(FieldTexts(o, fields)) + "}"
  }

  function ItemTexts(o: Outside, items: seq<Json>): seq<string>
    decreases items
  {
    if items == [] then [] else [TextOfJson(o, items[0])] + ItemTexts(o, items[1..])
  }

  function FieldTexts(o: Outside, fields: seq<Field>): seq<string>
    decreases fields
  {
    if fields == [] then []
    else [Quoted(o, fields[0].key) + ":" + TextOfJson(o, fields[0].value)] + FieldTexts(o, fields[1..])
  }

  /** A scalar value's element. */
  lemma ScalarElement(o: Outside, v: Json, path: string, raw: set<string>) returns (tag: byte, payload: Bytes)
    requires Faithful(o) && WellFormed(o, v) && !v.JsonArray? && !v.JsonObject? && Encoded(o, v, path, raw).Ok?
    ensures tag < 16 && tag != TAG_ARRAY && tag != TAG_OBJECT && Encoded(o, v, path, raw) == Element(tag, payload)
    ensures DecodeScalar(o, tag, payload) == Ok(v)
    ensures RenderScalar(o, tag, payload) == Ok(TextOfJson(o, v))
  {
    match v
    case JsonNull => tag, payload := TAG_NULL, [];
    case JsonBool(b) => tag, payload := if b then TAG_TRUE else TAG_FALSE, [];
    case JsonNum(n) => tag, payload := if n.float then TAG_FLOAT else TAG_INT, o.utf8(n.text);
    case JsonText(s) =>
      tag := if o.escape(s) == s then TAG_TEXT else TAG_TEXT_ESCAPED;
      payload := o.utf8(o.escape(s));
  }

  lemma KeyElement(o: Outside, key: string, path: string, raw: set<string>) returns (tag: byte, payload: Bytes)
    requires Faithful(o) && EncodedKey(o, key, path, raw).Ok?
    ensures tag < 16 && tag != TAG_ARRAY && tag != TAG_OBJECT && EncodedKey(o, key, path, raw) == Element(tag, payload)
    ensures DecodeScalar(o, tag, payload) == Ok(JsonText(key))
    ensures RenderScalar(o, tag, payload) == Ok(Quoted(o, key))
  {
    tag := if path in raw then TAG_TEXT_RAW else if o.escape(key) == key then TAG_TEXT else TAG_TEXT_ESCAPED;
    payload := if path in raw then o.utf8(key) else o.utf8(o.escape(key));
  }

  /** An element in the middle of a byte string is read as exactly its payload. */
  lemma ElementRead(before: Bytes, tag: byte, payload: Bytes, after: Bytes)
    requires tag < 16 && Element(tag, payload).Ok?
    ensures var e := Element(tag, payload).value;
            var bytes := before + e + after;
            && ReadHeader(bytes, |before|).Ok?
            && var span := ReadHeader(bytes, |before|).value;
            && span.tag == tag && span.end == |before| + |e| && bytes[span.start..span.end] == payload
  {
    HeaderReadsBack(before, tag, payload, after);
  }

  // ----- Reading elements and runs of elements -----------------------------

  /** Wherever these bytes lie, decoding at their start reads this value and ends at their end. */
  ghost predicate ReadsAs(o: Outside, e: Bytes, v: Json) {
    e != [] && forall before, after :: ReadsAt(o, e, v, before, after)
  }

  ghost predicate ReadsAt(o: Outside, e: Bytes, v: Json, before: Bytes, after: Bytes) {
    DecodeAt(o, before + e + after, |before|) == Ok((v, |before| + |e|))
  }

  /** At the end of an array payload these bytes are read as these items. */
  ghost predicate ItemsReadAs(o: Outside, e: Bytes, items: seq<Json>) {
    forall before, read :: ItemsReadAt(o, e, items, before, read)
  }

  ghost predicate ItemsReadAt(o: Outside, e: Bytes, items: seq<Json>, before: Bytes, read: seq<Json>) {
    DecodeItems(o, before + e, |before|, read) == Ok(read + items)
  }

  /** At the end of an object payload, after smaller keys, these bytes are read as these entries. */
  ghost predicate FieldsReadAs(o: Outside, e: Bytes, fields: seq<Field>) {
    forall before, read :: FieldsReadAt(o, e, fields, before, read)
  }

  ghost predicate FieldsReadAt(o: Outside, e: Bytes, fields: seq<Field>, before: Bytes, read: seq<Field>) {
    KeysAscend(read + fields) ==> DecodeFields(o, before + e, |before|, read) == Ok(read + fields)
  }

  lemma ScalarReads(o: Outside, tag: byte, payload: Bytes)
    requires tag < 16 && tag != TAG_ARRAY && tag != TAG_OBJECT && Element(tag, payload).Ok? &&
             DecodeScalar(o, tag, payload).Ok?
    ensures ReadsAs(o, Element(tag, payload).value, DecodeScalar(o, tag, payload).value)
  {
    forall before, after
      ensures ReadsAt(o, Element(tag, payload).value, DecodeScalar(o, tag, payload).value, before, after)
    {
      ElementRead(before, tag, payload, after);
    }
  }

  lemma ArrayReads(o: Outside, payload: Bytes, items: seq<Json>)
    requires Element(TAG_ARRAY, payload).Ok? && ItemsReadAs(o, payload, items)
    ensures ReadsAs(o, Element(TAG_ARRAY, payload).value, JsonArray(items))
  {
    assert ItemsReadAt(o, payload, items, [], []);
    assert [] + payload == payload && [] + items == items;
    forall before, after ensures ReadsAt(o, Element(TAG_ARRAY, payload).value, JsonArray(items), before, after) {
      ElementRead(before, TAG_ARRAY, payload, after);
    }
  }

  lemma ObjectReads(o: Outside, payload: Bytes, fields: seq<Field>)
    requires Element(TAG_OBJECT, payload).Ok? && FieldsReadAs(o, payload, fields) && KeysAscend(fields)
    ensures ReadsAs(o, Element(TAG_OBJECT, payload).value, JsonObject(fields))
  {
    assert FieldsReadAt(o, payload, fields, [], []);
    assert [] + payload == payload && [] + fields == fields;
    forall before, after ensures ReadsAt(o, Element(TAG_OBJECT, payload).value, JsonObject(fields), before, after) {
      ElementRead(before, TAG_OBJECT, payload, after);
    }
  }

  lemma ItemsCons(o: Outside, first: Bytes, v: Json, rest: Bytes, items: seq<Json>)
    requires ReadsAs(o, first, v) && ItemsReadAs(o, rest, items)
    ensures ItemsReadAs(o, first + rest, [v] + items)
  {
    forall before, read ensures ItemsReadAt(o, first + rest, [v] + items, before, read) {
      assert ReadsAt(o, first, v, before, rest);
      assert ItemsReadAt(o, rest, items, before + first, read + [v]);
      assert before + (first + rest) == before + first + rest;
      assert read + ([v] + items) == read + [v] + items;
    }
  }

  lemma {:induction false} InsertLast(fields: seq<Field>, key: string, v: Json)
    requires forall i :: 0 <= i < |fields| ==> CompareText(fields[i].key, key) == Less
    ensures Insert(fields, key, v) == fields + [Field(key, v)]
  {
    if fields != [] {
      CompareTextAntisymmetric(fields[0].key, key);
      InsertLast(fields[1..], key, v);
    }
  }

  lemma FieldStep(o: Outside, payload: Bytes, offset: nat, read: seq<Field>, f: Field, middle: nat, next: nat)
    requires offset < |payload| && DecodeAt(o, payload, offset) == Ok((JsonText(f.key), middle))
    requires middle < |payload| && DecodeAt(o, payload, middle) == Ok((f.value, next))
    requires KeysAscend(read + [f])
    ensures DecodeFields(o, payload, offset, read) == DecodeFields(o, payload, next, read + [f])
  {
    forall i | 0 <= i < |read| ensures CompareText(read[i].key, f.key) == Less {
      assert (read + [f])[i] == read[i] && (read + [f])[|read|] == f;
    }
    InsertLast(read, f.key, f.value);
  }

  lemma Regroup<T>(before: seq<T>, key: seq<T>, one: seq<T>, rest: seq<T>)
    ensures before + ((key + one) + rest) == before + key + (one + rest)
    ensures before + ((key + one) + rest) == (before + key) + one + rest
    ensures before + ((key + one) + rest) == before + (key + one) + rest
    ensures |before + (key + one)| == |before + key| + |one|
  {
  }

  lemma FieldReadAt(o: Outside, key: Bytes, f: Field, one: Bytes, rest: Bytes, before: Bytes, read: seq<Field>)
    requires ReadsAs(o, key, JsonText(f.key)) && ReadsAs(o, one, f.value) && KeysAscend(read + [f])
    ensures var payload := before + ((key + one) + rest);
            DecodeFields(o, payload, |before|, read) == DecodeFields(o, payload, |before + (key + one)|, read + [f])
  {
    var payload := before + ((key + one) + rest);
    Regroup(before, key, one, rest);
    assert ReadsAt(o, key, JsonText(f.key), before, one + rest);
    assert ReadsAt(o, one, f.value, before + key, rest);
    FieldStep(o, payload, |before|, read, f, |before + key|, |before + (key + one)|);
  }

  lemma FieldsCons(o: Outside, key: Bytes, f: Field, one: Bytes, rest: Bytes, fields: seq<Field>)
    requires ReadsAs(o, key, JsonText(f.key)) && ReadsAs(o, one, f.value) && FieldsReadAs(o, rest, fields)
    ensures FieldsReadAs(o, (key + one) + rest, [f] + fields)
  {
    forall before, read | KeysAscend(read + ([f] + fields))
      ensures FieldsReadAt(o, (key + one) + rest, [f] + fields, before, read)
    {
      Regroup(before, key, one, rest);
      assert read + ([f] + fields) == read + [f] + fields;
      assert read + [f] == (read + [f] + fields)[..|read| + 1];
      FieldReadAt(o, key, f, one, rest, before, read);
      assert FieldsReadAt(o, rest, fields, before + (key + one), read + [f]);
    }
  }

  // ----- Encodings read back -----------------------------------------------

  lemma {:induction false} EncodedReads(o: Outside, v: Json, path: string, raw: set<string>)
    requires Faithful(o) && WellFormed(o, v) && Encoded(o, v, path, raw).Ok?
    ensures ReadsAs(o, Encoded(o, v, path, raw).value, v)
    decreases v
  {
    match v
    case JsonArray(items) =>
      EncodedItemsRead(o, items, 0, path, raw);
      ArrayReads(o, EncodedItems(o, items, 0, path, raw).value, items);
    case JsonObject(fields) =>
      EncodedFieldsRead(o, fields, path, raw);
      ObjectReads(o, EncodedFields(o, fields, path, raw).value, fields);
    case _ =>
      var tag, payload := ScalarElement(o, v, path, raw);
      ScalarReads(o, tag, payload);
  }

  lemma {:induction false} EncodedItemsRead(o: Outside, items: seq<Json>, index: nat, path: string, raw: set<string>)
    requires Faithful(o) && (forall i :: 0 <= i < |items| ==> WellFormed(o, items[i])) &&
             EncodedItems(o, items, index, path, raw).Ok?
    ensures ItemsReadAs(o, EncodedItems(o, items, index, path, raw).value, items)
    decreases items
  {
    if items == [] {
      NothingLeft(o);
    } else {
      EncodedReads(o, items[0], ArrayIndexPath(path, index), raw);
      EncodedItemsRead(o, items[1..], index + 1, path, raw);
      var first, rest := Encoded(o, items[0], ArrayIndexPath(path, index), raw).value,
          EncodedItems(o, items[1..], index + 1, path, raw).value;
      ItemsCons(o, first, items[0], rest, items[1..]);
      assert [items[0]] + items[1..] == items;
    }
  }

  lemma NothingLeft(o: Outside)
    ensures ItemsReadAs(o, [], []) && FieldsReadAs(o, [], [])
  {
    forall before, read ensures ItemsReadAt(o, [], [], before, read) {
      assert before + [] == before && read + [] == read;
    }
    forall before, read ensures FieldsReadAt(o, [], [], before, read) {
      assert before + [] == before && read + [] == read;
    }
  }

  lemma {:induction false} EncodedFieldsRead(o: Outside, fields: seq<Field>, path: string, raw: set<string>)
    requires Faithful(o) && (forall i :: 0 <= i < |fields| ==> WellFormed(o, fields[i].value)) &&
             EncodedFields(o, fields, path, raw).Ok?
    ensures FieldsReadAs(o, EncodedFields(o, fields, path, raw).value, fields)
    decreases fields
  {
    if fields == [] {
      NothingLeft(o);
    } else {
      var f := fields[0];
      var keyPath := ObjectKeyPath(path, f.key);
      var tag, payload := KeyElement(o, f.key, keyPath, raw);
      ScalarReads(o, tag, payload);
      EncodedReads(o, f.value, keyPath, raw);
      EncodedFieldsRead(o, fields[1..], path, raw);
      FieldsCons(o, EncodedKey(o, f.key, keyPath, raw).value, f, Encoded(o, f.value, keyPath, raw).value,
                 EncodedFields(o, fields[1..], path, raw).value, fields[1..]);
      assert [f] + fields[1..] == fields;
    }
  }

  /** Decoding an encoding gives back the value and consumes every byte, whichever object keys were
      written raw. */
  lemma DecodeEncode(o: Outside, v: Json, raw: set<string>)
    requires Faithful(o) && WellFormed(o, v) && Encoded(o, v, "", raw).Ok?
    ensures Decode(o, Encoded(o, v, "", raw).value) == Ok(v)
  {
    var e := Encoded(o, v, "", raw).value;
    EncodedReads(o, v, "", raw);
    assert ReadsAt(o, e, v, [], []);
    assert [] + e + [] == e;
  }
}
