/** The JSONB encoding byte by byte, in the numbers of section 3 of SQLite's "The JSONB Format": which
    bytes each value is written as, and what each kind of element is read and rendered as. */
module JsonbBytes {
  import opened Common
  import opened Decimal
  import opened Jsonb
  import opened JsonbRoundTrip

  // ----- Headers -------------------------------------------------------------

  /** The header of an element: the type in the lower four bits, and in the upper four the payload size
      up to 11, or 12, 13, 14 or 15 in front of a size of 1, 2, 4 or 8 bytes, most significant first. */
  function HeaderOf(kind: nat, n: nat): Bytes
    requires kind < 16 && n < 0x1_0000_0000_0000_0000
  {
    if n <= 11 then [16 * n + kind]
    else if n <= 255 then [192 + kind, n]
    else if n <= 65535 then [208 + kind, n / 256, n % 256]
    else if n <= 4294967295 then [224 + kind, n / 16777216, n / 65536 % 256, n / 256 % 256, n % 256]
    else
      var high, low := n / 4294967296, n % 4294967296;
      [240 + kind, high / 16777216, high / 65536 % 256, high / 256 % 256, high % 256,
       low / 16777216, low / 65536 % 256, low / 256 % 256, low % 256]
  }

  lemma TwoBytes(n: nat)
    requires n <= 65535
    ensures BigEndian(n, 2) == [n / 256, n % 256]
  {
    assert BigEndian(n / 256, 1) == BigEndian(n / 256 / 256, 0) + [n / 256 % 256];
  }

  lemma FourBytes(n: nat)
    requires n <= 4294967295
    ensures BigEndian(n, 4) == [n / 16777216, n / 65536 % 256, n / 256 % 256, n % 256]
  {
    assert n / 65536 == n / 256 / 256;
    TwoBytes(n / 65536);
    assert BigEndian(n, 4) == BigEndian(n / 256 / 256, 2) + [n / 256 % 256] + [n % 256];
  }

  lemma EightBytes(n: nat)
    requires n < LENGTH_LIMIT
    ensures var high, low := n / 4294967296, n % 4294967296;
            BigEndian(n, 8) == BigEndian(high, 4) + BigEndian(low, 4)
  {
    var high, low := n / 4294967296, n % 4294967296;
    SplitBytes(high, low, 4);
    assert n == high * 4294967296 + low;
  }

  function Scale(width: nat): nat { if width == 0 then 1 else 256 * Scale(width - 1) }

  lemma {:induction false} SplitBytes(high: nat, low: nat, width: nat)
    requires low < Scale(width) && width <= 4
    ensures BigEndian(high * Scale(width) + low, 4 + width) == BigEndian(high, 4) + BigEndian(low, width)
  {
    if width > 0 {
      var n, m := high * Scale(width) + low, high * Scale(width - 1) + low / 256;
      assert high * Scale(width) == 256 * (high * Scale(width - 1));
      assert n / 256 == m && n % 256 == low % 256;
      SplitBytes(high, low / 256, width - 1);
    } else {
      assert low == 0 && high * Scale(0) == high;
    }
  }

  /** The code writes just these headers. */
  lemma HeaderIs(kind: byte, n: nat)
    requires kind < 16 && n < 0x1_0000_0000_0000_0000
    ensures Header(kind, n) == HeaderOf(kind, n)
  {
    if 255 < n <= 65535 {
      TwoBytes(n);
    } else if 65535 < n <= 4294967295 {
      FourBytes(n);
    } else if n > 4294967295 {
      EightBytes(n);
      FourBytes(n / 4294967296);
      FourBytes(n % 4294967296);
    }
  }

  /** A whole element of a kind. */
  function Whole(kind: nat, payload: Bytes): Bytes
    requires kind < 16 && |payload| < 0x1_0000_0000_0000_0000
  {
    HeaderOf(kind, |payload|) + payload
  }

  predicate Writes(r: Result<Bytes>, kind: nat, payload: Bytes)
    requires kind < 16
  {
    if |payload| < 0x1_0000_0000_0000_0000 then r == Ok(Whole(kind, payload)) else r.Err?
  }

  lemma ElementWrites(kind: byte, payload: Bytes)
    requires kind < 16
    ensures Writes(Element(kind, payload), kind, payload)
  {
    if |payload| < 0x1_0000_0000_0000_0000 { HeaderIs(kind, |payload|); }
  }

  // ----- Values as bytes -----------------------------------------------------

  /** Null, true and false are the single bytes 0, 1 and 2. */
  lemma ConstantBytes(o: Outside, path: string, raw: set<string>)
    ensures Encoded(o, JsonNull, path, raw) == Ok([0])
    ensures Encoded(o, JsonBool(true), path, raw) == Ok([1])
    ensures Encoded(o, JsonBool(false), path, raw) == Ok([2])
  {
    ElementWrites(0, []);
    ElementWrites(1, []);
    ElementWrites(2, []);
    assert Whole(0, []) == [0] && Whole(1, []) == [1] && Whole(2, []) == [2];
  }

  /** Numbers are their text under type 3, or 5 for floats. Texts are type 7 when nothing in them needs a
      backslash, and otherwise their escaped form under type 8; a key whose path is listed is type 10, as
      it stands. */
  lemma ScalarBytes(o: Outside, n: JsonNumber, s: string, path: string, raw: set<string>)
    ensures Writes(Encoded(o, JsonNum(n), path, raw), if n.float then 5 else 3, o.utf8(n.text))
    ensures o.escape(s) == s ==> Writes(Encoded(o, JsonText(s), path, raw), 7, o.utf8(s))
    ensures o.escape(s) != s ==> Writes(Encoded(o, JsonText(s), path, raw), 8, o.utf8(o.escape(s)))
    ensures path in raw ==> Writes(EncodedKey(o, s, path, raw), 10, o.utf8(s))
    ensures path !in raw ==> EncodedKey(o, s, path, raw) == Encoded(o, JsonText(s), path, raw)
  {
    ElementWrites(3, o.utf8(n.text));
    ElementWrites(5, o.utf8(n.text));
    ElementWrites(7, o.utf8(s));
    ElementWrites(8, o.utf8(o.escape(s)));
    ElementWrites(10, o.utf8(s));
  }

  function Concat(parts: seq<Bytes>): Bytes {
    if parts == [] then [] else parts[0] + Concat(parts[1..])
  }

  /** The elements of an array under their paths: `I`, the index and a semicolon behind the array's own. */
  ghost predicate ItemParts(o: Outside, items: seq<Json>, first: nat, path: string, raw: set<string>,
      parts: seq<Bytes>) {
    |parts| == |items| && forall i :: 0 <= i < |items| ==>
      Encoded(o, items[i], path + "I" + NatText(first + i) + ";", raw) == Ok(parts[i])
  }

  lemma {:induction false} ItemsConcat(o: Outside, items: seq<Json>, first: nat, path: string, raw: set<string>)
      returns (parts: seq<Bytes>)
    requires EncodedItems(o, items, first, path, raw).Ok?
    ensures ItemParts(o, items, first, path, raw, parts)
    ensures EncodedItems(o, items, first, path, raw) == Ok(Concat(parts))
    decreases items
  {
    if items == [] {
      parts := [];
    } else {
      var rest := ItemsConcat(o, items[1..], first + 1, path, raw);
      var one := Encoded(o, items[0], ArrayIndexPath(path, first), raw).value;
      parts := [one] + rest;
      forall i | 0 <= i < |items|
        ensures Encoded(o, items[i], path + "I" + NatText(first + i) + ";", raw) == Ok(parts[i])
      {
        if i > 0 {
          assert items[i] == items[1..][i - 1] && parts[i] == rest[i - 1] && first + 1 + (i - 1) == first + i;
        }
      }
      assert parts[1..] == rest;
    }
  }

  /** An array is type 11 around its elements, one after the other. */
  lemma ArrayBytes(o: Outside, items: seq<Json>, path: string, raw: set<string>) returns (parts: seq<Bytes>)
    requires Encoded(o, JsonArray(items), path, raw).Ok?
    ensures ItemParts(o, items, 0, path, raw, parts)
    ensures Writes(Encoded(o, JsonArray(items), path, raw), 11, Concat(parts))
  {
    parts := ItemsConcat(o, items, 0, path, raw);
    ElementWrites(11, Concat(parts));
  }

  /** A field's key and value, both under the path `K`, the byte length of the key, a colon and the key
      behind the object's own. */
  datatype Entry = Entry(key: Bytes, value: Bytes)

  function EntryBytes(entries: seq<Entry>): Bytes {
    if entries == [] then [] else entries[0].key + entries[0].value + EntryBytes(entries[1..])
  }

  ghost predicate IsEntry(o: Outside, f: Field, path: string, raw: set<string>, e: Entry) {
    var below := path + "K" + NatText(Utf8Length(f.key)) + ":" + f.key;
    EncodedKey(o, f.key, below, raw) == Ok(e.key) && Encoded(o, f.value, below, raw) == Ok(e.value)
  }

  ghost predicate AreEntries(o: Outside, fields: seq<Field>, path: string, raw: set<string>, entries: seq<Entry>) {
    |entries| == |fields| && forall i :: 0 <= i < |fields| ==> IsEntry(o, fields[i], path, raw, entries[i])
  }

  lemma {:induction false} FieldsConcat(o: Outside, fields: seq<Field>, path: string, raw: set<string>)
      returns (entries: seq<Entry>)
    requires EncodedFields(o, fields, path, raw).Ok?
    ensures AreEntries(o, fields, path, raw, entries)
    ensures EncodedFields(o, fields, path, raw) == Ok(EntryBytes(entries))
    decreases fields
  {
    if fields == [] {
      entries := [];
    } else {
      var first := FirstEntry(o, fields, path, raw);
      var rest := FieldsConcat(o, fields[1..], path, raw);
      entries := [first] + rest;
      hide IsEntry;
      assert entries[1..] == rest;
    }
  }

  lemma FirstEntry(o: Outside, fields: seq<Field>, path: string, raw: set<string>) returns (e: Entry)
    requires fields != [] && EncodedFields(o, fields, path, raw).Ok?
    ensures IsEntry(o, fields[0], path, raw, e) && EncodedFields(o, fields[1..], path, raw).Ok?
    ensures EncodedFields(o, fields, path, raw).value ==
            e.key + e.value + EncodedFields(o, fields[1..], path, raw).value
  {
    var f := fields[0];
    e := Entry(EncodedKey(o, f.key, ObjectKeyPath(path, f.key), raw).value,
               Encoded(o, f.value, ObjectKeyPath(path, f.key), raw).value);
  }

  /** An object is type 12 around its keys and values in turn. */
  lemma ObjectBytes(o: Outside, fields: seq<Field>, path: string, raw: set<string>) returns (entries: seq<Entry>)
    requires Encoded(o, JsonObject(fields), path, raw).Ok?
    ensures AreEntries(o, fields, path, raw, entries)
    ensures Writes(Encoded(o, JsonObject(fields), path, raw), 12, EntryBytes(entries))
  {
    entries := FieldsConcat(o, fields, path, raw);
    ElementWrites(12, EntryBytes(entries));
  }

  // ----- Bytes as values -----------------------------------------------------

  /** What a scalar element of a kind stands for. */
  function Meaning(o: Outside, kind: nat, payload: Bytes): Option<Json> {
    var text := o.fromUtf8(payload);
    if kind == 0 && payload == [] then Some(JsonNull)
    else if kind == 1 && payload == [] then Some(JsonBool(true))
    else if kind == 2 && payload == [] then Some(JsonBool(false))
    else if (kind == 3 || kind == 5) && text.Some? && o.number(text.value).Some?
    then Some(JsonNum(o.number(text.value).value))
    else if (kind == 7 || kind == 10) && text.Some? then Some(JsonText(text.value))
    else if kind == 8 && text.Some? && o.unescape(text.value).Some? then Some(JsonText(o.unescape(text.value).value))
    else None
  }

  lemma WholeRead(o: Outside, kind: byte, payload: Bytes)
    requires kind < 16 && |payload| < 0x1_0000_0000_0000_0000
    ensures var bytes := Whole(kind, payload);
            ReadHeader(bytes, 0) == Ok(Span(kind, |HeaderOf(kind, |payload|)|, |bytes|)) &&
            bytes[|HeaderOf(kind, |payload|)|..] == payload
  {
    HeaderIs(kind, |payload|);
    HeaderReadsBack([], kind, payload, []);
    assert [] + (Header(kind, |payload|) + payload) + [] == Whole(kind, payload);
  }

  /** Every other element is refused: a constant with a payload, a number or text that does not parse, and
      the types 4, 6, 9 and 13 to 15. */
  lemma ScalarRead(o: Outside, kind: byte, payload: Bytes)
    requires kind < 16 && kind != 11 && kind != 12 && |payload| < 0x1_0000_0000_0000_0000
    ensures Decode(o, Whole(kind, payload)) ==
            (match Meaning(o, kind, payload) case None => Err(Malformed) case Some(v) => Ok(v))
  {
    WholeRead(o, kind, payload);
    var bytes := Whole(kind, payload);
    assert bytes[|HeaderOf(kind, |payload|)|..|bytes|] == payload;
  }

  /** The JSON text of a constant, a number and a text. */
  lemma ScalarRendered(o: Outside, kind: byte, payload: Bytes)
    requires kind < 16 && kind != 11 && kind != 12 && |payload| < 0x1_0000_0000_0000_0000
    ensures var r := RenderAt(o, Whole(kind, payload), 0);
            match Meaning(o, kind, payload)
            case None => true
            case Some(v) =>
              r.Ok? && r.value.1 == |Whole(kind, payload)| &&
              match v
              case JsonNull => r.value.0 == "null"
              case JsonBool(b) => r.value.0 == if b then "true" else "false"
              case JsonNum(_) => Some(r.value.0) == o.fromUtf8(payload)
              case JsonText(s) => r.value.0 == "\"" + o.escape(s) + "\""
              case _ => true
  {
    WholeRead(o, kind, payload);
    var bytes := Whole(kind, payload);
    assert bytes[|HeaderOf(kind, |payload|)|..|bytes|] == payload;
  }

  // ----- Headers as they are read -------------------------------------------

  /** How many bytes of size follow the first byte, and the size they give. */
  function SizeWidth(marker: nat): nat {
    if marker <= 11 then 0 else if marker == 12 then 1 else if marker == 13 then 2 else if marker == 14 then 4 else 8
  }

  function FourOf(a: int, b: int, c: int, d: int): int { 16777216 * a + 65536 * b + 256 * c + d }

  function SizeOf(bytes: Bytes, at: nat, marker: nat): int
    requires at + SizeWidth(marker) <= |bytes|
  {
    if marker <= 11 then marker
    else if marker == 12 then bytes[at]
    else if marker == 13 then FourOf(0, 0, bytes[at], bytes[at + 1])
    else if marker == 14 then FourOf(bytes[at], bytes[at + 1], bytes[at + 2], bytes[at + 3])
    else
      4294967296 * FourOf(bytes[at], bytes[at + 1], bytes[at + 2], bytes[at + 3]) +
      FourOf(bytes[at + 4], bytes[at + 5], bytes[at + 6], bytes[at + 7])
  }

  /** Any header, the shortest for its size or not, is read as its numbers say; it is malformed exactly when
      its size bytes or its payload reach past the end. */
  lemma HeaderRead(bytes: Bytes, at: nat, kind: nat, marker: nat)
    requires at < |bytes| && kind < 16 && marker < 16 && bytes[at] == 16 * marker + kind
    ensures var r, start := ReadHeader(bytes, at), at + 1 + SizeWidth(marker);
            if start > |bytes| || start + SizeOf(bytes, at + 1, marker) > |bytes| then r.Err?
            else r == Ok(Span(kind, start, start + SizeOf(bytes, at + 1, marker)))
  {
    if at + 1 + SizeWidth(marker) <= |bytes| { SizeRead(bytes, at + 1, marker); }
    HalvesOf(bytes[at], kind, marker);
    hide BigEndianValue, SizeOf;
  }

  lemma HalvesOf(b: byte, kind: nat, marker: nat)
    requires kind < 16 && b == 16 * marker + kind
    ensures b % 16 == kind && b / 16 == marker
  {
  }

  lemma SizeRead(bytes: Bytes, at: nat, marker: nat)
    requires at + SizeWidth(marker) <= |bytes|
    ensures SizeOf(bytes, at, marker) >= 0
    ensures marker <= 11 ==> SizeOf(bytes, at, marker) == marker
    ensures marker > 11 ==> BigEndianValue(bytes[at..at + SizeWidth(marker)]) == SizeOf(bytes, at, marker)
  {
    var raw := bytes[at..at + SizeWidth(marker)];
    ValueRead(raw);
    hide BigEndianValue;
    assert forall k :: 0 <= k < |raw| ==> raw[k] == bytes[at + k];
  }

  lemma ValueStep(raw: Bytes, k: nat)
    requires k < |raw|
    ensures BigEndianValue(raw[..k + 1]) == 256 * BigEndianValue(raw[..k]) + raw[k]
  {
    assert raw[..k + 1][..k] == raw[..k];
  }

  lemma ValueRead(raw: Bytes)
    ensures |raw| == 1 ==> BigEndianValue(raw) == raw[0]
    ensures |raw| == 2 ==> BigEndianValue(raw) == FourOf(0, 0, raw[0], raw[1])
    ensures |raw| == 4 ==> BigEndianValue(raw) == FourOf(raw[0], raw[1], raw[2], raw[3])
    ensures |raw| == 8 ==>
            BigEndianValue(raw) ==
            4294967296 * FourOf(raw[0], raw[1], raw[2], raw[3]) + FourOf(raw[4], raw[5], raw[6], raw[7])
  {
    assert raw[..|raw|] == raw && BigEndianValue(raw[..0]) == 0;
    hide BigEndianValue;
    forall k | 0 <= k < |raw| ensures BigEndianValue(raw[..k + 1]) == 256 * BigEndianValue(raw[..k]) + raw[k] {
      ValueStep(raw, k);
    }
    if |raw| == 2 || |raw| == 4 || |raw| == 8 {
      var two := BigEndianValue(raw[..2]);
      assert two == 256 * BigEndianValue(raw[..1]) + raw[1] && BigEndianValue(raw[..1]) == raw[0];
    }
    if |raw| == 4 || |raw| == 8 {
      var four := BigEndianValue(raw[..4]);
      assert four == 256 * BigEndianValue(raw[..3]) + raw[3];
      assert four == FourOf(raw[0], raw[1], raw[2], raw[3]);
    }
    if |raw| == 8 {
      var six := BigEndianValue(raw[..6]);
      assert six == 256 * BigEndianValue(raw[..5]) + raw[5];
      assert BigEndianValue(raw[..8]) == 256 * BigEndianValue(raw[..7]) + raw[7];
    }
  }
}
