/** The JSONB format: nested type-length-payload elements (section 3 of SQLite's "The JSONB Format"). */
module Jsonb {
  import opened Common
  import opened Decimal

  datatype JsonNumber = JsonNumber(text: string, float: bool)

  datatype Json =
    | JsonNull
    | JsonBool(b: bool)
    | JsonNum(n: JsonNumber)
    | JsonText(text: string)
    | JsonArray(items: seq<Json>)
    | JsonObject(fields: seq<Field>)

  datatype Field = Field(key: string, value: Json)

  type Bytes = seq<byte>

  /** What the codec takes from its libraries: UTF-8, JSON string escaping, and number parsing. */
  datatype Outside = Outside(
    utf8: string -> Bytes,
    fromUtf8: Bytes -> Option<string>,
    escape: string -> string,
    unescape: string -> Option<string>,
    number: string -> Option<JsonNumber>)

  /** Reading back what was written is the identity, for texts and for escapes. */
  ghost predicate Faithful(o: Outside) {
    && (forall s {:trigger o.utf8(s)} :: o.fromUtf8(o.utf8(s)) == Some(s))
    && (forall s {:trigger o.escape(s)} :: o.unescape(o.escape(s)) == Some(s))
  }

  const TAG_NULL: byte := 0
  const TAG_TRUE: byte := 1
  const TAG_FALSE: byte := 2
  const TAG_INT: byte := 3
  const TAG_FLOAT: byte := 5
  const TAG_TEXT: byte := 7
  const TAG_TEXT_ESCAPED: byte := 8
  const TAG_TEXT_RAW: byte := 10
  const TAG_ARRAY: byte := 11
  const TAG_OBJECT: byte := 12

  // ----- Paths -------------------------------------------------------------

  function Utf8Width(c: char): nat {
    if c as int < 0x80 then 1 else if c as int < 0x800 then 2 else if c as int < 0x1_0000 then 3 else 4
  }

  /** Rust's `str::len`: the number of UTF-8 bytes. */
  function Utf8Length(s: string): nat {
    if s == [] then 0 else Utf8Width(s[0]) + Utf8Length(s[1..])
  }

  function ObjectKeyPath(parent: string, key: string): string {
    parent + "K" + NatText(Utf8Length(key)) + ":" + key
  }

  function ArrayIndexPath(parent: string, index: nat): string {
    parent + "I" + NatText(index) + ";"
  }

  // ----- Elements ----------------------------------------------------------

  /** The `width` big-endian bytes of a number. */
  function BigEndian(n: nat, width: nat): (r: Bytes)
    ensures |r| == width
  {
    if width == 0 then [] else BigEndian(n / 256, width - 1) + [n % 256]
  }

  function BigEndianValue(raw: Bytes): nat {
    if raw == [] then 0 else 256 * BigEndianValue(raw[..|raw| - 1]) + raw[|raw| - 1]
  }

  const LENGTH_LIMIT := 0x1_0000_0000_0000_0000

  /** The five header forms: the length within the first byte, or in the 1, 2, 4 or 8 bytes after it. */
  function Header(tag: byte, length: nat): (h: Bytes)
    requires tag < 16 && length < LENGTH_LIMIT
    ensures h != []
  {
    if length <= 11 then [length * 16 + tag]
    else if length < 0x100 then [0xc0 + tag, length]
    else if length < 0x1_0000 then [0xd0 + tag] + BigEndian(length, 2)
    else if length < 0x1_0000_0000 then [0xe0 + tag] + BigEndian(length, 4)
    else [0xf0 + tag] + BigEndian(length, 8)
  }

  /** `write_element`; a payload longer than the widest header can say is refused. */
  function Element(tag: byte, payload: Bytes): Result<Bytes>
    requires tag < 16
  {
    if |payload| < LENGTH_LIMIT then Ok(Header(tag, |payload|) + payload) else Err(Malformed)
  }

  function Joined(a: Result<Bytes>, b: Result<Bytes>): Result<Bytes> {
    if a.Err? then a else if b.Err? then b else Ok(a.value + b.value)
  }

  // ----- Encoding ----------------------------------------------------------

  function EncodedString(o: Outside, s: string): Result<Bytes> {
    if o.escape(s) == s then Element(TAG_TEXT, o.utf8(s)) else Element(TAG_TEXT_ESCAPED, o.utf8(o.escape(s)))
  }

  function EncodedKey(o: Outside, key: string, path: string, raw: set<string>): Result<Bytes> {
    if path in raw then Element(TAG_TEXT_RAW, o.utf8(key)) else EncodedString(o, key)
  }

  function Wrapped(tag: byte, payload: Result<Bytes>): Result<Bytes>
    requires tag < 16
  {
    if payload.Err? then payload else Element(tag, payload.value)
  }

  /** `encode_value`. */
  function Encoded(o: Outside, v: Json, path: string, raw: set<string>): Result<Bytes>
    decreases v
  {
    match v
    case JsonNull => Element(TAG_NULL, [])
    case JsonBool(b) => Element(if b then TAG_TRUE else TAG_FALSE, [])
    case JsonNum(n) => Element(if n.float then TAG_FLOAT else TAG_INT, o.utf8(n.text))
    case JsonText(s) => EncodedString(o, s)
    case JsonArray(items) => Wrapped(TAG_ARRAY, EncodedItems(o, items, 0, path, raw))
    case JsonObject(fields) => Wrapped(TAG_OBJECT, EncodedFields(o, fields, path, raw))
  }

  /** The elements of an array from position `index` on. */
  function EncodedItems(o: Outside, items: seq<Json>, index: nat, path: string, raw: set<string>): Result<Bytes>
    decreases items
  {
    if items == [] then Ok([])
    else Joined(Encoded(o, items[0], ArrayIndexPath(path, index), raw),
        EncodedItems(o, items[1..], index + 1, path, raw))
  }

  /** The key element and the value element of one object entry. */
  function EncodedField(o: Outside, f: Field, path: string, raw: set<string>): Result<Bytes>
    decreases f
  {
    var keyPath := ObjectKeyPath(path, f.key);
    Joined(EncodedKey(o, f.key, keyPath, raw), Encoded(o, f.value, keyPath, raw))
  }

  function EncodedFields(o: Outside, fields: seq<Field>, path: string, raw: set<string>): Result<Bytes>
    decreases fields
  {
    if fields == [] then Ok([])
    else Joined(EncodedField(o, fields[0], path, raw), EncodedFields(o, fields[1..], path, raw))
  }

  // ----- Decoding ----------------------------------------------------------

  datatype Span = Span(tag: byte, start: nat, end: nat)

  function ReadLength(bytes: Bytes, start: nat, width: nat): Result<nat> {
    if start + width > |bytes| then Err(Malformed) else Ok(BigEndianValue(bytes[start..start + width]))
  }

  /** `read_header`: the element's type and where its payload lies. */
  function ReadHeader(bytes: Bytes, offset: nat): (r: Result<Span>)
    ensures r.Ok? ==> offset < r.value.start <= r.value.end <= |bytes| && r.value.tag < 16
  {
    if offset >= |bytes| then Err(Malformed)
    else
      var tag, marker := bytes[offset] % 16, bytes[offset] / 16;
      var width := if marker <= 11 then 0 else if marker == 12 then 1 else if marker == 13 then 2
          else if marker == 14 then 4 else 8;
      var length := if width == 0 then Ok(marker) else ReadLength(bytes, offset + 1, width);
      if length.Err? then Err(length.error)
      else
        var start := offset + 1 + width;
        if start + length.value > |bytes| then Err(Malformed) else Ok(Span(tag, start, start + length.value))
  }

  function TextOf(o: Outside, payload: Bytes): Result<string> {
    var t := o.fromUtf8(payload);
    if t.Some? then Ok(t.value) else Err(Malformed)
  }

  function UnescapedText(o: Outside, payload: Bytes): Result<string> {
    var t := o.fromUtf8(payload);
    if t.None? || o.unescape(t.value).None? then Err(Malformed) else Ok(o.unescape(t.value).value)
  }

  /** A scalar element's value. */
  function DecodeScalar(o: Outside, tag: byte, payload: Bytes): Result<Json> {
    if tag == TAG_NULL || tag == TAG_TRUE || tag == TAG_FALSE then
      if payload != [] then Err(Malformed)
      else Ok(if tag == TAG_NULL then JsonNull else JsonBool(tag == TAG_TRUE))
    else if tag == TAG_INT || tag == TAG_FLOAT then
      (match TextOf(o, payload)
       case Err(e) => Err(e)
       case Ok(t) => if o.number(t).Some? then Ok(JsonNum(o.number(t).value)) else Err(Malformed))
    else if tag == TAG_TEXT || tag == TAG_TEXT_RAW then
      (match TextOf(o, payload) case Err(e) => Err(e) case Ok(t) => Ok(JsonText(t)))
    else if tag == TAG_TEXT_ESCAPED then
      (match UnescapedText(o, payload) case Err(e) => Err(e) case Ok(t) => Ok(JsonText(t)))
    else Err(Malformed)
  }

  /** The sorted map's `insert`: a key already present keeps its place and takes the new value. */
  function Insert(fields: seq<Field>, key: string, value: Json): (r: seq<Field>) {
    if fields == [] then [Field(key, value)]
    else match CompareText(key, fields[0].key)
      case Less => [Field(key, value)] + fields
      case Equal => [Field(key, value)] + fields[1..]
      case Greater => [fields[0]] + Insert(fields[1..], key, value)
  }

  /** `decode_at`: the value at an offset and the offset just past it. */
  function DecodeAt(o: Outside, bytes: Bytes, offset: nat): (r: Result<(Json, nat)>)
    requires offset <= |bytes|
    ensures r.Ok? ==> offset < r.value.1 <= |bytes|
    decreases |bytes|, |bytes| - offset, 0
  {
    match ReadHeader(bytes, offset)
    case Err(e) => Err(e)
    case Ok(span) =>
      var payload := bytes[span.start..span.end];
      if span.tag == TAG_ARRAY then
        (match DecodeItems(o, payload, 0, [])
         case Err(e) => Err(e)
         case Ok(items) => Ok((JsonArray(items), span.end)))
      else if span.tag == TAG_OBJECT then
        (match DecodeFields(o, payload, 0, [])
         case Err(e) => Err(e)
         case Ok(fields) => Ok((JsonObject(fields), span.end)))
      else
        (match DecodeScalar(o, span.tag, payload)
         case Err(e) => Err(e)
         case Ok(v) => Ok((v, span.end)))
  }

  /** `decode_array` from an offset on, with the values read so far. */
  function DecodeItems(o: Outside, payload: Bytes, offset: nat, read: seq<Json>): Result<seq<Json>>
    requires offset <= |payload|
    decreases |payload|, |payload| - offset, 1
  {
    if offset == |payload| then Ok(read)
    else match DecodeAt(o, payload, offset)
      case Err(e) => Err(e)
      case Ok((v, next)) => DecodeItems(o, payload, next, read + [v])
  }

  /** `decode_object` from an offset on, with the entries read so far. */
  function DecodeFields(o: Outside, payload: Bytes, offset: nat, read: seq<Field>): Result<seq<Field>>
    requires offset <= |payload|
    decreases |payload|, |payload| - offset, 1
  {
    if offset == |payload| then Ok(read)
    else match DecodeAt(o, payload, offset)
      case Err(e) => Err(e)
      case Ok((key, middle)) =>
        if !key.JsonText? || middle == |payload| then Err(Malformed)
        else match DecodeAt(o, payload, middle)
          case Err(e) => Err(e)
          case Ok((v, next)) => DecodeFields(o, payload, next, Insert(read, key.text, v))
  }

  /** `decode`: the whole input is one element. */
  function Decode(o: Outside, bytes: Bytes): Result<Json> {
    match DecodeAt(o, bytes, 0)
    case Err(e) => Err(e)
    case Ok((v, end)) => if end == |bytes| then Ok(v) else Err(Malformed)
  }

  // ----- Rendering ---------------------------------------------------------

  function Quoted(o: Outside, s: string): string { "\"" + o.escape(s) + "\"" }

  function RenderScalar(o: Outside, tag: byte, payload: Bytes): Result<string> {
    if tag == TAG_NULL || tag == TAG_TRUE || tag == TAG_FALSE then
      if payload != [] then Err(Malformed)
      else Ok(if tag == TAG_NULL then "null" else if tag == TAG_TRUE then "true" else "false")
    else if tag == TAG_INT || tag == TAG_FLOAT then TextOf(o, payload)
    else if tag == TAG_TEXT || tag == TAG_TEXT_RAW then
      (match TextOf(o, payload) case Err(e) => Err(e) case Ok(t) => Ok(Quoted(o, t)))
    else if tag == TAG_TEXT_ESCAPED then
      (match UnescapedText(o, payload) case Err(e) => Err(e) case Ok(t) => Ok(Quoted(o, t)))
    else Err(Malformed)
  }

  /** Rust's `join(",")`. */
  function Commas(parts: seq<string>): string {
    if parts == [] then "" else if |parts| == 1 then parts[0]
        else Commas(parts[..|parts| - 1]) + "," + parts[|parts| - 1]
  }

  /** `render_at`: the element at an offset as JSON text, and the offset just past it. */
  function RenderAt(o: Outside, bytes: Bytes, offset: nat): (r: Result<(string, nat)>)
    requires offset <= |bytes|
    ensures r.Ok? ==> offset < r.value.1 <= |bytes|
    decreases |bytes|, |bytes| - offset, 0
  {
    match ReadHeader(bytes, offset)
    case Err(e) => Err(e)
    case Ok(span) =>
      var payload := bytes[span.start..span.end];
      if span.tag == TAG_ARRAY then
        (match RenderItems(o, payload, 0, [])
         case Err(e) => Err(e)
         case Ok(parts) => Ok(("[" + Commas(parts) + "]", span.end)))
      else if span.tag == TAG_OBJECT then
        (match RenderFields(o, payload, 0, [])
         case Err(e) => Err(e)
         case Ok(parts) => Ok(("{" + Commas(parts) + "}", span.end)))
      else
        (match RenderScalar(o, span.tag, payload)
         case Err(e) => Err(e)
         case Ok(t) => Ok((t, span.end)))
  }

  function RenderItems(o: Outside, payload: Bytes, offset: nat, parts: seq<string>): Result<seq<string>>
    requires offset <= |payload|
    decreases |payload|, |payload| - offset, 1
  {
    if offset == |payload| then Ok(parts)
    else match RenderAt(o, payload, offset)
      case Err(e) => Err(e)
      case Ok((t, next)) => RenderItems(o, payload, next, parts + [t])
  }

  function RenderFields(o: Outside, payload: Bytes, offset: nat, parts: seq<string>): Result<seq<string>>
    requires offset <= |payload|
    decreases |payload|, |payload| - offset, 1
  {
    if offset == |payload| then Ok(parts)
    else match RenderAt(o, payload, offset)
      case Err(e) => Err(e)
      case Ok((key, middle)) =>
        if middle == |payload| then Err(Malformed)
        else match RenderAt(o, payload, middle)
          case Err(e) => Err(e)
          case Ok((t, next)) => RenderFields(o, payload, next, parts + [key + ":" + t])
  }

  // ----- The loops of the codec --------------------------------------------

  /** The byte vector every encoder appends to. */
  class ByteBuffer {
    var bytes: Bytes

    constructor ()
      ensures bytes == []
    {
      bytes := [];
    }

    method Push(b: byte)
      modifies this
      ensures bytes == old(bytes) + [b]
    {
      bytes := bytes + [b];
    }

    method Extend(more: Bytes)
      modifies this
      ensures bytes == old(bytes) + more
    {
      bytes := bytes + more;
    }

    method WriteHeader(tag: byte, length: nat)
      requires tag < 16 && length < LENGTH_LIMIT
      modifies this
      ensures bytes == old(bytes) + Header(tag, length)
    {
      ghost var before := bytes;
      if length <= 11 {
        Push(length * 16 + tag);
      } else if length < 0x100 {
        Push(0xc0 + tag);
        Push(length);
        assert bytes == before + [0xc0 + tag, length];
      } else {
        var (marker, width) := if length < 0x1_0000 then (0xd0, 2) else if length < 0x1_0000_0000 then (0xe0, 4)
            else (0xf0, 8);
        Push(marker + tag);
        Extend(BigEndian(length, width));
        assert bytes == before + ([marker + tag] + BigEndian(length, width));
      }
    }

    /** Appends one element, or nothing when the payload is too long. */
    method WriteElement(tag: byte, payload: Bytes) returns (ok: bool)
      requires tag < 16
      modifies this
      ensures Appended(old(bytes), bytes, ok, Element(tag, payload))
    {
      ghost var before := bytes;
      ok := |payload| < LENGTH_LIMIT;
      if ok {
        WriteHeader(tag, |payload|);
        Extend(payload);
        assert bytes == before + (Header(tag, |payload|) + payload);
      }
    }
  }

  /** What a buffer holds after an encoder has run: the new elements appended, when it succeeded. */
  ghost predicate Appended(before: Bytes, after: Bytes, ok: bool, encoded: Result<Bytes>) {
    ok == encoded.Ok? && (ok ==> after == before + encoded.value)
  }

  method EncodeString(o: Outside, s: string, out: ByteBuffer) returns (ok: bool)
    modifies out
    ensures Appended(old(out.bytes), out.bytes, ok, EncodedString(o, s))
  {
    var inner := o.escape(s);
    if inner == s {
      ok := out.WriteElement(TAG_TEXT, o.utf8(s));
    } else {
      ok := out.WriteElement(TAG_TEXT_ESCAPED, o.utf8(inner));
    }
  }

  method EncodeKey(o: Outside, key: string, path: string, raw: set<string>, out: ByteBuffer) returns (ok: bool)
    modifies out
    ensures Appended(old(out.bytes), out.bytes, ok, EncodedKey(o, key, path, raw))
  {
    if path in raw {
      ok := out.WriteElement(TAG_TEXT_RAW, o.utf8(key));
    } else {
      ok := EncodeString(o, key, out);
    }
  }

  function Prepended(before: Bytes, rest: Result<Bytes>): Result<Bytes> { Joined(Ok(before), rest) }

  method EncodeValue(o: Outside, v: Json, out: ByteBuffer, path: string, raw: set<string>) returns (ok: bool)
    modifies out
    ensures Appended(old(out.bytes), out.bytes, ok, Encoded(o, v, path, raw))
    decreases v, 1
  {
    match v
    case JsonNull => ok := out.WriteElement(TAG_NULL, []);
    case JsonBool(b) => ok := out.WriteElement(if b then TAG_TRUE else TAG_FALSE, []);
    case JsonNum(n) => ok := out.WriteElement(if n.float then TAG_FLOAT else TAG_INT, o.utf8(n.text));
    case JsonText(s) => ok := EncodeString(o, s, out);
    case JsonArray(items) =>
      var payload := new ByteBuffer();
      ok := EncodeItems(o, v, payload, path, raw);
      if ok { ok := out.WriteElement(TAG_ARRAY, payload.bytes); }
    case JsonObject(fields) =>
      var payload := new ByteBuffer();
      ok := EncodeFields(o, v, payload, path, raw);
      if ok { ok := out.WriteElement(TAG_OBJECT, payload.bytes); }
  }

  /** The loop over an array's elements. */
  method EncodeItems(o: Outside, v: Json, payload: ByteBuffer, path: string, raw: set<string>) returns (ok: bool)
    requires v.JsonArray?
    modifies payload
    ensures Appended(old(payload.bytes), payload.bytes, ok, EncodedItems(o, v.items, 0, path, raw))
    decreases v, 0
  {
    ghost var before := payload.bytes;
    assert v.items[0..] == v.items;
    ok := true;
    var i := 0;
    while i < |v.items|
      invariant 0 <= i <= |v.items|
      invariant Prepended(payload.bytes, EncodedItems(o, v.items[i..], i, path, raw))
             == Prepended(before, EncodedItems(o, v.items, 0, path, raw))
    {
      assert v.items[i..][0] == v.items[i] && v.items[i..][1..] == v.items[i + 1..];
      ghost var at := payload.bytes;
      ok := EncodeValue(o, v.items[i], payload, ArrayIndexPath(path, i), raw);
      if !ok { return; }
      ghost var one, rest := Encoded(o, v.items[i], ArrayIndexPath(path, i), raw),
          EncodedItems(o, v.items[i + 1..], i + 1, path, raw);
      if rest.Ok? { assert (at + one.value) + rest.value == at + (one.value + rest.value); }
      i := i + 1;
    }
    assert v.items[i..] == [];
  }

  lemma AppendTwice(before: Bytes, a: Result<Bytes>, b: Result<Bytes>)
    ensures a.Ok? && b.Ok? ==> (before + a.value) + b.value == before + Joined(a, b).value
  {
  }

  method EncodeField(o: Outside, f: Field, payload: ByteBuffer, path: string, raw: set<string>) returns (ok: bool)
    modifies payload
    ensures Appended(old(payload.bytes), payload.bytes, ok, EncodedField(o, f, path, raw))
    decreases f, 0
  {
    ghost var before := payload.bytes;
    var keyPath := ObjectKeyPath(path, f.key);
    ok := EncodeKey(o, f.key, keyPath, raw, payload);
    if ok {
      ok := EncodeValue(o, f.value, payload, keyPath, raw);
      AppendTwice(before, EncodedKey(o, f.key, keyPath, raw), Encoded(o, f.value, keyPath, raw));
    }
  }

  /** The loop over an object's entries. */
  method EncodeFields(o: Outside, v: Json, payload: ByteBuffer, path: string, raw: set<string>) returns (ok: bool)
    requires v.JsonObject?
    modifies payload
    ensures Appended(old(payload.bytes), payload.bytes, ok, EncodedFields(o, v.fields, path, raw))
    decreases v, 0
  {
    ghost var before := payload.bytes;
    assert v.fields[0..] == v.fields;
    ok := true;
    var i := 0;
    while i < |v.fields|
      invariant 0 <= i <= |v.fields|
      invariant Prepended(payload.bytes, EncodedFields(o, v.fields[i..], path, raw))
             == Prepended(before, EncodedFields(o, v.fields, path, raw))
    {
      assert v.fields[i..][0] == v.fields[i] && v.fields[i..][1..] == v.fields[i + 1..];
      ghost var at := payload.bytes;
      ok := EncodeField(o, v.fields[i], payload, path, raw);
      if !ok { return; }
      ghost var one, rest := EncodedField(o, v.fields[i], path, raw), EncodedFields(o, v.fields[i + 1..], path, raw);
      if rest.Ok? { assert (at + one.value) + rest.value == at + (one.value + rest.value); }
      i := i + 1;
    }
    assert v.fields[i..] == [];
  }

  /** The shift-and-or loop of `read_be_length`. */
  method ReadBigEndian(raw: Bytes) returns (value: nat)
    ensures value == BigEndianValue(raw)
  {
    value := 0;
    for i := 0 to |raw|
      invariant value == BigEndianValue(raw[..i])
    {
      assert raw[..i + 1][..i] == raw[..i];
      value := value * 256 + raw[i];
    }
    assert raw[..|raw|] == raw;
  }

  method RunDecodeAt(o: Outside, bytes: Bytes, offset: nat) returns (r: Result<(Json, nat)>)
    requires offset <= |bytes|
    ensures r == DecodeAt(o, bytes, offset)
    decreases |bytes|, |bytes| - offset, 0
  {
    var header := ReadHeader(bytes, offset);
    if header.Err? { return Err(header.error); }
    var span := header.value;
    var payload := bytes[span.start..span.end];
    if span.tag == TAG_ARRAY {
      var items := DecodeArray(o, payload);
      r := if items.Err? then Err(items.error) else Ok((JsonArray(items.value), span.end));
    } else if span.tag == TAG_OBJECT {
      var fields := DecodeObject(o, payload);
      r := if fields.Err? then Err(fields.error) else Ok((JsonObject(fields.value), span.end));
    } else {
      var v := DecodeScalar(o, span.tag, payload);
      r := if v.Err? then Err(v.error) else Ok((v.value, span.end));
    }
  }

  method DecodeArray(o: Outside, payload: Bytes) returns (r: Result<seq<Json>>)
    ensures r == DecodeItems(o, payload, 0, [])
    decreases |payload|, |payload| + 1, 0
  {
    var values: seq<Json> := [];
    var offset := 0;
    while offset < |payload|
      invariant offset <= |payload|
      invariant DecodeItems(o, payload, offset, values) == DecodeItems(o, payload, 0, [])
    {
      var one := RunDecodeAt(o, payload, offset);
      if one.Err? { return Err(one.error); }
      values := values + [one.value.0];
      offset := one.value.1;
    }
    r := Ok(values);
  }

  method DecodeObject(o: Outside, payload: Bytes) returns (r: Result<seq<Field>>)
    ensures r == DecodeFields(o, payload, 0, [])
    decreases |payload|, |payload| + 1, 0
  {
    var entries: seq<Field> := [];
    var offset := 0;
    while offset < |payload|
      invariant offset <= |payload|
      invariant DecodeFields(o, payload, offset, entries) == DecodeFields(o, payload, 0, [])
    {
      var key := RunDecodeAt(o, payload, offset);
      if key.Err? { return Err(key.error); }
      if !key.value.0.JsonText? { return Err(Malformed); }
      var middle := key.value.1;
      if middle >= |payload| { return Err(Malformed); }
      var one := RunDecodeAt(o, payload, middle);
      if one.Err? { return Err(one.error); }
      entries := Insert(entries, key.value.0.text, one.value.0);
      offset := one.value.1;
    }
    r := Ok(entries);
  }
}
