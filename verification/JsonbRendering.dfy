/** Rendering JSONB as JSON text: encodings render as the value's compact text, and whatever decodes
    renders, over the same bytes. */
module JsonbRendering {
  import opened Common
  import opened Jsonb
  import opened JsonbRoundTrip

  // ----- Whatever decodes renders ------------------------------------------

  ghost predicate SameEnd(a: Result<(Json, nat)>, b: Result<(string, nat)>) {
    a.Ok? ==> b.Ok? && a.value.1 == b.value.1
  }

  /** Wherever decoding succeeds, rendering succeeds and stops at the same offset. */
  lemma {:induction false} DecodedRenders(o: Outside, bytes: Bytes, offset: nat)
    requires offset <= |bytes|
    ensures SameEnd(DecodeAt(o, bytes, offset), RenderAt(o, bytes, offset))
    decreases |bytes|, |bytes| - offset, 0
  {
    var header := ReadHeader(bytes, offset);
    if header.Ok? {
      var span := header.value;
      var payload := bytes[span.start..span.end];
      if span.tag == TAG_ARRAY {
        DecodedItemsRender(o, payload, 0, [], []);
      } else if span.tag == TAG_OBJECT {
        DecodedFieldsRender(o, payload, 0, [], []);
      }
    }
  }

  lemma {:induction false} DecodedItemsRender(o: Outside, payload: Bytes, offset: nat, read: seq<Json>,
      parts: seq<string>)
    requires offset <= |payload|
    ensures DecodeItems(o, payload, offset, read).Ok? ==> RenderItems(o, payload, offset, parts).Ok?
    decreases |payload|, |payload| - offset, 1
  {
    if offset < |payload| {
      DecodedRenders(o, payload, offset);
      var d, r := DecodeAt(o, payload, offset), RenderAt(o, payload, offset);
      if d.Ok? { DecodedItemsRender(o, payload, d.value.1, read + [d.value.0], parts + [r.value.0]); }
    }
  }

  lemma {:induction false} DecodedFieldsRender(o: Outside, payload: Bytes, offset: nat, read: seq<Field>,
      parts: seq<string>)
    requires offset <= |payload|
    ensures DecodeFields(o, payload, offset, read).Ok? ==> RenderFields(o, payload, offset, parts).Ok?
    decreases |payload|, |payload| - offset, 1
  {
    if offset < |payload| && DecodeFields(o, payload, offset, read).Ok? {
      DecodedRenders(o, payload, offset);
      var key, keyText := DecodeAt(o, payload, offset).value, RenderAt(o, payload, offset).value;
      DecodedRenders(o, payload, key.1);
      var one, text := DecodeAt(o, payload, key.1).value, RenderAt(o, payload, key.1).value;
      DecodedFieldsRender(o, payload, one.1, Insert(read, key.0.text, one.0), parts + [keyText.0 + ":" + text.0]);
    }
  }

  // ----- Encodings render as the value's text ------------------------------

  ghost predicate RendersAs(o: Outside, e: Bytes, t: string) {
    e != [] && forall before, after :: RendersAt(o, e, t, before, after)
  }

  ghost predicate RendersAt(o: Outside, e: Bytes, t: string, before: Bytes, after: Bytes) {
    RenderAt(o, before + e + after, |before|) == Ok((t, |before| + |e|))
  }

  ghost predicate ItemsRenderAs(o: Outside, e: Bytes, texts: seq<string>) {
    forall before, parts :: ItemsRenderAt(o, e, texts, before, parts)
  }

  ghost predicate ItemsRenderAt(o: Outside, e: Bytes, texts: seq<string>, before: Bytes, parts: seq<string>) {
    RenderItems(o, before + e, |before|, parts) == Ok(parts + texts)
  }

  ghost predicate FieldsRenderAs(o: Outside, e: Bytes, texts: seq<string>) {
    forall before, parts :: FieldsRenderAt(o, e, texts, before, parts)
  }

  ghost predicate FieldsRenderAt(o: Outside, e: Bytes, texts: seq<string>, before: Bytes, parts: seq<string>) {
    RenderFields(o, before + e, |before|, parts) == Ok(parts + texts)
  }

  lemma ScalarRenders(o: Outside, tag: byte, payload: Bytes)
    requires tag < 16 && tag != TAG_ARRAY && tag != TAG_OBJECT && Element(tag, payload).Ok? &&
             RenderScalar(o, tag, payload).Ok?
    ensures RendersAs(o, Element(tag, payload).value, RenderScalar(o, tag, payload).value)
  {
    forall before, after
      ensures RendersAt(o, Element(tag, payload).value, RenderScalar(o, tag, payload).value, before, after)
    {
      ElementRead(before, tag, payload, after);
    }
  }

  lemma ArrayRenders(o: Outside, payload: Bytes, texts: seq<string>)
    requires Element(TAG_ARRAY, payload).Ok? && ItemsRenderAs(o, payload, texts)
    ensures RendersAs(o, Element(TAG_ARRAY, payload).value, "[" + Commas(texts) + "]")
  {
    assert ItemsRenderAt(o, payload, texts, [], []);
    assert [] + payload == payload && [] + texts == texts;
    forall before, after
      ensures RendersAt(o, Element(TAG_ARRAY, payload).value, "[" + Commas(texts) + "]", before, after)
    {
      ElementRead(before, TAG_ARRAY, payload, after);
    }
  }

  lemma ObjectRenders(o: Outside, payload: Bytes, texts: seq<string>)
    requires Element(TAG_OBJECT, payload).Ok? && FieldsRenderAs(o, payload, texts)
    ensures RendersAs(o, Element(TAG_OBJECT, payload).value, "{" + Commas(texts) + "}")
  {
    assert FieldsRenderAt(o, payload, texts, [], []);
    assert [] + payload == payload && [] + texts == texts;
    forall before, after
      ensures RendersAt(o, Element(TAG_OBJECT, payload).value, "{" + Commas(texts) + "}", before, after)
    {
      ElementRead(before, TAG_OBJECT, payload, after);
    }
  }

  lemma ItemsRenderCons(o: Outside, first: Bytes, t: string, rest: Bytes, texts: seq<string>)
    requires RendersAs(o, first, t) && ItemsRenderAs(o, rest, texts)
    ensures ItemsRenderAs(o, first + rest, [t] + texts)
  {
    forall before, parts ensures ItemsRenderAt(o, first + rest, [t] + texts, before, parts) {
      assert RendersAt(o, first, t, before, rest);
      assert ItemsRenderAt(o, rest, texts, before + first, parts + [t]);
      assert before + (first + rest) == before + first + rest;
      assert parts + ([t] + texts) == parts + [t] + texts;
    }
  }

  lemma FieldRenderStep(o: Outside, payload: Bytes, offset: nat, parts: seq<string>, key: string, middle: nat,
      t: string, next: nat)
    requires offset < |payload| && RenderAt(o, payload, offset) == Ok((key, middle))
    requires middle < |payload| && RenderAt(o, payload, middle) == Ok((t, next))
    ensures RenderFields(o, payload, offset, parts) == RenderFields(o, payload, next, parts + [key + ":" + t])
  {
  }

  lemma FieldRendersAt(o: Outside, key: Bytes, k: string, one: Bytes, t: string, rest: Bytes, before: Bytes,
      parts: seq<string>, result: seq<string>)
    requires RendersAs(o, key, k) && RendersAs(o, one, t)
    requires RenderFields(o, before + (key + one) + rest, |before + (key + one)|, parts + [k + ":" + t]) == Ok(result)
    ensures RenderFields(o, before + ((key + one) + rest), |before|, parts) == Ok(result)
  {
    var payload := before + ((key + one) + rest);
    Regroup(before, key, one, rest);
    assert RendersAt(o, key, k, before, one + rest);
    assert RendersAt(o, one, t, before + key, rest);
    FieldRenderStep(o, payload, |before|, parts, k, |before + key|, t, |before + (key + one)|);
  }

  lemma FieldsRenderConsAt(o: Outside, key: Bytes, k: string, one: Bytes, t: string, rest: Bytes, texts: seq<string>,
      before: Bytes, parts: seq<string>)
    requires RendersAs(o, key, k) && RendersAs(o, one, t) && FieldsRenderAs(o, rest, texts)
    ensures FieldsRenderAt(o, (key + one) + rest, [k + ":" + t] + texts, before, parts)
  {
    var entry := k + ":" + t;
    assert FieldsRenderAt(o, rest, texts, before + (key + one), parts + [entry]);
    FieldRendersAt(o, key, k, one, t, rest, before, parts, parts + [entry] + texts);
    assert parts + ([entry] + texts) == parts + [entry] + texts;
  }

  lemma FieldsRenderCons(o: Outside, key: Bytes, k: string, one: Bytes, t: string, rest: Bytes, texts: seq<string>)
    requires RendersAs(o, key, k) && RendersAs(o, one, t) && FieldsRenderAs(o, rest, texts)
    ensures FieldsRenderAs(o, (key + one) + rest, [k + ":" + t] + texts)
  {
    forall before, parts ensures FieldsRenderAt(o, (key + one) + rest, [k + ":" + t] + texts, before, parts) {
      FieldsRenderConsAt(o, key, k, one, t, rest, texts, before, parts);
    }
  }

  lemma NothingToRender(o: Outside)
    ensures ItemsRenderAs(o, [], []) && FieldsRenderAs(o, [], [])
  {
    forall before, parts ensures ItemsRenderAt(o, [], [], before, parts) {
      assert before + [] == before && parts + [] == parts;
    }
    forall before, parts ensures FieldsRenderAt(o, [], [], before, parts) {
      assert before + [] == before && parts + [] == parts;
    }
  }

  lemma {:induction false} EncodedRenders(o: Outside, v: Json, path: string, raw: set<string>)
    requires Faithful(o) && WellFormed(o, v) && Encoded(o, v, path, raw).Ok?
    ensures RendersAs(o, Encoded(o, v, path, raw).value, TextOfJson(o, v))
    decreases v
  {
    match v
    case JsonArray(items) =>
      EncodedItemsRender(o, items, 0, path, raw);
      ArrayRenders(o, EncodedItems(o, items, 0, path, raw).value, ItemTexts(o, items));
    case JsonObject(fields) =>
      EncodedFieldsRender(o, fields, path, raw);
      ObjectRenders(o, EncodedFields(o, fields, path, raw).value, FieldTexts(o, fields));
    case _ =>
      var tag, payload := ScalarElement(o, v, path, raw);
      ScalarRenders(o, tag, payload);
  }

  lemma {:induction false} EncodedItemsRender(o: Outside, items: seq<Json>, index: nat, path: string, raw: set<string>)
    requires Faithful(o) && (forall i :: 0 <= i < |items| ==> WellFormed(o, items[i])) &&
             EncodedItems(o, items, index, path, raw).Ok?
    ensures ItemsRenderAs(o, EncodedItems(o, items, index, path, raw).value, ItemTexts(o, items))
    decreases items
  {
    if items == [] {
      NothingToRender(o);
    } else {
      EncodedRenders(o, items[0], ArrayIndexPath(path, index), raw);
      EncodedItemsRender(o, items[1..], index + 1, path, raw);
      ItemsRenderCons(o, Encoded(o, items[0], ArrayIndexPath(path, index), raw).value, TextOfJson(o, items[0]),
                      EncodedItems(o, items[1..], index + 1, path, raw).value, ItemTexts(o, items[1..]));
    }
  }

  lemma {:induction false} EncodedFieldsRender(o: Outside, fields: seq<Field>, path: string, raw: set<string>)
    requires Faithful(o) && (forall i :: 0 <= i < |fields| ==> WellFormed(o, fields[i].value)) &&
             EncodedFields(o, fields, path, raw).Ok?
    ensures FieldsRenderAs(o, EncodedFields(o, fields, path, raw).value, FieldTexts(o, fields))
    decreases fields
  {
    if fields == [] {
      NothingToRender(o);
    } else {
      var f := fields[0];
      var keyPath := ObjectKeyPath(path, f.key);
      var tag, payload := KeyElement(o, f.key, keyPath, raw);
      ScalarRenders(o, tag, payload);
      EncodedRenders(o, f.value, keyPath, raw);
      EncodedFieldsRender(o, fields[1..], path, raw);
      FieldsRenderCons(o, EncodedKey(o, f.key, keyPath, raw).value, Quoted(o, f.key),
          Encoded(o, f.value, keyPath, raw).value, TextOfJson(o, f.value),
                       EncodedFields(o, fields[1..], path, raw).value, FieldTexts(o, fields[1..]));
    }
  }

  /** `to_json_text`. */
  function ToJsonText(o: Outside, bytes: Bytes): Result<string> {
    match RenderAt(o, bytes, 0)
    case Err(e) => Err(e)
    case Ok((t, end)) => if end == |bytes| then Ok(t) else Err(Malformed)
  }

  /** An encoding renders as the value's compact JSON text, raw keys escaped like any other. */
  lemma RenderEncode(o: Outside, v: Json, raw: set<string>)
    requires Faithful(o) && WellFormed(o, v) && Encoded(o, v, "", raw).Ok?
    ensures ToJsonText(o, Encoded(o, v, "", raw).value) == Ok(TextOfJson(o, v))
  {
    var e := Encoded(o, v, "", raw).value;
    EncodedRenders(o, v, "", raw);
    assert RendersAt(o, e, TextOfJson(o, v), [], []);
    assert [] + e + [] == e;
  }

  /** Whatever `decode` accepts, `to_json_text` accepts. */
  lemma DecodableHasText(o: Outside, bytes: Bytes)
    requires Decode(o, bytes).Ok?
    ensures ToJsonText(o, bytes).Ok?
  {
    DecodedRenders(o, bytes, 0);
  }
}
