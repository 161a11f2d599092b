/** The JSON text of containers and the path strings, character by character. */
module JsonTexts {
  import opened Common
  import opened Comparisons
  import opened Decimal
  import opened Jsonb
  import opened JsonbRoundTrip

  /** Texts one after the other with a comma in front of each but the first. */
  function Listed(first: string, others: seq<string>): string
    decreases |others|
  {
    if others == [] then first else first + "," + Listed(others[0], others[1..])
  }

  lemma {:induction false} ListedLast(first: string, others: seq<string>, last: string)
    ensures Listed(first, others + [last]) == Listed(first, others) + "," + last
    decreases |others|
  {
    if others == [] {
      assert others + [last] == [last] && [last][1..] == [];
    } else {
      assert (others + [last])[0] == others[0] && (others + [last])[1..] == others[1..] + [last];
      ListedLast(others[0], others[1..], last);
      Front(first + ",", Listed(others[0], others[1..]), last);
    }
  }

  lemma Front(a: string, b: string, c: string)
    ensures a + (b + "," + c) == (a + b) + "," + c
  {
  }

  lemma {:induction false} CommasMean(parts: seq<string>)
    requires parts != []
    ensures Commas(parts) == Listed(parts[0], parts[1..])
  {
    if |parts| > 1 {
      var front, last := parts[..|parts| - 1], parts[|parts| - 1];
      CommasMean(front);
      assert front[1..] + [last] == parts[1..];
      ListedLast(parts[0], front[1..], last);
    }
  }

  /** The texts of the elements, in order. */
  function Elements(o: Outside, items: seq<Json>): seq<string> {
    seq(|items|, i requires 0 <= i < |items| => TextOfJson(o, items[i]))
  }

  /** The entries, each a quoted key, a colon and the text of its value. */
  function Entries(o: Outside, fields: seq<Field>): seq<string> {
    seq(|fields|, i requires 0 <= i < |fields| =>
      ("\"" + o.escape(fields[i].key) + "\"") + ":" + TextOfJson(o, fields[i].value))
  }

  lemma {:induction false} ItemTextsAre(o: Outside, items: seq<Json>)
    ensures ItemTexts(o, items) == Elements(o, items)
  {
    if items != [] { ItemTextsAre(o, items[1..]); }
  }

  lemma {:induction false} FieldTextsAre(o: Outside, fields: seq<Field>)
    ensures FieldTexts(o, fields) == Entries(o, fields)
  {
    if fields != [] { FieldTextsAre(o, fields[1..]); }
  }

  /** An array's elements stand in square brackets, with nothing in between but commas. */
  lemma ArrayText(o: Outside, items: seq<Json>)
    ensures var texts := Elements(o, items);
            TextOfJson(o, JsonArray(items)) ==
            if items == [] then "[]" else "[" + Listed(texts[0], texts[1..]) + "]"
  {
    ItemTextsAre(o, items);
    if items != [] { CommasMean(Elements(o, items)); }
  }

  /** An object's entries stand in braces. */
  lemma ObjectText(o: Outside, fields: seq<Field>)
    ensures var texts := Entries(o, fields);
            TextOfJson(o, JsonObject(fields)) ==
            if fields == [] then "{}" else "{" + Listed(texts[0], texts[1..]) + "}"
  {
    FieldTextsAre(o, fields);
    if fields != [] { CommasMean(Entries(o, fields)); }
  }

  /** A key path gives the key's length in bytes, an index path the index. */
  lemma PathsSpelled()
    ensures ObjectKeyPath("", "ab") == "K2:ab" && ArrayIndexPath("K2:ab", 12) == "K2:abI12;"
    ensures ObjectKeyPath("I0;", "\U{20ac}") == "I0;K3:\U{20ac}"
  {
    assert NatText(12) == "12" && Utf8Length("ab") == 2;
    assert Utf8Length("\U{20ac}") == 3;
  }

  // ----- Repeated keys -----------------------------------------------------

  /** Putting an entry into an object kept by ascending key: the key then has the new value, every other
      entry is as it was, and the order holds. */
  lemma {:induction false} InsertMeans(fields: seq<Field>, key: string, v: Json)
    requires KeysAscend(fields)
    ensures var r := Insert(fields, key, v);
            KeysAscend(r) &&
            forall f :: f in r <==> f == Field(key, v) || (f in fields && f.key != key)
  {
    if fields != [] {
      var rest := fields[1..];
      assert fields == [fields[0]] + rest;
      TextOrder(key, fields[0].key);
      match CompareText(key, fields[0].key)
      case Less =>
        forall i | 0 <= i < |fields| ensures CompareText(key, fields[i].key) == Less && fields[i].key != key {
          if i > 0 { CompareTextTransitive(key, fields[0].key, fields[i].key); }
          TextOrder(key, fields[i].key);
        }
      case Equal =>
        forall f | f in rest ensures f.key != key {
          var i :| 0 <= i < |rest| && rest[i] == f;
          assert CompareText(fields[0].key, fields[i + 1].key) == Less;
          TextOrder(fields[0].key, f.key);
        }
      case Greater =>
        InsertMeans(rest, key, v);
        var r := Insert(rest, key, v);
        TextOrder(fields[0].key, key);
        forall i | 0 <= i < |r| ensures CompareText(fields[0].key, r[i].key) == Less {
          assert r[i] in r;
          if r[i] != Field(key, v) {
            var k :| 0 <= k < |rest| && rest[k] == r[i];
            assert CompareText(fields[0].key, fields[k + 1].key) == Less;
          }
        }
    }
  }
}
