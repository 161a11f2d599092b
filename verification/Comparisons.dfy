/** What it means for one SQL value to come before another, class by class, and that every comparison of
    the database agrees with it. */
module Comparisons {
  import opened Common
  import opened Values
  import opened CheckExprs
  import opened Filters

  // ----- Orders --------------------------------------------------------------

  /** Lexicographic order: at the first difference the smaller character, or the end of the text. */
  ghost predicate Before(a: string, b: string) {
    exists k :: 0 <= k < |b| && k <= |a| && a[..k] == b[..k] && (k == |a| || a[k] < b[k])
  }

  ghost predicate BytesBefore(a: seq<int>, b: seq<int>) {
    exists k :: 0 <= k < |b| && k <= |a| && a[..k] == b[..k] && (k == |a| || a[k] < b[k])
  }

  lemma BeforeDown(a: string, b: string)
    requires Before(a, b)
    ensures b != "" && (a == "" || a[0] < b[0] || (a[0] == b[0] && Before(a[1..], b[1..])))
  {
    var k :| 0 <= k < |b| && k <= |a| && a[..k] == b[..k] && (k == |a| || a[k] < b[k]);
    if k > 0 {
      assert a[0] == a[..k][0] && b[0] == b[..k][0];
      assert a[1..][..k - 1] == a[..k][1..] && b[1..][..k - 1] == b[..k][1..];
    }
  }

  lemma BeforeUp(a: string, b: string)
    requires a != "" && b != "" && a[0] == b[0] && Before(a[1..], b[1..])
    ensures Before(a, b)
  {
    var k :| 0 <= k < |b[1..]| && k <= |a[1..]| && a[1..][..k] == b[1..][..k] &&
        (k == |a[1..]| || a[1..][k] < b[1..][k]);
    assert a[..k + 1] == [a[0]] + a[1..][..k] && b[..k + 1] == [b[0]] + b[1..][..k];
  }

  lemma BeforeStep(a: string, b: string)
    ensures Before(a, b) <==>
            b != "" && (a == "" || a[0] < b[0] || (a[0] == b[0] && Before(a[1..], b[1..])))
  {
    if Before(a, b) { BeforeDown(a, b); }
    if b != "" && (a == "" || a[0] < b[0]) { assert a[..0] == b[..0]; }
    if a != "" && b != "" && a[0] == b[0] && Before(a[1..], b[1..]) { BeforeUp(a, b); }
  }

  lemma BytesBeforeDown(a: seq<int>, b: seq<int>)
    requires BytesBefore(a, b)
    ensures b != [] && (a == [] || a[0] < b[0] || (a[0] == b[0] && BytesBefore(a[1..], b[1..])))
  {
    var k :| 0 <= k < |b| && k <= |a| && a[..k] == b[..k] && (k == |a| || a[k] < b[k]);
    if k > 0 {
      assert a[0] == a[..k][0] && b[0] == b[..k][0];
      assert a[1..][..k - 1] == a[..k][1..] && b[1..][..k - 1] == b[..k][1..];
    }
  }

  lemma BytesBeforeUp(a: seq<int>, b: seq<int>)
    requires a != [] && b != [] && a[0] == b[0] && BytesBefore(a[1..], b[1..])
    ensures BytesBefore(a, b)
  {
    var k :| 0 <= k < |b[1..]| && k <= |a[1..]| && a[1..][..k] == b[1..][..k] &&
        (k == |a[1..]| || a[1..][k] < b[1..][k]);
    assert a[..k + 1] == [a[0]] + a[1..][..k] && b[..k + 1] == [b[0]] + b[1..][..k];
  }

  lemma BytesBeforeStep(a: seq<int>, b: seq<int>)
    ensures BytesBefore(a, b) <==>
            b != [] && (a == [] || a[0] < b[0] || (a[0] == b[0] && BytesBefore(a[1..], b[1..])))
  {
    if BytesBefore(a, b) { BytesBeforeDown(a, b); }
    if b != [] && (a == [] || a[0] < b[0]) { assert a[..0] == b[..0]; }
    if a != [] && b != [] && a[0] == b[0] && BytesBefore(a[1..], b[1..]) { BytesBeforeUp(a, b); }
  }

  /** The comparison of texts is lexicographic. */
  lemma {:induction false} TextOrder(a: string, b: string)
    ensures CompareText(a, b) == Less <==> Before(a, b)
    ensures CompareText(a, b) == Equal <==> a == b
    ensures CompareText(a, b) == Greater <==> Before(b, a)
  {
    BeforeStep(a, b);
    BeforeStep(b, a);
    hide Before;
    if a != "" && b != "" && a[0] == b[0] {
      TextOrder(a[1..], b[1..]);
      assert a == [a[0]] + a[1..] && b == [b[0]] + b[1..];
    }
  }

  lemma {:induction false} BytesOrder(a: seq<int>, b: seq<int>)
    ensures CompareSeqs(a, b) == Less <==> BytesBefore(a, b)
    ensures CompareSeqs(a, b) == Equal <==> a == b
    ensures CompareSeqs(a, b) == Greater <==> BytesBefore(b, a)
  {
    BytesBeforeStep(a, b);
    BytesBeforeStep(b, a);
    hide BytesBefore;
    if a != [] && b != [] && a[0] == b[0] {
      BytesOrder(a[1..], b[1..]);
      assert a == [a[0]] + a[1..] && b == [b[0]] + b[1..];
    }
  }

  // ----- Values --------------------------------------------------------------

  /** Two values of one class, neither NULL. */
  predicate Alike(v: Value, w: Value) {
    (v.Boolean? && w.Boolean?) || (v.Integer? && w.Integer?) || (v.Blob? && w.Blob?) || (v.Text? && w.Text?)
  }

  ghost predicate Smaller(v: Value, w: Value)
    requires Alike(v, w)
  {
    match v
    case Boolean(b) => !b && w.b
    case Integer(i) => i < w.i
    case Blob(bytes) => BytesBefore(bytes, w.bytes)
    case Text(t) => Before(t, w.text)
  }

  /** The relation an operator stands for. */
  ghost predicate Related(v: Value, op: CompareOp, w: Value)
    requires Alike(v, w)
  {
    match op
    case Eq => v == w
    case Ne => v != w
    case Lt => Smaller(v, w)
    case Gt => Smaller(w, v)
    case Lte => v == w || Smaller(v, w)
    case Gte => v == w || Smaller(w, v)
  }

  /** No two alike values are smaller than each other, nor equal and smaller. */
  lemma OneOfThree(v: Value, w: Value)
    requires Alike(v, w)
    ensures (v == w && !Smaller(v, w) && !Smaller(w, v)) || (v != w && Smaller(v, w) != Smaller(w, v))
  {
    match v
    case Text(t) => TextOrder(t, w.text);
    case Blob(b) => BytesOrder(b, w.bytes);
    case _ =>
  }

  // ----- The comparisons of the database ------------------------------------

  /** In a CHECK expression a comparison is unknown with NULL, the relation between alike values, and
      false between unlike ones. */
  lemma CheckCompareMeans(v: Value, op: CompareOp, w: Value)
    ensures EvaluateCompare(v, op, w) ==
            if v.Null? || w.Null? then None else Some(Alike(v, w) && Related(v, op, w))
  {
    if Alike(v, w) {
      OneOfThree(v, w);
      match v
      case Text(t) => TextOrder(t, w.text);
      case Blob(b) => BytesOrder(b, w.bytes);
      case _ =>
    }
  }

  /** The classes in the order BETWEEN puts them in. */
  predicate EarlierClass(v: Value, w: Value) {
    (v.Boolean? && (w.Integer? || w.Blob? || w.Text?)) || (v.Integer? && (w.Blob? || w.Text?)) || (v.Blob? && w.Text?)
  }

  lemma TotalOrderMeans(v: Value, w: Value)
    requires !v.Null? && !w.Null?
    ensures TotalOrder(v, w) == Less <==> EarlierClass(v, w) || (Alike(v, w) && Smaller(v, w))
    ensures TotalOrder(v, w) == Equal <==> v == w
    ensures TotalOrder(v, w) == Greater <==> EarlierClass(w, v) || (Alike(v, w) && Smaller(w, v))
  {
    if Alike(v, w) {
      OneOfThree(v, w);
      match v
      case Text(t) => TextOrder(t, w.text);
      case Blob(b) => BytesOrder(b, w.bytes);
      case _ =>
    }
  }

  /** The store's own comparison: equality is identity, and ranges hold between alike values other than
      blobs, and between NULL and itself. */
  lemma StoreMatchesMeans(v: Value, op: CompareOp, w: Value)
    ensures StoreMatches(v, Eq, w) <==> v == w
    ensures StoreMatches(v, Ne, w) <==> v != w
    ensures op != Eq && op != Ne ==>
            (StoreMatches(v, op, w) <==>
              (v.Null? && w.Null? && (op == Lte || op == Gte)) || (Alike(v, w) && !v.Blob? && Related(v, op, w)))
  {
    if Alike(v, w) {
      OneOfThree(v, w);
      match v
      case Text(t) => TextOrder(t, w.text);
      case Blob(b) => BytesOrder(b, w.bytes);
      case _ =>
    }
  }

  /** The classes in the executor's order; a boolean counts as 0 or 1. */
  predicate ExecEarlier(v: Value, w: Value) {
    ((v.Boolean? || v.Integer?) && (w.Text? || w.Blob?)) || (v.Text? && w.Blob?)
  }

  function AsNumber(v: Value): Value {
    match v
    case Boolean(b) => Integer(if b then 1 else 0)
    case _ => v
  }

  /** The relation between alike values, booleans taken as numbers, and otherwise the order of the classes. */
  ghost predicate ExecRelated(v: Value, op: CompareOp, w: Value) {
    var a, b := AsNumber(v), AsNumber(w);
    if Alike(a, b) then Related(a, op, b)
    else if ExecEarlier(v, w) then op == Lt || op == Lte || op == Ne
    else op == Gt || op == Gte || op == Ne
  }

  /** The executor's comparison without a collation: that relation, and unknown or false with NULL. */
  ghost function ExecTruth(mode: Mode, v: Value, op: CompareOp, w: Value): Option<bool> {
    if !v.Null? && !w.Null? then Some(ExecRelated(v, op, w)) else if mode.Kleene? then None else Some(false)
  }

  lemma ExecCompareMeans(mode: Mode, v: Value, op: CompareOp, w: Value)
    ensures CompareTest(mode, None, v, op, w) == ExecTruth(mode, v, op, w)
  {
    var a, b := AsNumber(v), AsNumber(w);
    if Alike(a, b) {
      OneOfThree(a, b);
      match a
      case Text(t) => TextOrder(t, b.text);
      case Blob(x) => BytesOrder(x, b.bytes);
      case _ =>
    }
  }

  /** Under NOCASE texts compare by their lower-case forms, under RTRIM without trailing blanks. */
  lemma CollatedTexts(mode: Mode, collation: Option<string>, a: string, op: CompareOp, b: string)
    ensures IsNoCase(collation) ==>
            CompareTest(mode, collation, Text(a), op, Text(b)) ==
            CompareTest(mode, None, Text(Lower(a)), op, Text(Lower(b)))
    ensures IsRTrim(collation) && !IsNoCase(collation) ==>
            CompareTest(mode, collation, Text(a), op, Text(b)) ==
            CompareTest(mode, None, Text(TrimEnd(a)), op, Text(TrimEnd(b)))
  {
    assert !IsNoCase(None) && !IsRTrim(None);
    assert CollatedCompare(None, Text(Lower(a)), Text(Lower(b))) == Some(CompareText(Lower(a), Lower(b)));
    assert CollatedCompare(None, Text(TrimEnd(a)), Text(TrimEnd(b))) == Some(CompareText(TrimEnd(a), TrimEnd(b)));
  }

  /** `TrimEnd` takes off blanks at the end and nothing else. */
  lemma {:induction false} TrimEndMeans(s: string)
    ensures TrimEnd(s) <= s && forall k :: |TrimEnd(s)| <= k < |s| ==> s[k] == ' '
    ensures TrimEnd(s) != "" ==> TrimEnd(s)[|TrimEnd(s)| - 1] != ' '
  {
    if s != "" && s[|s| - 1] == ' ' { TrimEndMeans(s[..|s| - 1]); }
  }

  // ----- Truth values --------------------------------------------------------

  /** False, unknown and true in order. */
  function Degree(t: Option<bool>): nat { if t == Some(false) then 0 else if t == None then 1 else 2 }

  /** AND is the least, OR the greatest, and NOT the opposite. */
  lemma KleeneMeans(a: Option<bool>, b: Option<bool>)
    ensures Degree(KleeneAnd(a, b)) == if Degree(a) <= Degree(b) then Degree(a) else Degree(b)
    ensures Degree(KleeneOr(a, b)) == if Degree(a) >= Degree(b) then Degree(a) else Degree(b)
    ensures Degree(KleeneNot(a)) == 2 - Degree(a)
  {
    match (a, b)
    case (Some(x), Some(y)) => if x { if y {} else {} } else if y {} else {}
    case (Some(x), None) => if x {} else {}
    case (None, Some(y)) => if y {} else {}
    case (None, None) =>
  }
}
