/** The path strings of the JSONB encoder tell every two paths apart. */
module JsonbPaths {
  import opened Decimal
  import opened Jsonb

  datatype Step = Member(key: string) | Position(index: nat)

  function Extended(parent: string, step: Step): string {
    match step
    case Member(key) => ObjectKeyPath(parent, key)
    case Position(index) => ArrayIndexPath(parent, index)
  }

  /** The path string the encoder builds on its way down. */
  function PathText(steps: seq<Step>): string {
    if steps == [] then "" else Extended(PathText(steps[..|steps| - 1]), steps[|steps| - 1])
  }

  function StepText(step: Step): string { Extended("", step) }

  lemma ExtendedAppends(parent: string, step: Step)
    ensures Extended(parent, step) == parent + StepText(step)
  {
  }

  lemma {:induction false} PathTextFront(step: Step, steps: seq<Step>)
    ensures PathText([step] + steps) == StepText(step) + PathText(steps)
  {
    var all := [step] + steps;
    if steps == [] {
      assert all[..0] == [] && all == [step];
    } else {
      var last := steps[|steps| - 1];
      assert all[..|all| - 1] == [step] + steps[..|steps| - 1];
      PathTextFront(step, steps[..|steps| - 1]);
      ExtendedAppends(PathText(steps[..|steps| - 1]), last);
      ExtendedAppends(PathText(all[..|all| - 1]), last);
    }
  }

  /** Digit runs ended by a non-digit are read off uniquely. */
  lemma {:induction false} DigitsEnd(a: string, b: string, stop: char, u: string, v: string)
    requires AllDigits(a) && AllDigits(b) && !IsDigit(stop)
    requires a + [stop] + u == b + [stop] + v
    ensures a == b && u == v
  {
    var whole := a + [stop] + u;
    if a == [] || b == [] {
      assert whole[0] == (a + [stop] + u)[0] == (b + [stop] + v)[0];
      assert u == whole[1..] && v == whole[1..];
    } else {
      assert whole[0] == a[0] && (b + [stop] + v)[0] == b[0];
      assert whole[1..] == a[1..] + [stop] + u && whole[1..] == b[1..] + [stop] + v;
      DigitsEnd(a[1..], b[1..], stop, u, v);
      assert a == [a[0]] + a[1..] && b == [b[0]] + b[1..];
    }
  }

  /** Two prefixes of one text with the same UTF-8 length are the same. */
  lemma {:induction false} SameLengthPrefix(a: string, b: string, u: string, v: string)
    requires a + u == b + v && Utf8Length(a) == Utf8Length(b)
    ensures a == b && u == v
  {
    if a == [] || b == [] {
      assert a == [] && b == [];
      assert a + u == u && b + v == v;
    } else {
      assert (a + u)[0] == a[0] && (b + v)[0] == b[0];
      assert (a + u)[1..] == a[1..] + u && (b + v)[1..] == b[1..] + v;
      SameLengthPrefix(a[1..], b[1..], u, v);
      assert a == [a[0]] + a[1..] && b == [b[0]] + b[1..];
    }
  }

  lemma NatTextInjective(m: nat, n: nat)
    requires NatText(m) == NatText(n)
    ensures m == n
  {
    NatTextRoundTrip(m);
    NatTextRoundTrip(n);
  }

  /** The first step of a path string is determined, whatever follows. */
  lemma FirstStep(x: Step, y: Step, u: string, v: string)
    requires StepText(x) + u == StepText(y) + v
    ensures x == y && u == v
  {
    var whole := StepText(x) + u;
    assert whole[0] == StepText(x)[0] && (StepText(y) + v)[0] == StepText(y)[0];
    if x.Member? {
      assert y.Member?;
      var a, b := NatText(Utf8Length(x.key)), NatText(Utf8Length(y.key));
      assert whole[1..] == a + [':'] + (x.key + u) && whole[1..] == b + [':'] + (y.key + v);
      DigitsEnd(a, b, ':', x.key + u, y.key + v);
      NatTextInjective(Utf8Length(x.key), Utf8Length(y.key));
      SameLengthPrefix(x.key, y.key, u, v);
    } else {
      assert y.Position?;
      var a, b := NatText(x.index), NatText(y.index);
      assert whole[1..] == a + [';'] + u && whole[1..] == b + [';'] + v;
      DigitsEnd(a, b, ';', u, v);
      NatTextInjective(x.index, y.index);
    }
  }

  /** Different sequences of object keys and array indexes never share a path string. */
  lemma {:induction false} PathsInjective(a: seq<Step>, b: seq<Step>)
    requires PathText(a) == PathText(b)
    ensures a == b
  {
    if a != [] && b != [] {
      assert a == [a[0]] + a[1..] && b == [b[0]] + b[1..];
      PathTextFront(a[0], a[1..]);
      PathTextFront(b[0], b[1..]);
      FirstStep(a[0], b[0], PathText(a[1..]), PathText(b[1..]));
      PathsInjective(a[1..], b[1..]);
    }
  }
}
