/** Python's `int(s)` and `float(s)` on text, and `str(n)` for an integer: the conversions the
    reclassification table reads its codes and impedances with. */
module PyNum {
  import opened Wrappers
  import opened PyStr

  /** An optional leading sign: whether it is `-`, and the text after it. */
  function SignSplit(t: string): (r: (bool, string))
    ensures r.1 == t || (t != [] && r.1 == t[1..] && (t[0] == '-' || t[0] == '+'))
  {
    if t != [] && t[0] == '-' then (true, t[1..])
    else if t != [] && t[0] == '+' then (false, t[1..])
    else (false, t)
  }

  function Signed(neg: bool, n: nat): int {
    if neg then -(n as int) else n
  }

  /** `int(s)`: surrounding whitespace, an optional sign and one or more ASCII digits;
      anything else raises a ValueError. */
  function ParseInt(s: string): (r: Result<int>)
    ensures r.Err? ==> r.exc.ValueError?
    ensures Strip(s) == [] ==> r.Err?
  {
    var (neg, ds) := SignSplit(Strip(s));
    if ds == [] || !AllDigits(ds) then Err(ValueError("invalid literal for int()"))
    else Ok(Signed(neg, DigitsValue(ds)))
  }

  /** `10 ** n`. */
  function Pow10(n: nat): (p: nat)
    ensures p >= 1
  {
    if n == 0 then 1 else 10 * Pow10(n - 1)
  }

  /** `10.0 ** e` for any integer exponent. */
  function Pow10Real(e: int): real {
    if e >= 0 then Pow10(e) as real else 1.0 / Pow10(-e) as real
  }

  /** Digits with at most one `.` and at least one digit: the value they denote. */
  function MantissaValue(m: string): Option<real> {
    match IndexOf(m, ".")
    case None => if m != [] && AllDigits(m) then Some(DigitsValue(m) as real) else None
    case Some(k) =>
      var ip, fp := m[..k], m[k + 1..];
      if AllDigits(ip) && AllDigits(fp) && |ip| + |fp| >= 1 then
        Some(DigitsValue(ip) as real + DigitsValue(fp) as real / Pow10(|fp|) as real)
      else None
  }

  /** The exponent after `e` or `E`: an optional sign and one or more digits. */
  function ExponentValue(e: string): Option<int> {
    var (neg, ds) := SignSplit(e);
    if ds != [] && AllDigits(ds) then Some(Signed(neg, DigitsValue(ds))) else None
  }

  /** An unsigned decimal literal with an optional exponent. */
  function DecimalValue(body: string): Option<real> {
    match IndexOf(Lower(body), "e")
    case None => MantissaValue(body)
    case Some(k) =>
      match (MantissaValue(body[..k]), ExponentValue(body[k + 1..]))
      case (Some(m), Some(e)) => Some(m * Pow10Real(e))
      case _ => None
  }

  /** `float(s)` on decimal notation: surrounding whitespace, an optional sign, digits with an
      optional `.` and an optional exponent; anything else raises a ValueError. The value is the
      exact number the text denotes. */
  function ParseFloat(s: string): (r: Result<real>)
    ensures r.Err? ==> r.exc.ValueError?
    ensures Strip(s) == [] ==> r.Err?
  {
    var (neg, body) := SignSplit(Strip(s));
    match DecimalValue(body)
    case None => Err(ValueError("could not convert string to float"))
    case Some(v) => Ok(if neg then -v else v)
  }

  /** `str(n)` for a natural number: its decimal digits without leading zeros. */
  function NatText(n: nat): (s: string)
    ensures s != [] && AllDigits(s) && DigitsValue(s) == n
    ensures s[0] != '0' || s == "0"
    decreases n
  {
    if n < 10 then
      var c := ('0' as int + n) as char;
      DigitsValueSnoc([], c);
      assert [] + [c] == [c];
      [c]
    else
      var h, c := NatText(n / 10), ('0' as int + n % 10) as char;
      DigitsValueSnoc(h, c);
      assert (h + [c])[0] == h[0];
      h + [c]
  }

  /** `str(n)`. */
  function IntText(n: int): string {
    if n < 0 then "-" + NatText(-n) else NatText(n)
  }

  /** `int(str(n)) == n`. */
  lemma {:induction false} ParseIntOfText(n: int)
    ensures ParseInt(IntText(n)) == Ok(n)
  {
    var s := IntText(n);
    var ds := NatText(if n < 0 then -n else n);
    assert s[|s| - 1] == ds[|ds| - 1];
    assert IsDigit(s[|s| - 1]);
    assert s[0] == '-' || IsDigit(s[0]);
    StripUnchanged(s);
    if n < 0 {
      assert s[1..] == ds;
    } else {
      assert s[0] != '-' && s[0] != '+';
    }
  }

  /** Digits only: `int` reads their value. */
  lemma {:induction false} ParseIntOfDigits(s: string)
    requires s != [] && AllDigits(s)
    ensures ParseInt(s) == Ok(DigitsValue(s) as int)
  {
    assert IsDigit(s[0]) && IsDigit(s[|s| - 1]);
    StripUnchanged(s);
  }

  /** `float` and `int` agree on integer text. */
  lemma {:induction false} ParseFloatOfInt(s: string)
    requires ParseInt(s).Ok?
    ensures ParseFloat(s) == Ok(ParseInt(s).value as real)
  {
    var (neg, ds) := SignSplit(Strip(s));
    DigitsOnly(ds);
    assert DecimalValue(ds) == Some(DigitsValue(ds) as real);
  }

  /** Text made of digits has no `.` and no exponent. */
  lemma {:induction false} DigitsOnly(ds: string)
    requires AllDigits(ds)
    ensures IndexOf(ds, ".").None? && IndexOf(Lower(ds), "e").None?
  {
    assert '.' !in ds;
    HeadAbsentNotContained(ds, ".");
    assert Lower(ds) == ds;
    assert 'e' !in ds;
    HeadAbsentNotContained(ds, "e");
  }

  /** `float("<a>.<b>")` for digit strings: the integer part plus the fraction. */
  lemma {:induction false} ParseFloatOfDecimal(a: string, b: string)
    requires AllDigits(a) && AllDigits(b) && |a| + |b| >= 1
    ensures ParseFloat(a + "." + b) == Ok(DigitsValue(a) as real + DigitsValue(b) as real / Pow10(|b|) as real)
  {
    var m := a + "." + b;
    DecimalChars(a, b);
    assert m[0] == '.' || IsDigit(m[0]);
    assert m[|m| - 1] == '.' || IsDigit(m[|m| - 1]);
    StripUnchanged(m);
    assert SignSplit(m) == (false, m);
    assert 'e' !in Lower(m) by {
      forall i | 0 <= i < |m| ensures Lower(m)[i] != 'e' {
        assert m[i] == '.' || IsDigit(m[i]);
      }
    }
    HeadAbsentNotContained(Lower(m), "e");
    assert '.' !in a;
    CharAbsentNoOccur(a, '.', b);
    IndexOfAfter(a, ".", b);
    assert m[..|a|] == a && m[|a| + 1..] == b;
  }

  /** Every character of `<a>.<b>` is a digit or the point. */
  lemma {:induction false} DecimalChars(a: string, b: string)
    requires AllDigits(a) && AllDigits(b)
    ensures forall i :: 0 <= i < |a + "." + b| ==> (a + "." + b)[i] == '.' || IsDigit((a + "." + b)[i])
  {
    var m := a + "." + b;
    forall i | 0 <= i < |m| ensures m[i] == '.' || IsDigit(m[i]) {
      if i < |a| { assert m[i] == a[i]; }
      else if i > |a| { assert m[i] == b[i - |a| - 1]; }
    }
  }
}
