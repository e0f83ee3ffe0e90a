/** `datetime.strptime(s, "%Y-%m-%d %H:%M:%S")`, the only timestamp format the scripts parse,
    and the zero-padded text the rasterisation step writes in that format. */
module PyDatetime {
  import opened Wrappers
  import opened PyStr

  datatype DateTime = DateTime(year: nat, month: nat, day: nat, hour: nat, minute: nat, second: nat)

  predicate IsLeap(y: nat) { y % 4 == 0 && (y % 100 != 0 || y % 400 == 0) }

  function DaysInMonth(y: nat, m: nat): nat
    requires 1 <= m <= 12
  {
    if m == 2 then (if IsLeap(y) then 29 else 28)
    else if m == 4 || m == 6 || m == 9 || m == 11 then 30
    else 31
  }

  /** The values a `datetime` object can hold (years 1 to 9999 of the Gregorian calendar). */
  predicate Valid(t: DateTime) {
    1 <= t.year <= 9999 && 1 <= t.month <= 12 && 1 <= t.day <= DaysInMonth(t.year, t.month)
    && t.hour <= 23 && t.minute <= 59 && t.second <= 59
  }

  /** Length of the run of ASCII digits at the start of `s`. */
  function DigitRun(s: string): (k: nat)
    ensures k <= |s| && AllDigits(s[..k])
    ensures k == |s| || !IsDigit(s[k])
    decreases |s|
  {
    if s != [] && IsDigit(s[0]) then
      var k := 1 + DigitRun(s[1..]);
      assert s[..k] == [s[0]] + s[1..][..k - 1];
      k
    else 0
  }

  /** A numeric field of one or two digits (`%m`, `%H`, `%M`, `%S`; also `%d`) and the rest. */
  function Field(s: string): Option<(nat, string)> {
    var k := DigitRun(s);
    if k == 0 || k > 2 then None else Some((DigitsValue(s[..k]), s[k..]))
  }

  /** `%d` additionally accepts a space followed by a non-zero digit. */
  function DayField(s: string): Option<(nat, string)> {
    if |s| >= 2 && s[0] == ' ' && '1' <= s[1] <= '9' then Some((s[1] as int - '0' as int, s[2..]))
    else Field(s)
  }

  predicate StartsWithChar(s: string, c: char) { s != [] && s[0] == c }

  /** `%Y-%m-%d` at the start of `s`: year, month, day and the text after the day. */
  function DatePart(s: string): Option<(nat, nat, nat, string)> {
    if !(|s| >= 5 && AllDigits(s[..4]) && s[4] == '-') then None
    else
      match Field(s[5..])
      case None => None
      case Some((mo, r1)) =>
        if !StartsWithChar(r1, '-') then None else
        match DayField(r1[1..])
        case None => None
        case Some((d, r2)) => Some((DigitsValue(s[..4]), mo, d, r2))
  }

  /** `%H:%M:%S` making up the whole of `s`. */
  function Clock(s: string): Option<(nat, nat, nat)> {
    match Field(s)
    case None => None
    case Some((h, r3)) =>
      if !StartsWithChar(r3, ':') then None else
      match Field(r3[1..])
      case None => None
      case Some((mi, r4)) =>
        if !StartsWithChar(r4, ':') then None else
        match Field(r4[1..])
        case None => None
        case Some((se, r5)) => if r5 != [] then None else Some((h, mi, se))
  }

  /** Splits `s` into the six fields of the format; `None` when the text does not have the
      format's shape (the year has exactly four digits, every other field one or two, the
      space of the format matches one or more whitespace characters, nothing may follow). */
  function Fields(s: string): Option<DateTime> {
    AfterDate(DatePart(s))
  }

  /** The whitespace and the clock that follow the date part. */
  function AfterDate(date: Option<(nat, nat, nat, string)>): Option<DateTime> {
    match date
    case None => None
    case Some((y, mo, d, r2)) =>
      var w := LeadingSpaces(r2);
      if w == 0 then None else
      match Clock(r2[w..])
      case None => None
      case Some((h, mi, se)) => Some(DateTime(y, mo, d, h, mi, se))
  }

  /** The ranges the format's patterns accept: month 1-12, day 1-31, hour 0-23, minute 0-59,
      second 0-61. Anything else makes `strptime` report that the text does not match. */
  predicate PatternRanges(t: DateTime) {
    1 <= t.month <= 12 && 1 <= t.day <= 31 && t.hour <= 23 && t.minute <= 59 && t.second <= 61
  }

  /** `datetime.strptime(s, "%Y-%m-%d %H:%M:%S")`: a ValueError unless `s` has the format's
      shape, the fields are in the patterns' ranges and they form a valid `datetime`. */
  function Strptime(s: string): (r: Result<DateTime>)
    ensures r.Ok? ==> Valid(r.value)
    ensures r.Err? ==> r.exc.ValueError?
  {
    match Fields(s)
    case None => Err(ValueError("time data does not match format"))
    case Some(t) =>
      if !PatternRanges(t) then Err(ValueError("time data does not match format"))
      else if !Valid(t) then Err(ValueError("day, year or second is out of range"))
      else Ok(t)
  }

  function DigitChar(n: nat): char
    requires n <= 9
  {
    ('0' as int + n) as char
  }

  /** `n` as two digits with a leading zero. */
  function Pad2(n: nat): (s: string)
    requires n <= 99
    ensures |s| == 2 && AllDigits(s) && DigitsValue(s) == n
  {
    var a, b := DigitChar(n / 10), DigitChar(n % 10);
    DigitsValueSnoc([], a);
    assert [] + [a] == [a];
    DigitsValueSnoc([a], b);
    [a] + [b]
  }

  /** `n` as four digits with leading zeros. */
  function Pad4(n: nat): (s: string)
    requires n <= 9999
    ensures |s| == 4 && AllDigits(s) && DigitsValue(s) == n
  {
    var hi, lo := Pad2(n / 100), Pad2(n % 100);
    DigitsValueOfPair(hi, lo);
    hi + lo
  }

  lemma {:induction false} DigitsValueOfPair(hi: string, lo: string)
    requires AllDigits(hi) && |lo| == 2 && AllDigits(lo)
    ensures AllDigits(hi + lo) && DigitsValue(hi + lo) == DigitsValue(hi) * 100 + DigitsValue(lo)
  {
    var c, d := lo[0], lo[1];
    assert lo == [c] + [d];
    assert lo[..1] == [c];
    assert hi + lo == hi + [c] + [d];
    DigitsValueSnoc(hi, c);
    DigitsValueSnoc(hi + [c], d);
    DigitsValueSnoc([], c);
    assert [] + [c] == [c];
  }

  /** `t.strftime("%Y-%m-%d %H:%M:%S")`. */
  function Format(t: DateTime): string
    requires Valid(t)
  {
    Pad4(t.year) + AfterYear(t)
  }

  /** The fields of `t` after `%Y`, as `strftime` pads them: `-%m-%d %H:%M:%S`. */
  function AfterYear(t: DateTime): string
    requires t.month <= 99 && t.day <= 99 && t.hour <= 99 && t.minute <= 99 && t.second <= 99
  {
    "-" + Pad2(t.month) + "-" + Pad2(t.day) + " " + Pad2(t.hour) + ":" + Pad2(t.minute) + ":" + Pad2(t.second)
  }

  lemma {:induction false} FieldOfPad2(n: nat, rest: string)
    requires n <= 99 && (rest == [] || !IsDigit(rest[0]))
    ensures Field(Pad2(n) + rest) == Some((n, rest))
  {
    var s := Pad2(n) + rest;
    assert s[1..] == [s[1]] + rest;
    assert s[1..][1..] == rest;
    assert DigitRun(s) == 2;
    assert s[..2] == Pad2(n);
    assert s[2..] == rest;
  }

  lemma {:induction false} ClockOfPads(h: nat, mi: nat, se: nat)
    requires h <= 99 && mi <= 99 && se <= 99
    ensures Clock(Pad2(h) + ":" + Pad2(mi) + ":" + Pad2(se)) == Some((h, mi, se))
  {
    var r4 := ":" + Pad2(se);
    var r3 := ":" + Pad2(mi) + r4;
    assert Pad2(h) + ":" + Pad2(mi) + ":" + Pad2(se) == Pad2(h) + r3;
    FieldOfPad2(h, r3);
    assert r3[1..] == Pad2(mi) + r4;
    FieldOfPad2(mi, r4);
    assert r4[1..] == Pad2(se) + "";
    FieldOfPad2(se, "");
  }

  /** `%Y-%m-%d` read from four digits of year and two zero-padded fields. */
  lemma {:induction false} DateOfDigits(y: string, mo: nat, d: nat, rest: string)
    requires |y| == 4 && AllDigits(y) && mo <= 99 && d <= 99 && StartsWithChar(rest, ' ')
    ensures DatePart(y + ("-" + Pad2(mo) + "-" + Pad2(d) + rest)) == Some((DigitsValue(y), mo, d, rest))
  {
    var r1 := "-" + Pad2(d) + rest;
    var s := y + ("-" + Pad2(mo) + "-" + Pad2(d) + rest);
    assert s == y + "-" + (Pad2(mo) + r1);
    assert s[..4] == y;
    assert s[5..] == Pad2(mo) + r1;
    FieldOfPad2(mo, r1);
    assert r1[1..] == Pad2(d) + rest;
    assert DayField(r1[1..]) == Field(r1[1..]) by { assert r1[1..][0] == Pad2(d)[0]; }
    FieldOfPad2(d, rest);
  }

  /** Parsing what `Format` wrote gives back the same timestamp. */
  lemma {:induction false} StrptimeFormat(t: DateTime)
    requires Valid(t)
    ensures Strptime(Format(t)) == Ok(t)
  {
    FieldsOfFormat(t);
    StrptimeOfFields(Format(t), t);
  }

  lemma {:induction false} StrptimeOfFields(s: string, t: DateTime)
    requires Fields(s) == Some(t) && Valid(t)
    ensures Strptime(s) == Ok(t)
  {
    DaysInMonthAtMost31(t.year, t.month);
  }

  lemma {:induction false} DaysInMonthAtMost31(y: nat, m: nat)
    requires 1 <= m <= 12
    ensures DaysInMonth(y, m) <= 31
  {
  }

  lemma {:induction false} FieldsOfFormat(t: DateTime)
    requires Valid(t)
    ensures Fields(Format(t)) == Some(t)
  {
    FieldsOfYearDigits(Pad4(t.year), t);
  }

  /** Any four digits of year followed by the padded fields of `t` read back as `t`. */
  lemma {:induction false} FieldsOfYearDigits(y: string, t: DateTime)
    requires |y| == 4 && AllDigits(y) && DigitsValue(y) == t.year
    requires t.month <= 99 && t.day <= 99 && t.hour <= 99 && t.minute <= 99 && t.second <= 99
    ensures Fields(y + AfterYear(t)) == Some(t)
  {
    var clock := Pad2(t.hour) + ":" + Pad2(t.minute) + ":" + Pad2(t.second);
    var rest := " " + clock;
    assert AfterYear(t) == "-" + Pad2(t.month) + "-" + Pad2(t.day) + rest;
    DateOfDigits(y, t.month, t.day, rest);
    ClockOfPads(t.hour, t.minute, t.second);
    assert clock[0] == Pad2(t.hour)[0];
    FieldsOfParts(y + AfterYear(t), clock, t);
  }

  /** A date part followed by one space and a clock part. */
  lemma {:induction false} FieldsOfParts(s: string, clock: string, t: DateTime)
    requires DatePart(s) == Some((t.year, t.month, t.day, " " + clock))
    requires Clock(clock) == Some((t.hour, t.minute, t.second))
    requires clock != [] && IsDigit(clock[0])
    ensures Fields(s) == Some(t)
  {
    AfterOneSpace(t.year, t.month, t.day, clock, t.hour, t.minute, t.second);
  }

  lemma {:induction false} AfterOneSpace(y: nat, mo: nat, d: nat, clock: string, h: nat, mi: nat, se: nat)
    requires Clock(clock) == Some((h, mi, se))
    requires clock != [] && IsDigit(clock[0])
    ensures AfterDate(Some((y, mo, d, " " + clock))) == Some(DateTime(y, mo, d, h, mi, se))
  {
    var rest := " " + clock;
    OneLeadingSpace(clock);
    assert rest[LeadingSpaces(rest)..] == clock;
  }

  lemma {:induction false} OneLeadingSpace(s: string)
    requires s != [] && IsDigit(s[0])
    ensures LeadingSpaces(" " + s) == 1
  {
    assert (" " + s)[1..] == s;
    assert !IsSpace(s[0]);
  }
}
