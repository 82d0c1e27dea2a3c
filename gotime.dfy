/** Models of the parts of Go's `time` package the modelled code uses.
    A time.Duration, and an instant, is a count of nanoseconds. */
module GoTime {
  import opened Wrappers
  import opened GoStrings

  const Nanosecond: int := 1
  const Microsecond: int := 1000 * Nanosecond
  const Millisecond: int := 1000 * Microsecond
  const Second: int := 1000 * Millisecond
  const Minute: int := 60 * Second
  const Hour: int := 60 * Minute

  const TwoTo63: int := 0x8000_0000_0000_0000
  const TwoTo64: int := 0x1_0000_0000_0000_0000

  /** Go's integer division on int64, which truncates toward zero. */
  function TruncDiv(a: int, b: int): (q: int)
    requires b > 0
    ensures a >= 0 ==> q >= 0 && q * b <= a < q * b + b
    ensures a < 0 ==> q <= 0 && a <= q * b < a + b
  {
    if a >= 0 then
      DivBounds(a, b);
      a / b
    else
      var p := (-a) / b;
      DivBounds(-a, b);
      NegMul(p, b);
      -p
  }

  lemma DivBounds(a: nat, b: int)
    requires b > 0
    ensures a / b >= 0 && (a / b) * b <= a < (a / b) * b + b
  {
  }

  lemma NegMul(p: int, b: int)
    ensures (-p) * b == -(p * b)
  {
  }

  /** Seconds since the Unix epoch of an instant, as time.Time.Unix reports them
      (rounded down). */
  function UnixSeconds(t: int): (s: int)
    ensures s * Second <= t < (s + 1) * Second
    ensures t >= 0 ==> 0 <= s <= t
  {
    t / Second
  }

  datatype DurationError = InvalidDuration | MissingUnit | UnknownUnit | FractionNotModelled

  /** The units time.ParseDuration knows, in nanoseconds. */
  function Units(): map<string, int>
  {
    map[
      "ns" := Nanosecond,
      "us" := Microsecond,
      [0xB5 as char, 's'] := Microsecond,
      [0x3BC as char, 's'] := Microsecond,
      "ms" := Millisecond,
      "s" := Second,
      "m" := Minute,
      "h" := Hour
    ]
  }

  function UnitValue(u: string): (r: Option<int>)
    ensures r.Some? ==> r.value >= 1
  {
    if u in Units() then Some(Units()[u]) else None
  }

  /** Length of the unit that starts `s`: the run before the next digit or '.'. */
  function UnitLength(s: string): (k: nat)
    ensures k <= |s|
    ensures forall i :: 0 <= i < k ==> !IsDigit(s[i]) && s[i] != '.'
    ensures k < |s| ==> IsDigit(s[k]) || s[k] == '.'
  {
    if |s| > 0 && !IsDigit(s[0]) && s[0] != '.' then 1 + UnitLength(s[1..]) else 0
  }

  /** One "<digits><unit>" component at the start of `s`: its value in
      nanoseconds and what follows it. */
  function ParseComponent(s: string): (r: Result<(nat, string), DurationError>)
    requires |s| > 0
    ensures r.Success? ==> r.value.0 <= TwoTo63 && |r.value.1| < |s|
  {
    if !(s[0] == '.' || IsDigit(s[0])) then Failure(InvalidDuration)
    else
      var k := DigitPrefix(s);
      var v := DigitsValue(s[..k]);
      if v > TwoTo63 then Failure(InvalidDuration)
      else if k < |s| && s[k] == '.' then Failure(FractionNotModelled)
      else ParseUnit(v, s[k..])
  }

  /** The unit after `v` digits' worth of count, and what follows it. */
  function ParseUnit(v: nat, rest: string): (r: Result<(nat, string), DurationError>)
    ensures r.Success? ==> r.value.0 <= TwoTo63 && |r.value.1| < |rest|
  {
    var u := UnitLength(rest);
    if u == 0 then Failure(MissingUnit)
    else match UnitValue(rest[..u])
      case None => Failure(UnknownUnit)
      case Some(unit) =>
        if Scale(v, unit) > TwoTo63 then Failure(InvalidDuration)
        else Success((Scale(v, unit), rest[u..]))
  }

  /** The components of a duration, added to `acc` in uint64 arithmetic.
      Each count and each product is at most 2^63 (ParseComponent), and the
      running total may not pass 2^63 after an addition. The addition itself
      wraps modulo 2^64, so two components of exactly 2^63 sum to 0. */
  function ParseComponents(s: string, acc: nat): (r: Result<nat, DurationError>)
    requires acc <= TwoTo63
    ensures r.Success? ==> r.value <= TwoTo63
    decreases |s|
  {
    if |s| == 0 then Success(acc)
    else match ParseComponent(s)
      case Failure(e) => Failure(e)
      case Success((v, rest)) =>
        // both operands are at most 2^63, so the uint64 sum wraps at most once
        var sum := if acc + v >= TwoTo64 then acc + v - TwoTo64 else acc + v;
        if sum > TwoTo63 then Failure(InvalidDuration)
        else ParseComponents(rest, sum)
  }

  /** `count` units of `unit` nanoseconds. */
  function Scale(count: nat, unit: nat): nat
  {
    count * unit
  }

  /** time.ParseDuration for durations written with whole-number components:
      an optional sign, then "0" or a sequence such as "1h30m" or "10s". */
  function ParseDuration(s: string): (r: Result<int, DurationError>)
    ensures r.Success? ==> MinInt64 <= r.value <= MaxInt64
    ensures s == "" ==> r.Failure?
  {
    var body := Unsigned(s);
    if body == "0" then Success(0)
    else if body == "" then Failure(InvalidDuration)
    else match ParseComponents(body, 0)
      case Failure(e) => Failure(e)
      case Success(d) =>
        if Negative(s) then Success(-(d as int))
        else if d > MaxInt64 then Failure(InvalidDuration)
        else Success(d)
  }

  /** One "<digits><unit>" component is consumed and its value returned. */
  lemma ParseComponentOf(digits: string, unit: string, rest: string)
    requires |digits| > 0 && AllDigits(digits)
    requires |unit| > 0 && forall i :: 0 <= i < |unit| ==> !IsDigit(unit[i]) && unit[i] != '.'
    requires UnitValue(unit).Some?
    requires |rest| > 0 ==> IsDigit(rest[0]) || rest[0] == '.'
    requires Scale(DigitsValue(digits), UnitValue(unit).value) <= TwoTo63
    ensures ParseComponent(digits + unit + rest) == Success((Scale(DigitsValue(digits), UnitValue(unit).value), rest))
  {
    var tail := unit + rest;
    assert digits + unit + rest == digits + tail;
    assert tail[0] == unit[0];
    MulAtLeast(DigitsValue(digits), UnitValue(unit).value);
    DigitsStage(digits, tail);
    ParseUnitOf(DigitsValue(digits), unit, rest);
  }

  /** After the digits, parsing goes on with the unit. */
  lemma DigitsStage(digits: string, tail: string)
    requires |digits| > 0 && AllDigits(digits)
    requires |tail| > 0 && !IsDigit(tail[0]) && tail[0] != '.'
    requires DigitsValue(digits) <= TwoTo63
    ensures ParseComponent(digits + tail) == ParseUnit(DigitsValue(digits), tail)
  {
    var s := digits + tail;
    DigitPrefixOf(digits, tail);
    assert s[..|digits|] == digits && s[|digits|..] == tail;
  }

  /** A known unit multiplies the count, when the product stays within 2^63. */
  lemma ParseUnitOf(v: nat, unit: string, rest: string)
    requires |unit| > 0 && forall i :: 0 <= i < |unit| ==> !IsDigit(unit[i]) && unit[i] != '.'
    requires UnitValue(unit).Some?
    requires |rest| > 0 ==> IsDigit(rest[0]) || rest[0] == '.'
    requires Scale(v, UnitValue(unit).value) <= TwoTo63
    ensures ParseUnit(v, unit + rest) == Success((Scale(v, UnitValue(unit).value), rest))
  {
    var tail := unit + rest;
    UnitLengthOf(unit, rest);
    assert tail[..|unit|] == unit && tail[|unit|..] == rest;
  }

  /** The unit before a digit or '.' is read whole. */
  lemma {:induction false} UnitLengthOf(unit: string, rest: string)
    requires forall i :: 0 <= i < |unit| ==> !IsDigit(unit[i]) && unit[i] != '.'
    requires |rest| > 0 ==> IsDigit(rest[0]) || rest[0] == '.'
    ensures UnitLength(unit + rest) == |unit|
  {
    if |unit| > 0 {
      assert (unit + rest)[1..] == unit[1..] + rest;
      UnitLengthOf(unit[1..], rest);
    } else {
      assert unit + rest == rest;
    }
  }

  lemma MulAtLeast(v: nat, u: nat)
    requires u >= 1
    ensures v <= Scale(v, u)
  {
  }

  lemma ParseDurationSeconds(s: string)
    requires s == "10s"
    ensures ParseDuration(s) == Success(10 * Second)
  {
    assert s == "10" + "s" + "";
    assert DigitsValue("10") == 10;
    ParseComponentOf("10", "s", "");
    assert ParseComponents(s, 0) == ParseComponents("", 10 * Second);
    assert Unsigned(s) == s;
  }

  lemma ParseDurationCompound(s: string)
    requires s == "1h30m"
    ensures ParseDuration(s) == Success(90 * Minute)
  {
    var rest := "30m";
    assert s == "1" + "h" + rest;
    assert DigitsValue("1") == 1;
    assert UnitValue("h") == Some(Hour);
    assert Scale(1, Hour) == Hour;
    ParseComponentOf("1", "h", rest);
    ThirtyMinutes(rest);
    assert ParseComponents(s, 0) == ParseComponents(rest, Hour);
    assert Unsigned(s) == s;
  }

  lemma ThirtyMinutes(s: string)
    requires s == "30m"
    ensures ParseComponents(s, Hour) == Success(90 * Minute)
  {
    assert s == "30" + "m" + "";
    assert DigitsValue("30") == 30;
    assert UnitValue("m") == Some(Minute);
    assert Scale(30, Minute) == 30 * Minute;
    ParseComponentOf("30", "m", "");
    assert ParseComponents(s, Hour) == ParseComponents("", 90 * Minute);
  }

  lemma ParseDurationRejects()
    ensures ParseDuration("10").Failure?
    ensures ParseDuration("5d").Failure?
  {
  }

  /** Two components of 2^63 nanoseconds each, such as
      "9223372036854775808ns9223372036854775808ns": the uint64 total wraps
      to 0, which passes the overflow test, so the duration is 0. The digits
      may be any spelling of 2^63, NatToString(TwoTo63) among them
      (NatToStringValue). */
  lemma ParseDurationWraps(digits: string, s: string)
    requires |digits| > 0 && AllDigits(digits) && DigitsValue(digits) == TwoTo63
    requires s == digits + "ns" + digits + "ns"
    ensures ParseDuration(s) == Success(0)
  {
    WrapComponents(digits, s);
    assert s[0] == digits[0];
    assert Unsigned(s) == s;
  }

  /** The first component brings the total to 2^63, the second round to 0. */
  lemma WrapComponents(digits: string, s: string)
    requires |digits| > 0 && AllDigits(digits) && DigitsValue(digits) == TwoTo63
    requires s == digits + "ns" + digits + "ns"
    ensures ParseComponents(s, 0) == Success(0)
  {
    var rest := digits + "ns";
    assert s == digits + "ns" + rest;
    assert rest[0] == digits[0];
    NanosecondComponent(digits, rest);
    LastWrapComponent(digits, rest);
  }

  lemma LastWrapComponent(digits: string, rest: string)
    requires |digits| > 0 && AllDigits(digits) && DigitsValue(digits) == TwoTo63
    requires rest == digits + "ns"
    ensures ParseComponents(rest, TwoTo63) == Success(0)
  {
    assert rest == digits + "ns" + "";
    NanosecondComponent(digits, "");
  }

  lemma NanosecondComponent(digits: string, rest: string)
    requires |digits| > 0 && AllDigits(digits) && DigitsValue(digits) == TwoTo63
    requires |rest| > 0 ==> IsDigit(rest[0]) || rest[0] == '.'
    ensures ParseComponent(digits + "ns" + rest) == Success((TwoTo63, rest))
  {
    assert UnitValue("ns") == Some(Nanosecond);
    assert Scale(TwoTo63, Nanosecond) == TwoTo63;
    ParseComponentOf(digits, "ns", rest);
  }
}
