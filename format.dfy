/** The two humanisers of go-fetch.go: `formatUptime` and `formatBytes`. */
module Format {
  import opened Results
  import opened Arith
  import opened Decimal

  // ---------------------------------------------------------------------------
  // formatUptime
  // ---------------------------------------------------------------------------

  /** Go's `time.Second`, `time.Minute` and `time.Hour`, in nanoseconds. */
  const Second: nat := 1_000_000_000
  const Minute: nat := 60 * Second
  const Hour: nat := 60 * Minute

  /** The largest value of a Go `int64` (`time.Duration`). */
  const MaxInt64: nat := 0x7FFF_FFFF_FFFF_FFFF

  /** The largest uptime whose conversion to a `time.Duration` does not overflow. */
  const MaxUptime: nat := 9_223_372_036

  /** An uptime broken into whole days, hours and minutes. */
  datatype Uptime = Uptime(days: nat, hours: nat, minutes: nat)

  /** The number of seconds the three fields stand for. */
  function Seconds(f: Uptime): nat {
    f.days * 86400 + f.hours * 3600 + f.minutes * 60
  }

  /** `time.Duration(uptime) * time.Second` stays within `int64` exactly up to `MaxUptime`. */
  lemma NoOverflowUpToMaxUptime(uptime: nat)
    ensures uptime * Second <= MaxInt64 <==> uptime <= MaxUptime
  {
  }

  /**
   * The fields `formatUptime` prints. The source computes them from the
   * duration in nanoseconds through the float quotients `Hours()` and
   * `Minutes()`; below `MaxUptime` those are an integer plus a fraction of at
   * most 3599/3600, so `int(...)` truncates them to the integer quotients used
   * here. Leftover seconds are dropped.
   */
  function UptimeFields(uptime: nat): Uptime
    requires uptime <= MaxUptime
  {
    var d := uptime * Second;
    Uptime(d / Hour / 24, d / Hour % 24, d / Minute % 60)
  }

  /** Hours and minutes stay below 24 and 60; the fields cover the uptime to the minute. */
  lemma UptimeFieldsBounds(uptime: nat)
    requires uptime <= MaxUptime
    ensures var f := UptimeFields(uptime);
      f.hours < 24 && f.minutes < 60 && Seconds(f) <= uptime < Seconds(f) + 60
  {
    var d := uptime * Second;
    DivCancel(uptime, 3600, Second);
    DivCancel(uptime, 60, Second);
    assert d / Hour == uptime / 3600 && d / Minute == uptime / 60;
    // uptime = 60q + r, q = 60H + m, H = 24D + h
    var q := uptime / 60;
    DivMod(uptime, 60, q, uptime % 60);
    var hrs := q / 60;
    DivMod(q, 60, hrs, q % 60);
    DivDiv(uptime, 60, 60);
    assert hrs == uptime / 3600;
    DivMod(hrs, 24, hrs / 24, hrs % 24);
  }

  /** The fields are the only ones meeting the bounds of `UptimeFields`. */
  lemma UptimeFieldsUnique(uptime: nat, f: Uptime)
    requires uptime <= MaxUptime
    requires f.hours < 24 && f.minutes < 60
    requires Seconds(f) <= uptime < Seconds(f) + 60
    ensures f == UptimeFields(uptime)
  {
    var g := UptimeFields(uptime);
    UptimeFieldsBounds(uptime);
    var m, n := f.days * 1440 + f.hours * 60 + f.minutes, g.days * 1440 + g.hours * 60 + g.minutes;
    assert m == uptime / 60 && n == uptime / 60;
    assert f.days * 24 + f.hours == m / 60 && f.minutes == m % 60;
    assert g.days * 24 + g.hours == n / 60 && g.minutes == n % 60;
    assert f.days * 24 + f.hours == g.days * 24 + g.hours;
  }

  /** `formatUptime`: the fields rendered as `"{d}d {h}h {m}m"`. */
  function FormatUptime(uptime: nat): string
    requires uptime <= MaxUptime
  {
    var f := UptimeFields(uptime);
    NatToString(f.days) + "d " + NatToString(f.hours) + "h " + NatToString(f.minutes) + "m"
  }

  /** The length of the run of decimal digits at the start of `s`. */
  function DigitRun(s: string): (n: nat)
    ensures n <= |s|
    ensures forall i :: 0 <= i < n ==> IsDigit(s[i])
    ensures n < |s| ==> !IsDigit(s[n])
  {
    if s != [] && IsDigit(s[0]) then 1 + DigitRun(s[1..]) else 0
  }

  lemma {:induction false} DigitRunOf(a: string, b: string)
    requires forall i :: 0 <= i < |a| ==> IsDigit(a[i])
    requires b != [] && !IsDigit(b[0])
    ensures DigitRun(a + b) == |a|
  {
    if a != [] {
      assert (a + b)[1..] == a[1..] + b;
      DigitRunOf(a[1..], b);
    }
  }

  /** Reads a non-empty digit run followed by `unit` off the front of `s`. */
  function ReadField(s: string, unit: string): (r: Option<(nat, string)>)
  {
    var n := DigitRun(s);
    if 0 < n && s[n..] != [] && |s[n..]| >= |unit| && s[n..n + |unit|] == unit
    then Some((Value(s[..n]), s[n + |unit|..]))
    else None
  }

  /** Reads an uptime back from its `"{d}d {h}h {m}m"` rendering. */
  function ParseUptime(s: string): (r: Option<Uptime>)
  {
    match ReadField(s, "d ")
    case None => None
    case Some((d, s1)) =>
      match ReadField(s1, "h ")
      case None => None
      case Some((h, s2)) =>
        match ReadField(s2, "m")
        case None => None
        case Some((m, s3)) => if s3 == [] then Some(Uptime(d, h, m)) else None
  }

  lemma ReadFieldOf(n: nat, unit: string, rest: string)
    requires unit != [] && !IsDigit(unit[0])
    ensures ReadField(NatToString(n) + unit + rest, unit) == Some((n, rest))
  {
    var a := NatToString(n);
    var s := a + unit + rest;
    assert s == a + (unit + rest);
    DigitRunOf(a, unit + rest);
    assert s[..|a|] == a;
    assert s[|a|..] == unit + rest;
    assert s[|a|..|a| + |unit|] == unit;
    assert s[|a| + |unit|..] == rest;
    ValueOfNatToString(n);
  }

  /** Reading the rendering back gives the days, hours and minutes it was made from. */
  lemma ParseFormatUptime(uptime: nat)
    requires uptime <= MaxUptime
    ensures ParseUptime(FormatUptime(uptime)) == Some(UptimeFields(uptime))
  {
    var f := UptimeFields(uptime);
    var s1 := NatToString(f.hours) + "h " + NatToString(f.minutes) + "m";
    var s2 := NatToString(f.minutes) + "m";
    assert FormatUptime(uptime) == NatToString(f.days) + "d " + s1;
    ReadFieldOf(f.days, "d ", s1);
    assert s1 == NatToString(f.hours) + "h " + s2;
    ReadFieldOf(f.hours, "h ", s2);
    assert s2 == NatToString(f.minutes) + "m" + "";
    ReadFieldOf(f.minutes, "m", "");
  }

  /** The fields stand for the uptime rounded down to the whole minute. */
  lemma SecondsOfUptimeFields(uptime: nat)
    requires uptime <= MaxUptime
    ensures Seconds(UptimeFields(uptime)) == 60 * (uptime / 60)
  {
    var f := UptimeFields(uptime);
    UptimeFieldsBounds(uptime);
    var k := f.days * 1440 + f.hours * 60 + f.minutes;
    assert Seconds(f) == 60 * k;
    DivUnique(uptime, 60, k, uptime - 60 * k);
  }

  /** Two uptimes render alike exactly when they agree on the whole minute. */
  lemma FormatUptimeSameMinute(u: nat, v: nat)
    requires u <= MaxUptime && v <= MaxUptime
    ensures FormatUptime(u) == FormatUptime(v) <==> u / 60 == v / 60
  {
    SecondsOfUptimeFields(u);
    SecondsOfUptimeFields(v);
    if FormatUptime(u) == FormatUptime(v) {
      ParseFormatUptime(u);
      ParseFormatUptime(v);
      assert UptimeFields(u) == UptimeFields(v);
    }
    if u / 60 == v / 60 {
      UptimeFieldsBounds(u);
      UptimeFieldsUnique(v, UptimeFields(u));
    }
  }

  lemma FormatUptimeExamples()
    ensures FormatUptime(0) == "0d 0h 0m"
    ensures FormatUptime(90061) == "1d 1h 1m"
    ensures FormatUptime(3661) == "0d 1h 1m"
  {
    FormatUptimeZero();
    FormatUptimeDayHourMinute();
    FormatUptimeHourMinute();
  }

  lemma FormatUptimeZero()
    ensures FormatUptime(0) == "0d 0h 0m"
  {
    assert UptimeFields(0) == Uptime(0, 0, 0);
    assert NatToString(0) == "0";
  }

  lemma FormatUptimeDayHourMinute()
    ensures FormatUptime(90061) == "1d 1h 1m"
  {
    assert UptimeFields(90061) == Uptime(1, 1, 1);
    assert NatToString(1) == "1";
  }

  lemma FormatUptimeHourMinute()
    ensures FormatUptime(3661) == "0d 1h 1m"
  {
    assert UptimeFields(3661) == Uptime(0, 1, 1);
    assert NatToString(0) == "0" && NatToString(1) == "1";
  }

  // ---------------------------------------------------------------------------
  // formatBytes
  // ---------------------------------------------------------------------------

  const Unit: nat := 1024

  /** The unit letters, indexed by the number of extra divisions by 1024. */
  const UnitLetters: string := "KMGTPE"

  /** 2^53: every integer below it is exactly a Go `float64`. */
  const TwoTo53: nat := 0x20_0000_0000_0000

  /** The number of extra divisions by 1024 past the first: the binary prefix of `b`. */
  function UnitExp(b: nat): (e: nat)
    requires b >= Unit
    ensures Pow(Unit, e + 1) <= b < Pow(Unit, e + 2)
    decreases b
  {
    if b / Unit < Unit then 0 else 1 + UnitExp(b / Unit)
  }

  /** Only one exponent places `b` in its range. */
  lemma UnitExpUnique(b: nat, e: nat)
    requires b >= Unit
    requires Pow(Unit, e + 1) <= b < Pow(Unit, e + 2)
    ensures e == UnitExp(b)
  {
    var e' := UnitExp(b);
    if e < e' {
      PowMono(Unit, e + 2, e' + 1);
    } else if e' < e {
      PowMono(Unit, e' + 2, e + 1);
    }
  }

  lemma Pow1024Seven()
    ensures Pow(Unit, 7) == 0x40_0000_0000_0000_0000
  {
    assert Pow(Unit, 2) == 0x10_0000;
    assert Pow(Unit, 4) == 0x100_0000_0000 by {
      assert Pow(Unit, 4) == Pow(Unit, 2) * Unit * Unit;
    }
    assert Pow(Unit, 6) == 0x1000_0000_0000_0000 by {
      assert Pow(Unit, 6) == Pow(Unit, 4) * Unit * Unit;
    }
  }

  /** Every uint64 is below 1024^7, so the prefix index is at most 5 ("E"). */
  lemma UnitExpAtMostFive(b: uint64)
    requires b >= Unit
    ensures UnitExp(b) <= 5
  {
    var e := UnitExp(b);
    Pow1024Seven();
    if e >= 6 {
      PowMono(Unit, 7, e + 1);
    }
  }

  /**
   * The source's unit-selection loop: `div` ends as the largest power of 1024
   * not above `bytes`, and `exp` as the count of multiplications after the
   * first. The running quotient `n` is `bytes / div` throughout.
   */
  method SelectUnit(bytes: uint64) returns (div: nat, exp: nat)
    requires bytes >= Unit
    ensures div == Pow(Unit, exp + 1)
    ensures div <= bytes < Unit * div
    ensures exp <= 5 && exp == UnitExp(bytes)
  {
    div, exp := Unit, 0;
    var n := bytes / Unit;
    while n >= Unit
      invariant div == Pow(Unit, exp + 1)
      invariant div <= bytes
      invariant n == bytes / div
      decreases n
    {
      DivAtLeast(bytes, div, Unit);
      DivDiv(bytes, div, Unit);
      div := div * Unit;
      exp := exp + 1;
      n := n / Unit;
    }
    DivAtLeast(bytes, div, Unit);
    UnitExpUnique(bytes, exp);
    UnitExpAtMostFive(bytes);
  }

  /** `num / den` rounded to the nearest integer, ties to the even one. */
  function RoundHalfEven(num: nat, den: nat): (q: nat)
    requires den > 0
    ensures 2 * (den * q) <= 2 * num + den && 2 * num <= 2 * (den * q) + den
    ensures 2 * num == 2 * (den * q) + den || 2 * (den * q) == 2 * num + den ==> q % 2 == 0
  {
    var q, r := num / den, num % den;
    DivMod(num, den, q, r);
    if 2 * r > den || (2 * r == den && q % 2 == 1) then
      MulSucc(den, q);
      q + 1
    else
      q
  }

  /** The number of low bits a uint64 loses on conversion to `float64`. */
  function LostBits(b: nat): (k: nat)
    ensures b < TwoTo53 * Pow(2, k)
    ensures k > 0 ==> TwoTo53 * Pow(2, k - 1) <= b
    decreases b
  {
    if b < TwoTo53 then 0 else 1 + LostBits(b / 2)
  }

  /**
   * `float64(b)`: `b` rounded to the nearest multiple of `2^k` with `k` the
   * bits beyond the 53-bit significand, ties to an even significand.
   */
  function Float64(b: nat): (f: nat)
  {
    var u := Pow(2, LostBits(b));
    RoundHalfEven(b, u) * u
  }

  lemma Float64Exact(b: nat)
    requires b < TwoTo53
    ensures Float64(b) == b
  {
  }

  /** `%.1f` of `float64(b) / float64(div)`, as a count of tenths. */
  function Tenths(b: nat, div: nat): nat
    requires div > 0
  {
    RoundHalfEven(10 * Float64(b), div)
  }

  /** A count of tenths written with exactly one decimal digit. */
  function Fixed1(t: nat): string {
    NatToString(t / 10) + "." + [DigitChar(t % 10)]
  }

  /** `formatBytes` (go-fetch.go): the specification the method below meets. */
  function BytesText(b: uint64): string {
    if b < Unit then NatToString(b) + " B"
    else
      var e := UnitExp(b);
      UnitExpAtMostFive(b);
      Fixed1(Tenths(b, Pow(Unit, e + 1))) + " " + [UnitLetters[e]] + "iB"
  }

  /** `formatBytes`, with the source's loop choosing the unit. */
  method FormatBytes(bytes: uint64) returns (s: string)
    ensures s == BytesText(bytes)
  {
    if bytes < Unit {
      return NatToString(bytes) + " B";
    }
    var div, exp := SelectUnit(bytes);
    s := Fixed1(RoundHalfEven(10 * Float64(bytes), div)) + " " + [UnitLetters[exp]] + "iB";
  }

  /** Below 1024 the count is printed whole, with no fractional part. */
  lemma BytesTextWhole(b: uint64)
    requires b < Unit
    ensures BytesText(b) == NatToString(b) + " B"
    ensures '.' !in BytesText(b)
  {
    var s := BytesText(b);
    assert forall i :: 0 <= i < |NatToString(b)| ==> s[i] == NatToString(b)[i];
  }

  /** From 1024 on, the text ends in the binary prefix letter of `b`'s range and "iB". */
  lemma BytesTextPrefix(b: uint64)
    requires b >= Unit
    ensures exists e :: (0 <= e <= 5 && Pow(Unit, e + 1) <= b < Pow(Unit, e + 2)
      && BytesText(b)[|BytesText(b)| - 3..] == [UnitLetters[e], 'i', 'B'])
  {
    var e := UnitExp(b);
    UnitExpAtMostFive(b);
    var s := BytesText(b);
    assert s[|s| - 3..] == [UnitLetters[e], 'i', 'B'];
  }

  /** Below 2^53 the shown number is within half a tenth of `b / div`. */
  lemma TenthsNearest(b: uint64, div: nat)
    requires b < TwoTo53 && div > 0
    ensures 2 * (div * Tenths(b, div)) <= 20 * b + div
    ensures 20 * b <= 2 * (div * Tenths(b, div)) + div
  {
    Float64Exact(b);
  }

  lemma BytesTextExamples()
    ensures BytesText(0) == "0 B"
    ensures BytesText(1023) == "1023 B"
    ensures BytesText(1024) == "1.0 KiB"
    ensures BytesText(1536) == "1.5 KiB"
    ensures BytesText(1280) == "1.2 KiB"
    ensures BytesText(1048575) == "1024.0 KiB"
    ensures BytesText(1048576) == "1.0 MiB"
    ensures BytesText(1073741824) == "1.0 GiB"
    ensures BytesText(2147483648) == "2.0 GiB"
  {
    BytesTextWholeExamples();
    BytesTextKibExamples();
    BytesTextLargerExamples();
  }

  lemma BytesTextWholeExamples()
    ensures BytesText(0) == "0 B"
    ensures BytesText(1023) == "1023 B"
  {
    assert NatToString(0) == "0";
    assert NatToString(1023) == "1023" by {
      assert NatToString(102) == "102" by { assert NatToString(10) == "10"; }
    }
  }

  lemma BytesTextKib(b: uint64, t: nat)
    requires Unit <= b < Pow(Unit, 2) && Tenths(b, Unit) == t
    ensures BytesText(b) == Fixed1(t) + " KiB"
  {
    UnitExpUnique(b, 0);
  }

  lemma BytesTextKibExamples()
    ensures BytesText(1024) == "1.0 KiB"
    ensures BytesText(1536) == "1.5 KiB"
    ensures BytesText(1280) == "1.2 KiB"
    ensures BytesText(1048575) == "1024.0 KiB"
  {
    assert Pow(Unit, 2) == 1048576;
    BytesTextKibOne(1024, 10, '0');
    BytesTextKibOne(1536, 15, '5');
    BytesTextKibOne(1280, 12, '2');
    BytesTextAlmostMib();
  }

  lemma BytesTextKibOne(b: uint64, t: nat, d: char)
    requires Unit <= b < 2 * Unit && 10 <= t < 20 && d == DigitChar(t - 10)
    requires Tenths(b, Unit) == t
    ensures BytesText(b) == ['1', '.', d, ' ', 'K', 'i', 'B']
  {
    assert Pow(Unit, 2) == 1048576;
    BytesTextKib(b, t);
    assert NatToString(t / 10) == "1";
  }

  /** Just under 1 MiB rounds up to "1024.0 KiB" rather than moving to MiB. */
  lemma BytesTextAlmostMib()
    ensures BytesText(1048575) == "1024.0 KiB"
  {
    assert Pow(Unit, 2) == 1048576;
    Float64Exact(1048575);
    assert Tenths(1048575, Unit) == 10240;
    BytesTextKib(1048575, 10240);
    assert NatToString(1024) == "1024" by {
      assert NatToString(102) == "102" by { assert NatToString(10) == "10"; }
    }
  }

  lemma BytesTextLargerExamples()
    ensures BytesText(1048576) == "1.0 MiB"
    ensures BytesText(1073741824) == "1.0 GiB"
    ensures BytesText(2147483648) == "2.0 GiB"
  {
    BytesTextMib();
    BytesTextGib();
    BytesTextTwoGib();
  }

  lemma BytesTextMib()
    ensures BytesText(1048576) == "1.0 MiB"
  {
    assert Pow(Unit, 2) == 1048576 && Pow(Unit, 3) == 1073741824;
    assert NatToString(1) == "1";
    UnitExpUnique(1048576, 1);
    assert Tenths(1048576, 1048576) == 10;
  }

  lemma BytesTextGib()
    ensures BytesText(1073741824) == "1.0 GiB"
  {
    assert Pow(Unit, 3) == 1073741824 && Pow(Unit, 4) == 1099511627776;
    assert NatToString(1) == "1";
    UnitExpUnique(1073741824, 2);
    assert Tenths(1073741824, 1073741824) == 10;
  }

  lemma BytesTextTwoGib()
    ensures BytesText(2147483648) == "2.0 GiB"
  {
    assert Pow(Unit, 3) == 1073741824 && Pow(Unit, 4) == 1099511627776;
    assert NatToString(2) == "2";
    UnitExpUnique(2147483648, 2);
    assert Tenths(2147483648, 1073741824) == 20;
  }
}
