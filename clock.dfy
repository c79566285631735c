/** `format_seconds`, the clock format of the fuzzers' status line (defined
    alike in simple_fuzzer/fuzzer/GreyBoxFuzzer.py and
    PathGreyBoxFuzzer.py): a number of seconds, as a
    float, shown as hours, minutes and seconds, each zero-padded to two
    digits. */
module Clock {

  /** Python's `int(x)` on a float: truncation toward zero. */
  function Trunc(x: real): (n: int)
    ensures x >= 0.0 ==> n >= 0 && n as real <= x < n as real + 1.0
    ensures x < 0.0 ==> n <= 0 && n as real - 1.0 < x <= n as real
  {
    if x >= 0.0 then x.Floor else -((-x).Floor)
  }

  /** Python's `x % 3600` on a float: the remainder of floor division, in [0, 3600). */
  function ModHour(x: real): (r: real)
    ensures 0.0 <= r < 3600.0
  {
    x - 3600.0 * (x / 3600.0).Floor as real
  }

  /** The three fields of `format_seconds`; Python's `//` and `%` by a
      positive divisor agree with Dafny's. */
  function Hours(seconds: real): int {
    Trunc(seconds) / 3600
  }

  function Minutes(seconds: real): int {
    Trunc(ModHour(seconds)) / 60
  }

  function Seconds(seconds: real): int {
    Trunc(seconds) % 60
  }

  /** The decimal digits of `n`, most significant first, without leading zeros. */
  function Digits(n: nat): (r: string)
    ensures |r| >= 1
    ensures forall i :: 0 <= i < |r| ==> '0' <= r[i] <= '9'
  {
    if n < 10 then [Digit(n)] else Digits(n / 10) + [Digit(n % 10)]
  }

  function Digit(d: nat): (c: char)
    requires d < 10
    ensures '0' <= c <= '9'
  {
    ('0' as int + d) as char
  }

  /** `f"{n:02d}"`: at least two characters, zero-padded after the sign. */
  function Pad2(n: int): string {
    if n < 0 then "-" + Digits(-n)
    else if n < 10 then "0" + Digits(n)
    else Digits(n)
  }

  /** `format_seconds(seconds)`. */
  function FormatSeconds(seconds: real): string {
    Pad2(Hours(seconds)) + ":" + Pad2(Minutes(seconds)) + ":" + Pad2(Seconds(seconds))
  }

  // ---------------------------------------------------------------------------
  // Reading a clock back

  /** The value of a string of decimal digits. */
  function DigitsValue(t: string): nat
    requires forall i :: 0 <= i < |t| ==> '0' <= t[i] <= '9'
    decreases |t|
  {
    if t == [] then 0
    else DigitsValue(t[..|t| - 1]) * 10 + (t[|t| - 1] as int - '0' as int)
  }

  lemma {:induction false} DigitsRoundTrip(n: nat)
    ensures DigitsValue(Digits(n)) == n
    decreases n
  {
    if n >= 10 {
      var t := Digits(n / 10) + [Digit(n % 10)];
      assert t[..|t| - 1] == Digits(n / 10);
      DigitsRoundTrip(n / 10);
    }
  }

  /** A leading zero does not change the value. */
  lemma {:induction false} LeadingZero(t: string)
    requires forall i :: 0 <= i < |t| ==> '0' <= t[i] <= '9'
    ensures DigitsValue("0" + t) == DigitsValue(t)
    decreases |t|
  {
    if t != [] {
      var init := t[..|t| - 1];
      assert ("0" + t)[..|t|] == "0" + init;
      LeadingZero(init);
    }
  }

  /** A non-negative field reads back as itself; below 100 it takes exactly
      two characters. */
  lemma Pad2RoundTrip(n: nat)
    ensures forall i :: 0 <= i < |Pad2(n)| ==> '0' <= Pad2(n)[i] <= '9'
    ensures DigitsValue(Pad2(n)) == n
    ensures n < 100 ==> |Pad2(n)| == 2
  {
    DigitsRoundTrip(n);
    if n < 10 {
      LeadingZero(Digits(n));
    } else if n < 100 {
      assert Digits(n) == Digits(n / 10) + [Digit(n % 10)];
    }
  }

  /** `t` has the form `H…H:MM:SS`, with at least two hour digits. */
  predicate IsClock(t: string) {
    && |t| >= 8
    && (forall i :: 0 <= i < |t| && i != |t| - 6 && i != |t| - 3 ==> '0' <= t[i] <= '9')
    && t[|t| - 6] == ':' && t[|t| - 3] == ':'
  }

  /** The seconds a clock denotes. */
  function ParseClock(t: string): int
    requires IsClock(t)
  {
    DigitsValue(t[..|t| - 6]) * 3600 + DigitsValue(t[|t| - 5..|t| - 3]) * 60 + DigitsValue(t[|t| - 2..])
  }

  /** For a non-negative number of seconds the fields are the whole hours,
      the minutes left over and the seconds left over. */
  lemma ClockFields(seconds: real)
    requires seconds >= 0.0
    ensures Hours(seconds) >= 0 && 0 <= Minutes(seconds) < 60 && 0 <= Seconds(seconds) < 60
    ensures Hours(seconds) * 3600 + Minutes(seconds) * 60 + Seconds(seconds) == Trunc(seconds)
  {
    var t := Trunc(seconds);
    var q := (seconds / 3600.0).Floor;
    assert q as real <= seconds / 3600.0 < q as real + 1.0;
    assert 3600 * q <= t < 3600 * q + 3600;
    assert t / 3600 == q && t % 3600 == t - 3600 * q;
    assert ModHour(seconds) == seconds - (3600 * q) as real;
    assert Trunc(ModHour(seconds)) == t % 3600;
    var rem := t % 3600;
    assert t == 60 * (60 * q + rem / 60) + rem % 60;
    assert t % 60 == rem % 60;
  }

  /** `format_seconds` loses nothing but the fraction of a second: reading
      the clock back gives the whole seconds. */
  lemma FormatRoundTrip(seconds: real)
    requires seconds >= 0.0
    ensures IsClock(FormatSeconds(seconds))
    ensures ParseClock(FormatSeconds(seconds)) == Trunc(seconds)
  {
    ClockFields(seconds);
    var h, m, s := Hours(seconds), Minutes(seconds), Seconds(seconds);
    Pad2RoundTrip(h);
    Pad2RoundTrip(m);
    Pad2RoundTrip(s);
    var ph, pm, ps := Pad2(h), Pad2(m), Pad2(s);
    var t := ph + ":" + pm + ":" + ps;
    assert |ph| >= 2;
    assert t[..|t| - 6] == ph;
    assert t[|t| - 5..|t| - 3] == pm;
    assert t[|t| - 2..] == ps;
  }

  /** One hour, two minutes and five and a half seconds. */
  lemma FormatExample()
    ensures FormatSeconds(3725.5) == "01:02:05"
  {
    assert Trunc(3725.5) == 3725;
    assert (3725.5 / 3600.0).Floor == 1;
    assert ModHour(3725.5) == 125.5;
    assert Trunc(ModHour(3725.5)) == 125;
    assert Hours(3725.5) == 1 && Minutes(3725.5) == 2 && Seconds(3725.5) == 5;
    assert Pad2(1) == "01" && Pad2(2) == "02" && Pad2(5) == "05";
  }
}
