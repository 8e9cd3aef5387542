/** java.lang.Integer as the planner uses it: 32-bit range, `parseInt`,
    `toString` and `compare` (as a sign). Only ASCII digits are modelled. */
module JavaInteger {
  import opened Wrappers

  const MIN_VALUE: int := -0x8000_0000
  const MAX_VALUE: int := 0x7FFF_FFFF

  /** A Java `int`. */
  type Int32 = x: int | MIN_VALUE <= x <= MAX_VALUE

  /** The sign of x: the only part of a Java comparator result that callers read. */
  function Sign(x: int): (r: int)
    ensures -1 <= r <= 1
    ensures r < 0 <==> x < 0
    ensures r == 0 <==> x == 0
  {
    if x < 0 then -1 else if x == 0 then 0 else 1
  }

  /** Integer.compare, reduced to its sign. */
  function Compare(x: int, y: int): (r: int)
    ensures -1 <= r <= 1
    ensures r <= 0 <==> x <= y
    ensures r == 0 <==> x == y
  {
    Sign(x - y)
  }

  predicate IsDigit(c: char)
  {
    '0' <= c <= '9'
  }

  predicate AllDigits(s: string)
  {
    forall k :: 0 <= k < |s| ==> IsDigit(s[k])
  }

  function DigitValue(c: char): (d: nat)
    requires IsDigit(c)
    ensures d <= 9
  {
    c as int - '0' as int
  }

  function DigitChar(d: nat): (c: char)
    requires d <= 9
    ensures IsDigit(c) && DigitValue(c) == d
  {
    ('0' as int + d) as char
  }

  /** The value of a string of decimal digits, most significant first. */
  function DigitsValue(s: string): nat
    requires AllDigits(s)
    decreases |s|
  {
    if |s| == 0 then 0 else 10 * DigitsValue(s[..|s| - 1]) + DigitValue(s[|s| - 1])
  }

  /** Integer.parseInt(s): an optional sign followed by at least one digit,
      whose value fits in 32 bits. Anything else is a NumberFormatException,
      modelled as None. Leading or trailing whitespace is not accepted. */
  function ParseInt(s: string): (r: Option<Int32>)
    ensures |s| == 0 ==> r.None?
    ensures r.Some? ==> IsDigit(s[0]) || ((s[0] == '-' || s[0] == '+') && |s| >= 2)
    ensures r.Some? ==> forall k :: 0 < k < |s| ==> IsDigit(s[k])
    ensures r.Some? && s[0] == '-' ==> r.value <= 0
    ensures r.Some? && s[0] != '-' ==> r.value >= 0
  {
    if |s| == 0 then None
    else
      var digits := if s[0] == '-' || s[0] == '+' then s[1..] else s;
      if |digits| == 0 || !AllDigits(digits) then None
      else
        var magnitude: int := DigitsValue(digits);
        var v: int := if s[0] == '-' then -magnitude else magnitude;
        if MIN_VALUE <= v <= MAX_VALUE then Some(v) else None
  }

  /** The decimal digits of n, most significant first, without leading zeros. */
  function Digits(n: nat): (r: string)
    ensures |r| > 0 && AllDigits(r)
    decreases n
  {
    if n < 10 then [DigitChar(n)] else Digits(n / 10) + [DigitChar(n % 10)]
  }

  /** Integer.toString(n). */
  function ToDecimal(n: int): string
  {
    if n < 0 then "-" + Digits(-n) else Digits(n)
  }

  lemma {:induction false} DigitsRoundTrip(n: nat)
    ensures DigitsValue(Digits(n)) == n
    decreases n
  {
    if n >= 10 {
      var s := Digits(n);
      assert s[..|s| - 1] == Digits(n / 10);
      DigitsRoundTrip(n / 10);
    }
  }

  /** A leading zero does not change the value of a digit string. */
  lemma {:induction false} LeadingZero(d: string)
    requires AllDigits(d)
    ensures AllDigits("0" + d) && DigitsValue("0" + d) == DigitsValue(d)
    decreases |d|
  {
    var z := "0" + d;
    assert AllDigits(z) by {
      forall k | 0 <= k < |z| ensures IsDigit(z[k]) {
        if k > 0 { assert z[k] == d[k - 1]; }
      }
    }
    if |d| > 0 {
      var init := d[..|d| - 1];
      assert z[..|z| - 1] == "0" + init;
      assert z[|z| - 1] == d[|d| - 1];
      LeadingZero(init);
    }
  }

  /** What parseInt makes of a sign followed by a digit string. */
  lemma SignedDigits(s: string)
    requires |s| >= 2 && (s[0] == '+' || s[0] == '-') && AllDigits(s[1..])
    ensures var v: int := if s[0] == '-' then -(DigitsValue(s[1..]) as int) else DigitsValue(s[1..]);
      ParseInt(s) == if MIN_VALUE <= v <= MAX_VALUE then Some(v) else None
  {
  }

  /** What parseInt makes of a bare digit string. */
  lemma UnsignedDigits(s: string)
    requires |s| > 0 && AllDigits(s)
    ensures ParseInt(s) == if DigitsValue(s) <= MAX_VALUE then Some(DigitsValue(s) as Int32) else None
  {
    assert IsDigit(s[0]);
  }

  /** parseInt accepts every non-empty digit string, bare or behind a '+' or
      '-', exactly when the signed value fits in 32 bits, and yields that value. */
  lemma ParseIntDigits(d: string)
    requires |d| > 0 && AllDigits(d)
    ensures DigitsValue(d) <= MAX_VALUE ==> ParseInt(d) == Some(DigitsValue(d))
    ensures DigitsValue(d) > MAX_VALUE ==> ParseInt(d).None?
    ensures ParseInt("+" + d) == ParseInt(d)
    ensures DigitsValue(d) <= -MIN_VALUE ==> ParseInt("-" + d) == Some(-(DigitsValue(d) as int))
    ensures DigitsValue(d) > -MIN_VALUE ==> ParseInt("-" + d).None?
  {
    UnsignedDigits(d);
    var plus, minus := "+" + d, "-" + d;
    assert plus[0] == '+' && plus[1..] == d;
    assert minus[0] == '-' && minus[1..] == d;
    SignedDigits(plus);
    SignedDigits(minus);
  }

  /** "6", "+6" and "06" all parse to 6. */
  lemma SixSpellings()
    ensures ParseInt("6") == Some(6)
    ensures ParseInt("+6") == Some(6)
    ensures ParseInt("06") == Some(6)
  {
    assert AllDigits("6");
    assert DigitsValue("6") == 6;
    ParseIntDigits("6");
    LeadingZero("6");
    assert "0" + "6" == "06";
    assert "+" + "6" == "+6";
    ParseIntDigits("06");
  }

  /** parseInt inverts toString on every 32-bit value. */
  lemma ParseIntToDecimal(n: Int32)
    ensures ParseInt(ToDecimal(n)) == Some(n)
  {
    var s := ToDecimal(n);
    if n < 0 {
      var d := Digits(-(n as int));
      assert s == "-" + d;
      assert s[0] == '-' && s[1..] == d;
      DigitsRoundTrip(-(n as int));
      assert DigitsValue(s[1..]) == -(n as int);
    } else {
      var d := Digits(n);
      assert s == d;
      DigitsRoundTrip(n);
      assert IsDigit(s[0]);
      assert s[0] != '-' && s[0] != '+';
    }
  }
}
