/**
 * The two `java.lang.Integer` conversions the sender relies on:
 * `Integer.parseInt(String)` (radix 10) and `Integer.toString(int)`.
 */
module JavaInteger {
  import opened CanBase

  const MinInt: int := -0x8000_0000
  const MaxInt: int := 0x7FFF_FFFF

  predicate IsInt32(n: int) {
    MinInt <= n <= MaxInt
  }

  predicate IsDigit(c: char) {
    '0' <= c <= '9'
  }

  predicate AllDigits(s: string) {
    forall i :: 0 <= i < |s| ==> IsDigit(s[i])
  }

  function DigitValue(c: char): nat
    requires IsDigit(c)
  {
    (c as int) - ('0' as int)
  }

  function DigitChar(d: nat): (c: char)
    requires d < 10
    ensures IsDigit(c) && DigitValue(c) == d
  {
    (('0' as int) + d) as char
  }

  /** The value of a string of decimal digits, most significant first. */
  function DigitsValue(s: string): nat
    requires AllDigits(s)
  {
    if |s| == 0 then 0 else DigitsValue(s[..|s| - 1]) * 10 + DigitValue(s[|s| - 1])
  }

  /** How many sign characters open `s`: one for a leading `-` or `+`. */
  function SignLength(s: string): (k: nat)
    ensures k <= 1
  {
    if |s| > 0 && (s[0] == '-' || s[0] == '+') then 1 else 0
  }

  /** The text of an integer: an optional sign, then at least one ASCII digit and nothing else. */
  predicate IsIntText(s: string) {
    |s| > SignLength(s) && AllDigits(s[SignLength(s)..])
  }

  /** The signed value such a text denotes, leading zeros included. */
  function TextValue(s: string): int
    requires IsIntText(s)
  {
    var magnitude: int := DigitsValue(s[SignLength(s)..]);
    if s[0] == '-' then -magnitude else magnitude
  }

  /**
   * `Integer.parseInt(s)`: an optional `-` or `+`, then at least one decimal
   * digit, and the value must fit in 32 bits; anything else throws
   * `NumberFormatException`, which is `None` here.
   */
  function ParseInt(s: string): (r: Option<int>)
    ensures r.Some? <==> IsIntText(s) && IsInt32(TextValue(s))
    ensures r.Some? ==> r.value == TextValue(s)
  {
    if |s| == 0 then None
    else
      var signed := s[0] == '-' || s[0] == '+';
      var digits := if signed then s[1..] else s;
      if |digits| == 0 || !AllDigits(digits) then None
      else
        var v: int := if s[0] == '-' then -(DigitsValue(digits) as int) else DigitsValue(digits);
        if IsInt32(v) then Some(v) else None
  }

  /**
   * A character that is neither a digit nor a leading sign makes the text
   * unparseable: `"12a"`, `" 5"` and `"1.0"` are all rejected.
   */
  lemma NonDigitRejected(s: string, i: nat)
    requires i < |s| && !IsDigit(s[i])
    requires !(i == 0 && (s[0] == '-' || s[0] == '+'))
    ensures ParseInt(s) == None
  {
  }

  lemma {:induction false} LeadingZeroValue(t: string)
    requires AllDigits(t)
    ensures AllDigits(['0'] + t) && DigitsValue(['0'] + t) == DigitsValue(t)
    decreases |t|
  {
    var z := ['0'] + t;
    assert AllDigits(z) by {
      forall i | 0 <= i < |z| ensures IsDigit(z[i]) {
        if i > 0 { assert z[i] == t[i - 1]; }
      }
    }
    if |t| > 0 {
      var t' := t[..|t| - 1];
      assert z[..|z| - 1] == ['0'] + t';
      LeadingZeroValue(t');
    }
  }

  /** A leading zero does not change what a digit string parses to. */
  lemma LeadingZeroIgnored(t: string)
    requires |t| > 0 && AllDigits(t)
    ensures ParseInt(['0'] + t) == ParseInt(t)
  {
    LeadingZeroValue(t);
    assert (['0'] + t)[0..] == ['0'] + t;
    assert t[0..] == t;
  }

  /** A leading `+` does not change what a digit string parses to. */
  lemma PlusSignIgnored(t: string)
    requires |t| > 0 && AllDigits(t)
    ensures ParseInt(['+'] + t) == ParseInt(t)
  {
    assert (['+'] + t)[1..] == t;
    assert t[0..] == t;
  }

  /** Decimal digits of `n`, without leading zeros. */
  function FormatNat(n: nat): (s: string)
    ensures |s| > 0 && AllDigits(s)
  {
    if n < 10 then [DigitChar(n)] else FormatNat(n / 10) + [DigitChar(n % 10)]
  }

  /** `Integer.toString(n)`: a `-` for negative values, then the digits. */
  function FormatInt(n: int): (s: string)
    ensures |s| > 0
  {
    if n < 0 then ['-'] + FormatNat(-n) else FormatNat(n)
  }

  lemma {:induction false} FormatNatValue(n: nat)
    ensures DigitsValue(FormatNat(n)) == n
  {
    var s := FormatNat(n);
    if n >= 10 {
      FormatNatValue(n / 10);
      assert s[..|s| - 1] == FormatNat(n / 10);
    }
  }

  /**
   * `Integer.parseInt` reads back exactly what `Integer.toString` wrote,
   * and rejects the text of any value outside 32 bits.
   */
  lemma ParseFormat(n: int)
    ensures ParseInt(FormatInt(n)) == if IsInt32(n) then Some(n) else None
  {
    var s := FormatInt(n);
    if n < 0 {
      FormatNatValue(-n);
      assert s[1..] == FormatNat(-n);
      assert s[0] == '-';
    } else {
      FormatNatValue(n);
      var f := FormatNat(n);
      assert IsDigit(f[0]);
    }
  }
}
