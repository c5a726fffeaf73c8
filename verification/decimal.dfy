/**
 * Swift's `Int(String)` as used for the `releaseYear` attribute: an optional
 * leading `+` or `-`, then one or more decimal digits, and a value that fits
 * in a 64-bit `Int`; anything else gives no value.
 */
module Decimal {
  import opened Wrappers

  /** Bounds of Swift's `Int` on the 64-bit platforms the program runs on. */
  const IntMin: int := -0x8000_0000_0000_0000
  const IntMax: int := 0x7FFF_FFFF_FFFF_FFFF

  predicate IsDigit(c: char) {
    '0' <= c <= '9'
  }

  predicate AllDigits(s: string) {
    forall i | 0 <= i < |s| :: IsDigit(s[i])
  }

  function DigitValue(c: char): (d: nat)
    requires IsDigit(c)
    ensures d < 10
  {
    c as int - '0' as int
  }

  function DigitChar(d: nat): (c: char)
    requires d < 10
    ensures IsDigit(c) && DigitValue(c) == d
  {
    ('0' as int + d) as char
  }

  /** Value of a run of digits, most significant digit first; the empty run is worth 0. */
  function DigitsValue(s: string): nat
    requires AllDigits(s)
    decreases |s|
  {
    if s == [] then 0 else DigitsValue(s[..|s| - 1]) * 10 + DigitValue(s[|s| - 1])
  }

  /** A leading sign character, if any. */
  predicate HasSign(s: string) {
    |s| > 0 && (s[0] == '+' || s[0] == '-')
  }

  /** The text after the optional sign. */
  function Unsigned(s: string): string {
    if HasSign(s) then s[1..] else s
  }

  function ParseInt(s: string): (r: Option<int>)
    ensures r.Some? ==> IntMin <= r.value <= IntMax
    ensures r.Some? ==> Unsigned(s) != [] && AllDigits(Unsigned(s))
  {
    var digits := Unsigned(s);
    if digits == [] || !AllDigits(digits) then None
    else
      var magnitude: int := DigitsValue(digits);
      var v: int := if |s| > 0 && s[0] == '-' then -magnitude else magnitude;
      if IntMin <= v <= IntMax then Some(v) else None
  }

  /** Decimal digits of `n`, without leading zeros. */
  function NatDigits(n: nat): (s: string)
    ensures s != [] && AllDigits(s)
    decreases n
  {
    if n < 10 then [DigitChar(n)] else NatDigits(n / 10) + [DigitChar(n % 10)]
  }

  /** The canonical decimal text of an integer (Swift's `String(n)`). */
  function Show(n: int): (s: string)
    ensures s != []
  {
    if n < 0 then ['-'] + NatDigits(-n) else NatDigits(n)
  }

  lemma {:induction false} DigitsValueOfNatDigits(n: nat)
    ensures DigitsValue(NatDigits(n)) == n
    decreases n
  {
    var s := NatDigits(n);
    if n >= 10 {
      DigitsValueOfNatDigits(n / 10);
      assert s[..|s| - 1] == NatDigits(n / 10);
    }
  }

  /** Parsing the decimal text of any `Int` gives that `Int` back. */
  lemma ParseShowRoundTrip(n: int)
    requires IntMin <= n <= IntMax
    ensures ParseInt(Show(n)) == Some(n)
  {
    var s := Show(n);
    if n < 0 {
      DigitsValueOfNatDigits(-n);
      assert Unsigned(s) == NatDigits(-n);
    } else {
      DigitsValueOfNatDigits(n);
      assert IsDigit(s[0]);
      assert Unsigned(s) == NatDigits(n);
    }
  }

  /** `k` zero digits. */
  function Zeros(k: nat): (s: string)
    ensures |s| == k && AllDigits(s)
  {
    seq(k, _ => '0')
  }

  /** A leading zero does not change the value of a run of digits. */
  lemma {:induction false} LeadingZeroValue(d: string)
    requires AllDigits(d)
    ensures AllDigits(['0'] + d) && DigitsValue(['0'] + d) == DigitsValue(d)
    decreases |d|
  {
    var z := ['0'] + d;
    if d != [] {
      var init := d[..|d| - 1];
      LeadingZeroValue(init);
      assert z[..|z| - 1] == ['0'] + init;
    }
  }

  /** Any number of leading zeros leaves the value of a run of digits unchanged. */
  lemma {:induction false} ZerosValue(k: nat, d: string)
    requires AllDigits(d)
    ensures AllDigits(Zeros(k) + d) && DigitsValue(Zeros(k) + d) == DigitsValue(d)
    decreases k
  {
    if k == 0 {
      assert Zeros(k) + d == d;
    } else {
      var rest := Zeros(k - 1) + d;
      ZerosValue(k - 1, d);
      LeadingZeroValue(rest);
      assert Zeros(k) == ['0'] + Zeros(k - 1);
      assert Zeros(k) + d == ['0'] + rest;
    }
  }

  /** The value a sign gives to a magnitude. */
  function Signed(sign: string, n: nat): int {
    if sign == "-" then -(n as int) else n as int
  }

  /** A sign followed by digits: the digits are what follows the sign. */
  lemma UnsignedAfterSign(sign: string, d: string)
    requires sign == "" || sign == "+" || sign == "-"
    requires d != [] && AllDigits(d)
    ensures Unsigned(sign + d) == d
    ensures |sign + d| > 0 && ((sign + d)[0] == '-' <==> sign == "-")
  {
    if sign == "" {
      assert sign + d == d;
      assert IsDigit(d[0]);
    } else {
      assert (sign + d)[1..] == d;
    }
  }

  /**
   * Every numeral, not only the canonical one: an optional `+` or `-`, any
   * number of leading zeros, then the digits of `n`, gives `n` or `-n` when
   * that fits in an `Int`, and no value when it does not.
   */
  lemma ParsePadded(sign: string, k: nat, n: nat)
    requires sign == "" || sign == "+" || sign == "-"
    ensures var v := Signed(sign, n);
      ParseInt(sign + Zeros(k) + NatDigits(n)) == if IntMin <= v <= IntMax then Some(v) else None
  {
    var d := Zeros(k) + NatDigits(n);
    assert sign + Zeros(k) + NatDigits(n) == sign + d;
    ZerosValue(k, NatDigits(n));
    DigitsValueOfNatDigits(n);
    ParseSigned(sign, d, n);
  }

  /** A sign followed by a run of digits worth `n` parses to `Signed(sign, n)` when that fits in an `Int`. */
  lemma ParseSigned(sign: string, d: string, n: nat)
    requires sign == "" || sign == "+" || sign == "-"
    requires d != [] && AllDigits(d) && DigitsValue(d) == n
    ensures var v := Signed(sign, n);
      ParseInt(sign + d) == if IntMin <= v <= IntMax then Some(v) else None
  {
    var s := sign + d;
    UnsignedAfterSign(sign, d);
    ParseMagnitude(s, n);
    assert Signed(sign, n) == if |s| > 0 && s[0] == '-' then -(n as int) else n as int;
  }

  /** A numeral whose digits are worth `n` parses to `n`, negated after a `-`, when that fits in an `Int`. */
  lemma ParseMagnitude(s: string, n: nat)
    requires Unsigned(s) != [] && AllDigits(Unsigned(s)) && DigitsValue(Unsigned(s)) == n
    ensures var v := if |s| > 0 && s[0] == '-' then -(n as int) else n as int;
      ParseInt(s) == if IntMin <= v <= IntMax then Some(v) else None
  {
  }

  /** A character other than a digit, anywhere but in a leading sign position, makes the text non-numeric. */
  lemma NonDigitRejected(s: string, i: nat)
    requires i < |s| && !IsDigit(s[i])
    requires i == 0 ==> !HasSign(s)
    ensures ParseInt(s) == None
  {
    if HasSign(s) {
      assert Unsigned(s)[i - 1] == s[i];
    } else {
      assert Unsigned(s)[i] == s[i];
    }
  }

  /** A bare sign, or no text at all, is not a number. */
  lemma NoDigitsRejected(s: string)
    requires s == [] || s == "+" || s == "-"
    ensures ParseInt(s) == None
  {
  }

  /** The sample document's `releaseYear="2019"`. */
  lemma ParseReleaseYear()
    ensures ParseInt("2019") == Some(2019)
  {
    assert Show(2019) == "2019" by {
      assert NatDigits(2) == "2";
      assert NatDigits(20) == "20";
      assert NatDigits(201) == "201";
    }
    ParseShowRoundTrip(2019);
  }
}
