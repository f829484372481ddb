/**
 * `int.TryParse` on an already trimmed token: an optional '+' or '-' followed
 * by one or more decimal digits whose value lies in the 32-bit signed range,
 * and its inverse, the decimal rendering of an integer.
 */
module Int32Text {
  import opened Wrappers

  const MinInt32: int := -0x8000_0000
  const MaxInt32: int := 0x7FFF_FFFF

  predicate InInt32Range(n: int) {
    MinInt32 <= n <= MaxInt32
  }

  predicate IsDigit(c: char) {
    '0' <= c <= '9'
  }

  predicate AllDigits(s: string) {
    forall i :: 0 <= i < |s| ==> IsDigit(s[i])
  }

  function DigitValue(c: char): nat
    requires IsDigit(c)
  {
    c as int - '0' as int
  }

  /** The value of a string of decimal digits, most significant first. */
  function DigitsValue(ds: string): nat
    requires AllDigits(ds)
  {
    if ds == [] then 0 else DigitsValue(ds[..|ds| - 1]) * 10 + DigitValue(ds[|ds| - 1])
  }

  predicate IsSign(c: char) {
    c == '+' || c == '-'
  }

  /** The token's integer if it is one within the 32-bit range, `None` otherwise. */
  function ParseInt32(t: string): (r: Option<int>)
    ensures r.Some? ==> InInt32Range(r.value)
    ensures r.Some? ==> |t| > 0 && var d := if IsSign(t[0]) then t[1..] else t; d != [] && AllDigits(d)
  {
    var digits := if t != [] && IsSign(t[0]) then t[1..] else t;
    if digits == [] || !AllDigits(digits) then None
    else
      var v: int := if t[0] == '-' then 0 - DigitsValue(digits) as int else DigitsValue(digits);
      if InInt32Range(v) then Some(v) else None
  }

  /** A token with any character that is neither a digit nor a leading sign is rejected. */
  lemma RejectsNonNumeric(t: string, i: nat)
    requires i < |t| && !IsDigit(t[i]) && !(i == 0 && IsSign(t[i]))
    ensures ParseInt32(t) == None
  {
    if IsSign(t[0]) {
      assert t[1..][i - 1] == t[i];
    }
  }

  /** The decimal digits of `n`, without leading zeros. */
  function FormatNat(n: nat): (s: string)
    ensures |s| > 0 && AllDigits(s)
  {
    if n < 10 then [('0' as int + n) as char]
    else FormatNat(n / 10) + [('0' as int + n % 10) as char]
  }

  /** `n.ToString()` in the invariant culture. */
  function FormatInt(n: int): string
  {
    if n < 0 then "-" + FormatNat(-n) else FormatNat(n)
  }

  lemma {:induction false} FormatNatValue(n: nat)
    ensures DigitsValue(FormatNat(n)) == n
  {
    var s := FormatNat(n);
    if n >= 10 {
      FormatNatValue(n / 10);
      assert s[..|s| - 1] == FormatNat(n / 10);
    }
  }

  /**
   * Every integer rendered in decimal parses back to itself exactly when it
   * fits in 32 bits; one outside the range, such as 2147483648, is rejected.
   */
  lemma FormatParse(n: int)
    ensures ParseInt32(FormatInt(n)) == if InInt32Range(n) then Some(n) else None
  {
    var m := if n < 0 then -n else n;
    FormatNatValue(m);
    var t := FormatInt(n);
    assert IsDigit(FormatNat(m)[0]);
    if n < 0 {
      assert t[1..] == FormatNat(m);
    }
  }

  /** A leading '+' does not change what a string of digits parses to. */
  lemma PlusSignIgnored(d: string)
    requires AllDigits(d)
    ensures ParseInt32("+" + d) == ParseInt32(d)
  {
    assert ("+" + d)[1..] == d;
  }

  /** A leading zero does not change what a non-empty string of digits parses to. */
  lemma LeadingZeroIgnored(d: string)
    requires d != [] && AllDigits(d)
    ensures ParseInt32("0" + d) == ParseInt32(d)
  {
    LeadingZeroValue(d);
  }

  /** A leading zero after a minus sign does not change what a non-empty string of digits parses to. */
  lemma MinusLeadingZeroIgnored(d: string)
    requires d != [] && AllDigits(d)
    ensures ParseInt32("-0" + d) == ParseInt32("-" + d)
  {
    LeadingZeroValue(d);
    assert ("-0" + d)[1..] == "0" + d;
    assert ("-" + d)[1..] == d;
  }

  lemma {:induction false} LeadingZeroValue(d: string)
    requires AllDigits(d)
    ensures AllDigits("0" + d) && DigitsValue("0" + d) == DigitsValue(d)
  {
    var z := "0" + d;
    assert AllDigits(z) by {
      forall i | 0 <= i < |z| ensures IsDigit(z[i]) {
        if i > 0 { assert z[i] == d[i - 1]; }
      }
    }
    if d != [] {
      LeadingZeroValue(d[..|d| - 1]);
      assert z[..|z| - 1] == "0" + d[..|d| - 1];
      assert z[|z| - 1] == d[|d| - 1];
    }
  }
}
