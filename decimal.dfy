/**
 * The decimal counter behind `next_id`: Rust's `i32::to_string` and
 * `str::parse::<i32>`, as `append_records` uses them (src/lib.rs:73-77).
 */
module Decimal {
  import opened Wrappers

  const I32Min: int := -0x8000_0000
  const I32Max: int := 0x7fff_ffff

  predicate IsI32(i: int) {
    I32Min <= i <= I32Max
  }

  predicate IsDigit(c: char) {
    '0' <= c <= '9'
  }

  predicate AllDigits(s: string) {
    forall i :: 0 <= i < |s| ==> IsDigit(s[i])
  }

  function DigitChar(d: nat): (c: char)
    requires d < 10
    ensures IsDigit(c) && c as int - '0' as int == d
  {
    ('0' as int + d) as char
  }

  function DigitValue(c: char): (d: nat)
    requires IsDigit(c)
    ensures d < 10 && DigitChar(d) == c
  {
    c as int - '0' as int
  }

  /** The shortest decimal spelling of `n`, most significant digit first. */
  function NatToString(n: nat): (s: string)
    ensures 1 <= |s| && AllDigits(s)
    ensures n >= 10 ==> s[0] != '0'
  {
    if n < 10 then [DigitChar(n)] else NatToString(n / 10) + [DigitChar(n % 10)]
  }

  /** `i32::to_string`: a leading '-' for negative values. */
  function IntToString(i: int): (s: string)
    ensures 1 <= |s|
    ensures i >= 0 ==> s == NatToString(i)
  {
    if i < 0 then "-" + NatToString(-i) else NatToString(i)
  }

  /** The number a run of decimal digits denotes; the empty run denotes 0. */
  function DigitsValue(s: string): nat
    requires AllDigits(s)
  {
    if s == [] then 0 else DigitsValue(s[..|s| - 1]) * 10 + DigitValue(s[|s| - 1])
  }

  /**
   * `str::parse::<i32>`: an optional '+' or '-', then at least one decimal
   * digit and nothing else; a value outside the 32-bit range is an error.
   * Leading zeros are accepted.
   */
  function ParseI32(s: string): (r: Option<int>)
    ensures r.Some? ==> IsI32(r.value)
  {
    if |s| == 0 then None
    else
      var negative := s[0] == '-';
      var digits := if s[0] == '-' || s[0] == '+' then s[1..] else s;
      if |digits| == 0 || !AllDigits(digits) then None
      else
        var v: int := if negative then -(DigitsValue(digits) as int) else DigitsValue(digits);
        if IsI32(v) then Some(v) else None
  }

  /** Reading back the digits `NatToString` writes gives the number again. */
  lemma {:induction false} NatRoundTrip(n: nat)
    ensures DigitsValue(NatToString(n)) == n
  {
    if n >= 10 {
      var s := NatToString(n);
      assert s[..|s| - 1] == NatToString(n / 10);
      NatRoundTrip(n / 10);
    }
  }

  lemma NatToStringInjective(m: nat, n: nat)
    requires NatToString(m) == NatToString(n)
    ensures m == n
  {
    NatRoundTrip(m);
    NatRoundTrip(n);
  }

  /** The counter round-trip: every 32-bit value survives `to_string` then `parse`. */
  lemma ParseRoundTrip(i: int)
    requires IsI32(i)
    ensures ParseI32(IntToString(i)) == Some(i)
  {
    var s := IntToString(i);
    if i < 0 {
      NatRoundTrip(-i);
      assert s[1..] == NatToString(-i);
    } else {
      NatRoundTrip(i);
    }
  }

  lemma IntToStringInjective(i: int, j: int)
    requires IsI32(i) && IsI32(j)
    requires IntToString(i) == IntToString(j)
    ensures i == j
  {
    ParseRoundTrip(i);
    ParseRoundTrip(j);
  }

  /** `k` zero digits. */
  function Zeros(k: nat): (s: string)
    ensures |s| == k && AllDigits(s)
  {
    if k == 0 then [] else Zeros(k - 1) + "0"
  }

  /** Leading zeros do not change the value of a run of digits. */
  lemma {:induction false} LeadingZeros(k: nat, s: string)
    requires AllDigits(s)
    ensures AllDigits(Zeros(k) + s) && DigitsValue(Zeros(k) + s) == DigitsValue(s)
  {
    var z := Zeros(k);
    if s == [] {
      assert z + s == z;
      if k > 0 {
        assert z[..k - 1] == Zeros(k - 1);
        LeadingZeros(k - 1, s);
        assert Zeros(k - 1) + s == Zeros(k - 1);
      }
    } else {
      var init := s[..|s| - 1];
      assert (z + s)[..|z + s| - 1] == z + init;
      LeadingZeros(k, init);
    }
  }

  /**
   * `parse` is not the inverse of `to_string` on every string: any number of
   * leading zeros before the digits of a value in range is accepted, so a
   * stored counter "007" is written back as the key "7".
   */
  lemma ParseAcceptsLeadingZeros(k: nat, n: nat)
    requires n <= I32Max
    ensures ParseI32(Zeros(k) + NatToString(n)) == Some(n)
  {
    var digits := NatToString(n);
    var s := Zeros(k) + digits;
    LeadingZeros(k, digits);
    NatRoundTrip(n);
    assert DigitsValue(s) == n;
    assert IsDigit(s[0]) && s[0] != '-' && s[0] != '+';
    assert IsI32(n);
  }

  /** `parse` also accepts an explicit '+' before the digits of a value in range. */
  lemma ParseAcceptsPlus(n: nat)
    requires n <= I32Max
    ensures ParseI32("+" + NatToString(n)) == Some(n)
  {
    var s := "+" + NatToString(n);
    assert s[1..] == NatToString(n);
    NatRoundTrip(n);
  }

  /**
   * Concrete cases: "007" and "+12" are accepted; an empty string, a lone
   * sign or a stray letter is refused.
   */
  lemma ParseAcceptsNonCanonical()
    ensures ParseI32("007") == Some(7) && IntToString(7) == "7"
    ensures ParseI32("+12") == Some(12)
    ensures ParseI32("") == None && ParseI32("-") == None && ParseI32("1a") == None
  {
    assert NatToString(7) == "7";
    assert Zeros(2) + "7" == "007" by {
      assert Zeros(1) == "0";
    }
    ParseAcceptsLeadingZeros(2, 7);
    assert NatToString(12) == "12" by {
      assert NatToString(1) == "1";
    }
    ParseAcceptsPlus(12);
    assert !AllDigits("1a") by { assert !IsDigit("1a"[1]); }
  }
}
