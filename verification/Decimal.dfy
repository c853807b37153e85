/** Decimal digits: printing natural numbers and reading them back as Rust's unsigned parsers do. */
module Decimal {
  import opened Prelude

  predicate IsDigit(c: char) {
    '0' <= c <= '9'
  }

  predicate IsHexDigit(c: char) {
    IsDigit(c) || 'a' <= c <= 'f' || 'A' <= c <= 'F'
  }

  function HexValue(c: char): (n: nat)
    requires IsHexDigit(c)
    ensures n < 16
  {
    if IsDigit(c) then c as int - '0' as int
    else if c >= 'a' then c as int - 'a' as int + 10
    else c as int - 'A' as int + 10
  }

  function DigitChar(d: nat): char
    requires d < 10
  {
    '0' + d as char
  }

  predicate AllDigits(s: string) {
    forall i | 0 <= i < |s| :: IsDigit(s[i])
  }

  function Digits(n: nat): (s: string)
    ensures s != "" && AllDigits(s)
    ensures s[0] == '0' ==> s == "0"
  {
    if n < 10 then [DigitChar(n)] else Digits(n / 10) + [DigitChar(n % 10)]
  }

  function NumericValue(s: string): nat
    requires AllDigits(s)
  {
    if s == "" then 0 else NumericValue(s[..|s| - 1]) * 10 + (s[|s| - 1] as int - '0' as int)
  }

  /** `str::parse` for an unsigned type: an optional plus sign, then digits, then the range check. */
  function ParseUnsigned(s: string, max: nat): Option<nat> {
    var digits := if |s| > 1 && s[0] == '+' then s[1..] else s;
    if digits == "" || !AllDigits(digits) then None
    else if NumericValue(digits) > max then None
    else Some(NumericValue(digits))
  }

  lemma {:induction false} ValueOfDecimal(n: nat)
    ensures NumericValue(Digits(n)) == n
  {
    if n >= 10 {
      ValueOfDecimal(n / 10);
      var s := Digits(n);
      assert s[..|s| - 1] == Digits(n / 10);
    }
  }

  /** Printing and parsing are inverse up to the range of the target type. */
  lemma ParseDecimal(n: nat, max: nat)
    ensures ParseUnsigned(Digits(n), max) == if n <= max then Some(n) else None
  {
    ValueOfDecimal(n);
    assert IsDigit(Digits(n)[0]);
  }

  // ---- Exactly the texts that are read ---------------------------------------------------------

  function Zeros(z: nat): string {
    if z == 0 then "" else Zeros(z - 1) + "0"
  }

  lemma DigitsStep(m: nat, c: char)
    requires IsDigit(c)
    ensures m == 0 ==> Digits(c as int - '0' as int) == [c]
    ensures m > 0 ==> Digits(m * 10 + (c as int - '0' as int)) == Digits(m) + [c]
  {
    var v := c as int - '0' as int;
    assert DigitChar(v) == c;
    assert (m * 10 + v) / 10 == m && (m * 10 + v) % 10 == v;
  }

  lemma {:induction false} DigitsWithZeros(d: string) returns (z: nat)
    requires d != "" && AllDigits(d)
    ensures d == Zeros(z) + Digits(NumericValue(d))
  {
    hide Digits;
    var init, c := d[..|d| - 1], d[|d| - 1];
    assert d == init + [c];
    var m := NumericValue(init);
    DigitsStep(m, c);
    if init == "" {
      z := 0;
    } else {
      z := DigitsWithZeros(init);
      if m == 0 {
        ZeroDigit();
        z := z + 1;
      } else {
        assert Zeros(z) + (Digits(m) + [c]) == Zeros(z) + Digits(m) + [c];
      }
    }
  }

  lemma ZeroDigit()
    ensures Digits(0) == "0"
  {
  }

  lemma {:induction false} ZerosAreNothing(z: nat, n: nat)
    ensures AllDigits(Zeros(z) + Digits(n)) && NumericValue(Zeros(z) + Digits(n)) == n
  {
    var d := Zeros(z) + Digits(n);
    var last := Digits(n)[|Digits(n)| - 1];
    if n >= 10 {
      ZerosAreNothing(z, n / 10);
      assert d[..|d| - 1] == Zeros(z) + Digits(n / 10);
    } else {
      ZerosCount(z);
      assert d[..|d| - 1] == Zeros(z);
    }
  }

  lemma {:induction false} ZerosCount(z: nat)
    ensures AllDigits(Zeros(z)) && NumericValue(Zeros(z)) == 0
  {
    if z > 0 {
      ZerosCount(z - 1);
      var s := Zeros(z);
      assert s[..|s| - 1] == Zeros(z - 1);
    }
  }

  lemma SignIsOptional(d: string, max: nat)
    requires d != "" && AllDigits(d)
    ensures ParseUnsigned(d, max) == ParseUnsigned("+" + d, max)
    ensures ParseUnsigned(d, max) == if NumericValue(d) <= max then Some(NumericValue(d)) else None
  {
    hide NumericValue;
    assert IsDigit(d[0]);
    assert ("+" + d)[1..] == d;
  }

  lemma ReadDigits(s: string, max: nat) returns (d: string)
    requires ParseUnsigned(s, max).Some?
    ensures d != "" && AllDigits(d) && (s == d || s == "+" + d)
    ensures NumericValue(d) <= max && ParseUnsigned(s, max) == Some(NumericValue(d))
  {
    hide NumericValue;
    d := if |s| > 1 && s[0] == '+' then s[1..] else s;
    assert |s| > 1 && s[0] == '+' ==> s == "+" + d;
  }

  predicate Spells(s: string, z: nat, n: nat) {
    s == Zeros(z) + Digits(n) || s == "+" + (Zeros(z) + Digits(n))
  }

  /** A text is read as a number exactly when it spells it: after any zeros and at most one plus sign. */
  lemma ParseExactly(s: string, max: nat, n: nat)
    ensures ParseUnsigned(s, max) == Some(n) <==> n <= max && exists z: nat :: Spells(s, z, n)
  {
    hide ParseUnsigned, NumericValue, AllDigits, Digits, Zeros;
    if ParseUnsigned(s, max) == Some(n) {
      var d := ReadDigits(s, max);
      var z := DigitsWithZeros(d);
      assert Spells(s, z, n);
    }
    if n <= max && exists z: nat :: Spells(s, z, n) {
      var z: nat :| Spells(s, z, n);
      ZerosAreNothing(z, n);
      SignIsOptional(Zeros(z) + Digits(n), max);
    }
  }
}
