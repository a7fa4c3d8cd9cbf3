/** Decimal text of natural numbers, as Rust prints and reads unsigned integers. */
module Decimals {
  import opened Wrappers

  const U32_MAX: nat := 0xFFFF_FFFF

  function Digit(d: nat): char
    requires d < 10
  {
    ('0' as nat + d) as char
  }

  predicate IsDigit(c: char) {
    '0' <= c <= '9'
  }

  function DigitValue(c: char): nat
    requires IsDigit(c)
  {
    c as nat - '0' as nat
  }

  function Decimal(n: nat): string {
    if n < 10 then [Digit(n)] else Decimal(n / 10) + [Digit(n % 10)]
  }

  predicate AllDigits(text: string) {
    forall i :: 0 <= i < |text| ==> IsDigit(text[i])
  }

  function Value(text: string): nat
    requires AllDigits(text)
  {
    if text == "" then 0
    else Value(text[..|text| - 1]) * 10 + DigitValue(text[|text| - 1])
  }

  /** `u32::from_str`: an optional plus, at least one digit, no overflow. */
  function ParseU32(text: string): Option<nat> {
    var digits := if text != "" && text[0] == '+' then text[1..] else text;
    if digits == "" || !AllDigits(digits) || Value(digits) > U32_MAX then None else Some(Value(digits))
  }

  lemma {:induction false} DecimalReads(n: nat)
    ensures Decimal(n) != "" && AllDigits(Decimal(n)) && Value(Decimal(n)) == n
  {
    var c := Digit(n % 10);
    assert IsDigit(c) && DigitValue(c) == n % 10;
    if n >= 10 {
      DecimalReads(n / 10);
      var text := Decimal(n);
      assert text[..|text| - 1] == Decimal(n / 10) && text[|text| - 1] == c;
    } else {
      assert [c][..0] == "";
    }
  }

  lemma ParseDecimal(n: nat)
    requires n <= U32_MAX
    ensures ParseU32(Decimal(n)) == Some(n)
  {
    DecimalReads(n);
    assert IsDigit(Decimal(n)[0]);
  }

  predicate Canonical(digits: string) {
    digits != "" && AllDigits(digits) && (|digits| > 1 ==> digits[0] != '0')
  }

  lemma TensSplit(tens: nat, ones: nat)
    requires ones < 10
    ensures (tens * 10 + ones) / 10 == tens && (tens * 10 + ones) % 10 == ones
  {
  }

  /** The canonical texts are exactly the printed numbers. */
  lemma {:induction false} CanonicalReads(digits: string)
    requires Canonical(digits)
    ensures Decimal(Value(digits)) == digits && (Value(digits) == 0 <==> digits == "0")
  {
    var rest, last := digits[..|digits| - 1], digits[|digits| - 1];
    assert digits == rest + [last];
    assert Digit(DigitValue(last)) == last;
    if rest != "" {
      CanonicalReads(rest);
      TensSplit(Value(rest), DigitValue(last));
    }
  }

  lemma {:induction false} DecimalIsCanonical(n: nat)
    ensures Canonical(Decimal(n)) && (n > 0 ==> Decimal(n)[0] != '0')
  {
    DecimalReads(n);
    if n >= 10 {
      DecimalIsCanonical(n / 10);
    }
  }
}
