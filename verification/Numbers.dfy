/** Decimal text as Go reads it. */
module Numbers {
  import opened Text

  const TWO_32 := 0x1_0000_0000

  const TWO_63 := 0x8000_0000_0000_0000

  const TWO_64 := 0x1_0000_0000_0000_0000

  predicate IsDigit(c: char) { '0' <= c <= '9' }

  predicate AllDigits(s: string) {
    forall i :: 0 <= i < |s| ==> IsDigit(s[i])
  }

  function Value(digits: string): nat
    requires AllDigits(digits)
  {
    if digits == "" then 0 else Value(digits[..|digits| - 1]) * 10 + (digits[|digits| - 1] as int - '0' as int)
  }

  /** The digits of a number. */
  function Decimal(n: nat): string {
    if n < 10 then ["0123456789"[n]] else Decimal(n / 10) + ["0123456789"[n % 10]]
  }

  lemma {:induction false} DecimalIsValue(n: nat)
    ensures var s := Decimal(n); s != "" && AllDigits(s) && Value(s) == n
  {
    var s := Decimal(n);
    if n < 10 {
      assert s[..0] == "";
    } else {
      DecimalIsValue(n / 10);
      assert s[..|s| - 1] == Decimal(n / 10);
    }
  }

  /** `strconv.ParseUint` in base 10 with 64 bits: anything but digits, and any number out of range, is an error. */
  function ParseUint(s: string): Option<nat> {
    if s != "" && AllDigits(s) && Value(s) < TWO_64 then Some(Value(s)) else None
  }
}
