/** The unit a byte count is shown in. */
module SizeUnits {

  newtype int64 = x: int | -0x8000_0000_0000_0000 <= x < 0x8000_0000_0000_0000

  const UNIT: int64 := 1024
  const SUFFIXES := ['K', 'M', 'G', 'T', 'P', 'E']

  /** A count shown as it is, or divided by a unit with its suffix. */
  datatype Shown = Plain(b: int64) | Scaled(b: int64, div: int64, suffix: char)

  function Pow(e: nat): (p: int)
    ensures p >= 1
  {
    if e == 0 then 1 else 1024 * Pow(e - 1)
  }

  lemma {:induction false} PowGrows(e: nat, f: nat)
    requires e < f
    ensures 1024 * Pow(e) <= Pow(f)
    decreases f
  {
    if e < f - 1 { PowGrows(e, f - 1); }
  }

  /** One division of the quotient is one more factor in the divisor. */
  lemma OneMoreFactor(b: int, n: int, div: int)
    requires n >= 1024 && div >= 1 && n * div <= b < (n + 1) * div
    ensures (n / 1024) * (1024 * div) <= b < (n / 1024 + 1) * (1024 * div)
    ensures 1024 * div <= b
  {
    var q := n / 1024;
    assert q * 1024 <= n && n + 1 <= (q + 1) * 1024;
    Scale(q * 1024, n, div);
    Scale(n + 1, (q + 1) * 1024, div);
    Scale(1024, n, div);
    assert (q * 1024) * div == q * (1024 * div);
    assert ((q + 1) * 1024) * div == (q + 1) * (1024 * div);
  }

  lemma Scale(x: int, y: int, d: int)
    requires x <= y && d >= 0
    ensures x * d <= y * d
  {}

  /** Every 64-bit count below 1024, negative ones included, is plain.  Any other gets the
      largest power of 1024 not above it; no product overflows, and the suffix exists. */
  method ResourceQuantity(b: int64) returns (shown: Shown)
    ensures b < UNIT ==> shown == Plain(b)
    ensures b >= UNIT ==>
      exists exp :: 0 <= exp < |SUFFIXES| && shown.Scaled? && shown.b == b && shown.suffix == SUFFIXES[exp]
                    && shown.div as int == Pow(exp + 1) && Pow(exp + 1) <= b as int < Pow(exp + 2)
  {
    if b < UNIT { return Plain(b); }
    var div, exp := UNIT, 0;
    var n := b / UNIT;
    assert Pow(1) == 1024 * Pow(0);
    while n >= UNIT
      invariant 1 <= n && 0 <= exp && div as int == Pow(exp + 1)
      invariant (n as int) * (div as int) <= b as int < (n as int + 1) * (div as int)
      decreases n
    {
      OneMoreFactor(b as int, n as int, div as int);
      div := div * UNIT;
      exp := exp + 1;
      n := n / UNIT;
    }
    Scale(1, n as int, div as int);
    Scale(n as int + 1, 1024, div as int);
    ExponentFits(b as int, exp);
    return Scaled(b, div, SUFFIXES[exp]);
  }

  lemma ExponentFits(b: int, exp: nat)
    requires Pow(exp + 1) <= b < 0x8000_0000_0000_0000
    ensures exp <= 5
  {
    if exp > 5 {
      assert Pow(7) == 1024 * (1024 * (1024 * (1024 * (1024 * (1024 * (1024 * Pow(0)))))));
      if exp > 6 { PowGrows(7, exp + 1); }
    }
  }

  /** The unit is the only one the count fits, and a larger count never has a smaller unit. */
  lemma UnitIsUnique(b: int, c: int, e: nat, f: nat)
    requires Pow(e) <= b < Pow(e + 1) && Pow(f) <= c < Pow(f + 1)
    ensures b <= c ==> e <= f
    ensures b == c ==> e == f
  {
    if f < e && f + 1 < e { PowGrows(f + 1, e); }
    if e < f && e + 1 < f { PowGrows(e + 1, f); }
  }
}
