/** C#'s 32-bit signed `int` and its unchecked arithmetic. */
module MachineInt {

  const MinInt32: int := -0x8000_0000
  const MaxInt32: int := 0x7FFF_FFFF
  const Modulus: int := 0x1_0000_0000

  newtype Int32 = x: int | -0x8000_0000 <= x < 0x8000_0000

  function Abs(x: int): nat {
    if x < 0 then -x else x
  }

  /** Unchecked two's-complement narrowing: the one 32-bit value congruent to `x` modulo 2^32. */
  function Wrap(x: int): (r: Int32)
    ensures (r as int - x) % Modulus == 0
    ensures MinInt32 <= x <= MaxInt32 ==> r as int == x
  {
    ((x - MinInt32) % Modulus + MinInt32) as Int32
  }

  /** Integer division rounding toward zero, as C#'s `/` on `int` does. */
  function TruncDiv(a: int, b: int): (q: int)
    requires b != 0
    ensures Abs(q) * Abs(b) <= Abs(a) < (Abs(q) + 1) * Abs(b)
    ensures q == 0 || ((q < 0) <==> ((a < 0) != (b < 0)))
    ensures Abs(a - q * b) < Abs(b)
    ensures a - q * b == 0 || ((a - q * b < 0) <==> (a < 0))
  {
    var q: int := if (a < 0) == (b < 0) then Abs(a) / Abs(b) else -(Abs(a) / Abs(b));
    QuotientBracket(a, b, q);
    QuotientSign(a, b, q);
    RemainderSign(a, b, Abs(a) / Abs(b), q);
    q
  }

  lemma QuotientBracket(a: int, b: int, q: int)
    requires b != 0
    requires q == if (a < 0) == (b < 0) then Abs(a) / Abs(b) else -(Abs(a) / Abs(b))
    ensures Abs(q) * Abs(b) <= Abs(a) < (Abs(q) + 1) * Abs(b)
  {
    EuclidOnNaturals(Abs(a), Abs(b));
    assert Abs(q) == Abs(a) / Abs(b);
  }

  lemma QuotientSign(a: int, b: int, q: int)
    requires b != 0
    requires q == if (a < 0) == (b < 0) then Abs(a) / Abs(b) else -(Abs(a) / Abs(b))
    ensures q == 0 || ((q < 0) <==> ((a < 0) != (b < 0)))
  {
    var m := Abs(a) / Abs(b);
    DivIsNatural(Abs(a), Abs(b));
    if (a < 0) == (b < 0) {
      assert q == m && q >= 0;
    } else {
      assert q == -m && q <= 0;
    }
  }

  lemma DivIsNatural(x: nat, y: nat)
    requires y > 0
    ensures x / y >= 0
  {
  }

  lemma EuclidOnNaturals(x: nat, y: nat)
    requires y > 0
    ensures (x / y) * y <= x < (x / y + 1) * y
  {
  }

  lemma RemainderSign(a: int, b: int, m: nat, q: int)
    requires b != 0 && m == Abs(a) / Abs(b)
    requires q == if (a < 0) == (b < 0) then m as int else -(m as int)
    ensures Abs(a - q * b) < Abs(b)
    ensures a - q * b == 0 || ((a - q * b < 0) <==> (a < 0))
  {
    EuclidOnNaturals(Abs(a), Abs(b));
    if (a < 0) == (b < 0) {
      assert q * b == m * b;
      if b > 0 { assert a - q * b == Abs(a) - m * Abs(b); }
      else { assert a - q * b == -(Abs(a) - m * Abs(b)); }
    } else {
      if b > 0 { assert a - q * b == -(Abs(a) - m * Abs(b)); }
      else { assert a - q * b == Abs(a) - m * Abs(b); }
    }
  }
}
