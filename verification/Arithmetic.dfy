/** Division by a divisor that is not a constant. */
module Arithmetic {

  function Quotient(n: nat, base: nat): nat
    requires 0 < base
  {
    n / base
  }

  function Remainder(n: nat, base: nat): (r: nat)
    requires 0 < base
    ensures r < base
  {
    n % base
  }

  lemma Division(n: nat, base: nat) returns (q: nat, d: nat)
    requires 0 < base
    ensures q == Quotient(n, base) && d == Remainder(n, base)
    ensures n == base * q + d
    ensures n != 0 && 2 <= base ==> q < n
  {
    q, d := Quotient(n, base), Remainder(n, base);
    if 2 <= base {
      assert (base - 2) * q >= 0;
    }
  }

  lemma DivModOf(n: nat, v: nat, d: nat, base: nat)
    requires d < base && n == base * v + d
    ensures Quotient(n, base) == v && Remainder(n, base) == d
  {
    var q, r := Quotient(n, base), Remainder(n, base);
    assert n == base * q + r;
    assert (q - v) * base == d - r;
    SmallMultiple(q - v, base);
  }

  // A multiple of `m` strictly between -m and m is zero.
  lemma SmallMultiple(x: int, m: int)
    requires -m < x * m < m
    ensures x == 0
  {
    if x >= 1 {
      AtLeast(x, m);
    } else if x <= -1 {
      AtLeast(-x, m);
    }
  }

  lemma AtLeast(x: int, m: int)
    requires 1 <= x && 0 <= m
    ensures x * m >= m
  {
    assert (x - 1) * m >= 0;
  }

  lemma HalfAtMost(n: nat, base: nat)
    requires 2 <= base
    ensures 2 * Quotient(n, base) <= n
  {
    var q, d := Division(n, base);
    assert (base - 2) * q >= 0;
  }

  // Going from k to k + 1, digit by digit.
  lemma NextDivision(k: nat, m: nat)
    requires 0 < m
    ensures if Remainder(k, m) + 1 == m then Quotient(k + 1, m) == Quotient(k, m) + 1 && Remainder(k + 1, m) == 0
            else Quotient(k + 1, m) == Quotient(k, m) && Remainder(k + 1, m) == Remainder(k, m) + 1
  {
    hide Quotient, Remainder;
    var q, d := Division(k, m);
    if d + 1 == m {
      assert k + 1 == m * (q + 1) + 0;
      DivModOf(k + 1, q + 1, 0, m);
    } else {
      DivModOf(k + 1, q, d + 1, m);
    }
  }

  lemma DivisionInjective(j: nat, k: nat, m: nat)
    requires 0 < m && Quotient(j, m) == Quotient(k, m) && Remainder(j, m) == Remainder(k, m)
    ensures j == k
  {
    hide Quotient, Remainder;
    var q, d := Division(j, m);
    var q', d' := Division(k, m);
  }
}
