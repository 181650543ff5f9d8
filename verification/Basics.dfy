/** Shared vocabulary: optional values, machine-integer bounds and the few rounding facts the
    fee and price arithmetic rests on. */
module Basics {
  datatype Option<+T> = None | Some(value: T)

  /** Largest `uint256`; Solidity 0.8 reverts when a result would exceed it. */
  const U256_MAX: nat := 0xffff_ffff_ffff_ffff_ffff_ffff_ffff_ffff_ffff_ffff_ffff_ffff_ffff_ffff_ffff_ffff

  function Min(a: nat, b: nat): (m: nat)
    ensures m <= a && m <= b && (m == a || m == b)
  {
    if a < b then a else b
  }

  function Max(a: int, b: int): (m: int)
    ensures m >= a && m >= b && (m == a || m == b)
  {
    if a > b then a else b
  }

  function CeilDiv(a: nat, d: nat): (q: nat)
    requires d > 0
    ensures (q - 1) * d < a <= q * d
  {
    CeilDivBounds(a, d);
    (a + d - 1) / d
  }

  /** Floor division of naturals. */
  function Quotient(a: nat, d: nat): nat
    requires d > 0
  {
    a / d
  }

  lemma CeilDivBounds(a: nat, d: nat)
    requires d > 0
    ensures ((a + d - 1) / d - 1) * d < a <= ((a + d - 1) / d) * d
  {
    DivBounds(a + d - 1, d);
    var q := (a + d - 1) / d;
    assert (q - 1) * d == q * d - d;
  }

  /** The quotient is pinned by its two multiples: the workhorse for division by a variable. */
  lemma DivBounds(a: nat, d: nat)
    requires d > 0
    ensures (a / d) * d <= a < (a / d + 1) * d
  {
    assert a == (a / d) * d + a % d;
    assert (a / d + 1) * d == (a / d) * d + d;
  }

  /** Any `q` between the two multiples is the quotient. */
  lemma {:induction false} DivUnique(a: nat, d: nat, q: nat)
    requires d > 0
    requires q * d <= a < (q + 1) * d
    ensures a / d == q
  {
    DivBounds(a, d);
    if a / d < q {
      MulMono(a / d + 1, q, d);
    } else if q < a / d {
      MulMono(q + 1, a / d, d);
    }
  }

  lemma QuotientIs(a: nat, d: nat, q: nat)
    requires d > 0
    ensures Quotient(a, d) == q <==> q * d <= a < (q + 1) * d
  {
    DivBounds(a, d);
    if q * d <= a < (q + 1) * d {
      DivUnique(a, d, q);
    }
  }

  lemma MulMono(a: nat, b: nat, c: nat)
    requires a <= b
    ensures a * c <= b * c && c * a <= c * b
  {
    assert b * c == a * c + (b - a) * c;
    assert c * b == b * c && c * a == a * c;
  }
}
