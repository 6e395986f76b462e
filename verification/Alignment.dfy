/** Rounding to alignments, which are powers of two. */
module Alignment {
  import opened DivMod

  predicate PowerOfTwo(a: nat) {
    a == 1 || (a > 1 && a % 2 == 0 && PowerOfTwo(a / 2))
  }

  /** For a power of two this is `x & ~(a - 1)`. */
  function RoundDown(x: nat, a: nat): (r: nat)
    requires a > 0
    ensures r <= x < r + a
  {
    x - x % a
  }

  function RoundUp(x: nat, a: nat): (r: nat)
    requires a > 0
    ensures x <= r < x + a
  {
    RoundDown(x + a - 1, a)
  }

  lemma RoundMultiple(x: nat, a: nat)
    requires a > 0
    ensures RoundDown(x, a) % a == 0 && RoundUp(x, a) % a == 0
  {
    assert RoundDown(x, a) == (x / a) * a;
    DivModUnique(RoundDown(x, a), x / a, 0, a);
    assert RoundUp(x, a) == ((x + a - 1) / a) * a;
    DivModUnique(RoundUp(x, a), (x + a - 1) / a, 0, a);
  }

  /** Two multiples of `a` closer than `a` are equal; so rounding is the nearest
      multiple on its side. */
  lemma MultipleGap(x: int, y: int, a: nat)
    requires a > 0 && x % a == 0 && y % a == 0
    ensures x < y ==> x + a <= y
  {
    var p, q := x / a, y / a;
    assert x == p * a && y == q * a;
    assert y - x == (q - p) * a;
    NonzeroMultiple(q - p, a);
  }

  lemma RoundUpLeast(x: nat, y: nat, a: nat)
    requires a > 0 && x <= y && y % a == 0
    ensures RoundUp(x, a) <= y
  {
    RoundMultiple(x, a);
    MultipleGap(y, RoundUp(x, a), a);
  }

  lemma RoundDownGreatest(x: nat, y: nat, a: nat)
    requires a > 0 && y <= x && y % a == 0
    ensures y <= RoundDown(x, a)
  {
    RoundMultiple(x, a);
    MultipleGap(RoundDown(x, a), y, a);
  }

  lemma RoundUpMonotone(x: nat, y: nat, a: nat)
    requires a > 0 && x <= y
    ensures RoundUp(x, a) <= RoundUp(y, a)
  {
    RoundMultiple(y, a);
    RoundUpLeast(x, RoundUp(y, a), a);
  }

  lemma {:induction false} PowersDivide(a: nat, b: nat)
    requires PowerOfTwo(a) && PowerOfTwo(b) && a <= b
    ensures a > 0 && b % a == 0
  {
    if a == 1 {
    } else {
      PowersDivide(a / 2, b / 2);
      var k := (b / 2) / (a / 2);
      assert b / 2 == k * (a / 2);
      assert b == k * a;
      DivModUnique(b, k, 0, a);
    }
  }

  lemma MultipleOfDivisor(x: nat, a: nat, b: nat)
    requires a > 0 && b > 0 && b % a == 0 && x % b == 0
    ensures x % a == 0
  {
    var k, l := x / b, b / a;
    assert x == k * b && b == l * a;
    assert x == (k * l) * a;
    DivModUnique(x, k * l, 0, a);
  }

  /** Rounding up to a coarser alignment is rounding further. */
  lemma RoundUpCoarser(x: nat, a: nat, b: nat)
    requires a > 0 && b > 0 && b % a == 0
    ensures RoundUp(x, a) <= RoundUp(x, b)
  {
    RoundMultiple(x, b);
    MultipleOfDivisor(RoundUp(x, b), a, b);
    RoundUpLeast(x, RoundUp(x, b), a);
  }

  lemma RoundUpPlus(x: nat, s: nat, a: nat)
    requires a > 0 && x % a == 0
    ensures RoundUp(x + s, a) == x + RoundUp(s, a)
  {
    var k := x / a;
    assert x == k * a;
    ModPlusMultiple(s + a - 1, k, a);
  }

  lemma SumMultiple(x: int, y: int, a: nat)
    requires a > 0 && x % a == 0 && y % a == 0
    ensures (x + y) % a == 0 && (x - y) % a == 0
  {
    var p, q := x / a, y / a;
    assert x == p * a && y == q * a;
    assert x + y == (p + q) * a && x - y == (p - q) * a;
    DivModUnique(x + y, p + q, 0, a);
    DivModUnique(x - y, p - q, 0, a);
  }
}
