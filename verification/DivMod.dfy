/** What pins down a quotient and a remainder. */
module DivMod {

  lemma NonzeroMultiple(k: int, a: nat)
    ensures k >= 1 ==> k * a >= a
    ensures k <= -1 ==> k * a + a <= 0
  {
  }

  lemma DivModUnique(x: int, q: int, r: int, a: int)
    requires a > 0 && x == q * a + r && 0 <= r < a
    ensures x / a == q && x % a == r
  {
    var q', r' := x / a, x % a;
    assert (q - q') * a == r' - r;
    NonzeroMultiple(q - q', a);
  }

  lemma ModPlusMultiple(x: int, k: int, a: int)
    requires a > 0
    ensures (x + k * a) % a == x % a
  {
    var q, r := x / a, x % a;
    assert x + k * a == (q + k) * a + r;
    DivModUnique(x + k * a, q + k, r, a);
  }
}
