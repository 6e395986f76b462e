/** The instructions of the division helpers on 64- and 128-bit words. A flag on
    an instruction (`nuw`, `disjoint`, `is_zero_poison`) is a precondition here:
    using the instruction means proving that the flag holds. */
module WideWords {
  import opened DivMod

  const W64: nat := 0x1_0000_0000_0000_0000
  const W128: nat := 0x1_0000_0000_0000_0000_0000_0000_0000_0000

  function Pow2(n: nat): (p: nat)
    ensures p > 0
  {
    if n == 0 then 1 else 2 * Pow2(n - 1)
  }

  /** Bitwise and, or. */
  function And(a: nat, b: nat): nat {
    if a == 0 || b == 0 then 0
    else 2 * And(a / 2, b / 2) + (if a % 2 == 1 && b % 2 == 1 then 1 else 0)
  }

  function Or(a: nat, b: nat): nat {
    if a == 0 then b else if b == 0 then a
    else 2 * Or(a / 2, b / 2) + (if a % 2 == 1 || b % 2 == 1 then 1 else 0)
  }

  function OrDisjoint(a: nat, b: nat): nat
    requires And(a, b) == 0
  {
    Or(a, b)
  }

  function Shl(x: nat, k: nat): nat {
    x * Pow2(k) % W128
  }

  function ShlNuw(x: nat, k: nat): nat
    requires x * Pow2(k) < W128
  {
    x * Pow2(k)
  }

  function Lshr(x: nat, k: nat): nat {
    if k == 0 then x else Lshr(x, k - 1) / 2
  }

  lemma {:induction false} LshrBounds(x: nat, k: nat)
    ensures Lshr(x, k) * Pow2(k) <= x < (Lshr(x, k) + 1) * Pow2(k)
  {
    if k > 0 {
      LshrBounds(x, k - 1);
      HalfBounds(Lshr(x, k - 1), Pow2(k - 1), x);
    }
  }

  lemma HalfBounds(h: nat, p: nat, x: nat)
    requires h * p <= x < (h + 1) * p
    ensures (h / 2) * (2 * p) <= x < (h / 2 + 1) * (2 * p)
  {
    var q := h / 2;
    assert q * (2 * p) == (2 * q) * p;
    assert (q + 1) * (2 * p) == (2 * q + 2) * p;
    if h % 2 == 0 {
      assert h == 2 * q;
    } else {
      assert h == 2 * q + 1;
      assert (2 * q + 1) * p == (2 * q) * p + p;
    }
  }

  lemma LshrIs(x: nat, k: nat, q: nat, r: nat)
    requires x == q * Pow2(k) + r && r < Pow2(k)
    ensures Lshr(x, k) == q
  {
    LshrBounds(x, k);
    var d, p := Lshr(x, k), Pow2(k);
    DivModUnique(x, q, r, p);
    assert (d + 1) * p == d * p + p;
    DivModUnique(x, d, x - d * p, p);
  }

  function SubNuw(a: nat, b: nat): nat
    requires b <= a
  {
    a - b
  }

  function Trunc64(x: nat): nat {
    x % W64
  }

  function TruncNuw64(x: nat): nat
    requires x < W64
  {
    x
  }

  /** The number of bits up to the highest one set. */
  function BitLength(x: nat): nat {
    if x == 0 then 0 else 1 + BitLength(x / 2)
  }

  lemma {:induction false} BitLengthBounds(x: nat)
    requires x > 0
    ensures BitLength(x) > 0 && Pow2(BitLength(x) - 1) <= x < Pow2(BitLength(x))
  {
    if x > 1 {
      BitLengthBounds(x / 2);
    } else {
      assert BitLength(1) == 1 + BitLength(0);
      assert Pow2(1) == 2 * Pow2(0);
    }
  }

  lemma {:induction false} Pow2Monotone(m: nat, n: nat)
    requires m <= n
    ensures Pow2(m) <= Pow2(n)
  {
    if m < n {
      Pow2Monotone(m, n - 1);
    }
  }

  lemma {:induction false} Pow2Add(m: nat, n: nat)
    ensures Pow2(m + n) == Pow2(m) * Pow2(n)
  {
    if n > 0 {
      Pow2Add(m, n - 1);
      assert Pow2(m + n) == 2 * Pow2(m + n - 1);
    }
  }

  lemma Pow2Square(n: nat, v: nat)
    requires Pow2(n) == v
    ensures Pow2(2 * n) == v * v
  {
    Pow2Add(n, n);
  }

  lemma Pow2Values()
    ensures Pow2(0) == 1 && Pow2(1) == 2 && Pow2(2) == 4 && Pow2(3) == 8 && Pow2(4) == 16
    ensures Pow2(64) == W64 && Pow2(128) == W128
  {
    assert Pow2(1) == 2 * Pow2(0);
    assert Pow2(2) == 2 * Pow2(1);
    assert Pow2(3) == 2 * Pow2(2);
    assert Pow2(4) == 2 * Pow2(3);
    hide Pow2;
    Pow2Square(4, 0x10);
    Pow2Square(8, 0x100);
    Pow2Square(16, 0x1_0000);
    Pow2Square(32, 0x1_0000_0000);
    Pow2Square(64, W64);
  }

  lemma BitLength64(x: nat)
    requires 0 < x < W64
    ensures BitLength(x) <= 64
  {
    BitLengthBounds(x);
    Pow2Values();
    if BitLength(x) > 64 {
      Pow2Monotone(64, BitLength(x) - 1);
    }
  }

  /** `llvm.ctlz.i64` with `is_zero_poison`. */
  function Ctlz64(x: nat): (n: nat)
    requires 0 < x < W64
  {
    BitLength64(x);
    64 - BitLength(x)
  }

  /** `divq`: divides the 128-bit `hi:lo`. It faults unless the quotient fits 64
      bits, which is when the high word is below the divisor. */
  function Divq(lo: nat, hi: nat, d: nat): (nat, nat)
    requires lo < W64 && hi < d < W64
  {
    ((hi * W64 + lo) / d, (hi * W64 + lo) % d)
  }

  lemma {:induction false} AndComm(a: nat, b: nat)
    ensures And(a, b) == And(b, a)
  {
    if a != 0 && b != 0 {
      AndComm(a / 2, b / 2);
    }
  }

  lemma {:induction false} OrIsSum(a: nat, b: nat)
    requires And(a, b) == 0
    ensures Or(a, b) == a + b
  {
    if a != 0 && b != 0 {
      OrIsSum(a / 2, b / 2);
    }
  }

  /** A number shifted left by `k` shares no bit with one below `2^k`. */
  lemma {:induction false} ShiftedApart(a: nat, b: nat, k: nat)
    requires b < Pow2(k)
    ensures And(a * Pow2(k), b) == 0
  {
    if k > 0 {
      var x := a * Pow2(k);
      assert x == 2 * (a * Pow2(k - 1));
      ShiftedApart(a, b / 2, k - 1);
    }
  }

  lemma OrLow(a: nat, b: nat, k: nat)
    requires b < Pow2(k)
    ensures And(a * Pow2(k), b) == 0 && Or(a * Pow2(k), b) == a * Pow2(k) + b
    ensures And(b, a * Pow2(k)) == 0 && Or(b, a * Pow2(k)) == a * Pow2(k) + b
  {
    ShiftedApart(a, b, k);
    AndComm(a * Pow2(k), b);
    OrIsSum(a * Pow2(k), b);
    OrIsSum(b, a * Pow2(k));
  }
}
