/** 128-bit unsigned division on 64-bit halves: the quotient helper, unrolled by
    two, and the remainder helper, unrolled by four. */
module Int128Division {
  import opened DivMod
  import opened WideWords

  function Join(lo: nat, hi: nat): nat {
    hi * W64 + lo
  }

  /** The two halves put together with a shift and an `or disjoint`. */
  function Joined(lo: nat, hi: nat): (x: nat)
    requires lo < W64 && hi < W64
    ensures x == Join(lo, hi) < W128
  {
    Pow2Values();
    OrLow(hi, lo, 64);
    OrDisjoint(ShlNuw(hi, 64), lo)
  }

  /** Part way through shift-subtract: `m` steps remain, `q` holds the quotient
      bits found so far and `r` is what is left of the dividend. */
  ghost predicate Reduced(a: nat, b: nat, m: nat, q: nat, r: nat) {
    a == q * Scaled(b, m) + r && r < Scaled(b, m)
  }

  /** The divisor shifted left by `m`, as a number. */
  ghost function Scaled(b: nat, m: nat): nat {
    b * Pow2(m)
  }

  lemma Doubled(b: nat, m: nat)
    requires m > 0
    ensures b * Pow2(m) == 2 * (b * Pow2(m - 1))
  {
  }

  /** One step: subtract the shifted divisor if it fits. */
  lemma ReduceStep(a: nat, b: nat, m: nat, q: nat, r: nat)
    requires m > 0 && Reduced(a, b, m, q, r)
    ensures var d := Scaled(b, m - 1);
            if r >= d then Reduced(a, b, m - 1, 2 * q + 1, r - d) else Reduced(a, b, m - 1, 2 * q, r)
  {
    Doubled(b, m);
    StepArithmetic(q, b * Pow2(m - 1), a - r);
  }

  lemma StepArithmetic(q: nat, d: nat, x: int)
    requires x == q * (2 * d)
    ensures x == (2 * q) * d && x + d == (2 * q + 1) * d
  {
  }

  lemma ReducedDone(a: nat, b: nat, q: nat, r: nat)
    requires b > 0 && Reduced(a, b, 0, q, r)
    ensures q == a / b && r == a % b
  {
    assert b * Pow2(0) == b;
    DivModUnique(a, q, r, b);
  }

  /** The quotient bits found so far, shifted to their place, do not exceed `a`. */
  lemma QuotientBound(a: nat, b: nat, m: nat, q: nat, r: nat)
    requires b > 0 && Reduced(a, b, m, q, r)
    ensures q * Pow2(m) <= a
  {
    hide Pow2;
    var p := Pow2(m);
    MulMonotone(1, b, p);
    MulMonotone(p, b * p, q);
  }

  lemma MulMonotone(x: nat, y: nat, k: nat)
    requires x <= y
    ensures k * x <= k * y
  {
  }

  lemma ShiftDown(b: nat, m: nat, k: nat)
    requires k <= m
    ensures Lshr(Scaled(b, m), k) == Scaled(b, m - k)
  {
    Pow2Add(m - k, k);
    assert b * Pow2(m) == (b * Pow2(m - k)) * Pow2(k);
    LshrIs(b * Pow2(m), k, b * Pow2(m - k), 0);
  }

  /** How far the divisor is shifted: the difference of the leading zeros. */
  function ShiftOf(aHi: nat, bHi: nat): int
    requires 0 < aHi < W64 && 0 < bHi < W64
  {
    Ctlz64(bHi) - Ctlz64(aHi)
  }

  lemma {:induction false} BitLengthMonotone(x: nat, y: nat)
    requires x <= y
    ensures BitLength(x) <= BitLength(y)
  {
    if x > 0 {
      BitLengthMonotone(x / 2, y / 2);
    }
  }

  /** The shift is not negative, the shifted divisor does not wrap, and one more
      shift would exceed the dividend. */
  lemma ShiftFits(aLo: nat, aHi: nat, bLo: nat, bHi: nat)
    requires aLo < W64 && aHi < W64 && bLo < W64 && 0 < bHi < W64
    requires Join(aLo, aHi) >= Join(bLo, bHi)
    ensures aHi >= bHi && 0 <= ShiftOf(aHi, bHi) <= 63
    ensures Scaled(Join(bLo, bHi), ShiftOf(aHi, bHi)) < W128
    ensures Join(aLo, aHi) < Scaled(Join(bLo, bHi), ShiftOf(aHi, bHi) + 1)
  {
    assert aHi >= bHi;
    BitLengthMonotone(bHi, aHi);
    BitLengthBounds(aHi);
    BitLengthBounds(bHi);
    BitLength64(aHi);
    BitLength64(bHi);
    var la, lb := BitLength(aHi), BitLength(bHi);
    var sr := la - lb;
    assert ShiftOf(aHi, bHi) == sr;
    Pow2Add(lb, sr);
    Pow2Add(lb - 1, sr + 1);
    Pow2Monotone(la, 64);
    Pow2Values();
    hide Pow2, BitLength;
    ShiftedHigh(bLo, bHi, Pow2(lb), Pow2(sr));
    ShiftedLow(bLo, bHi, Pow2(lb - 1), Pow2(sr + 1));
    assert Pow2(lb - 1) * Pow2(sr + 1) == Pow2(la);
    assert Join(aLo, aHi) < Pow2(la) * W64;
    assert Pow2(la) * W64 <= W64 * W64;
  }

  lemma ShiftedHigh(bLo: nat, bHi: nat, p: nat, s: nat)
    requires bLo < W64 && bHi < p && s > 0
    ensures Join(bLo, bHi) * s < (p * s) * W64
  {
    assert Join(bLo, bHi) < p * W64;
    assert (p * W64) * s == (p * s) * W64;
    StrictMul(Join(bLo, bHi), p * W64, s);
  }

  lemma StrictMul(x: nat, y: nat, s: nat)
    requires x < y && s > 0
    ensures x * s < y * s
  {
  }

  lemma ShiftedLow(bLo: nat, bHi: nat, p: nat, s: nat)
    requires p <= bHi
    ensures (p * s) * W64 <= Join(bLo, bHi) * s
  {
    assert (p * s) * W64 == (p * W64) * s;
    MulMonotone(p * W64, Join(bLo, bHi), s);
  }

  /** Two quotient bits at once: `q` moved up by two, with the two new bits or-ed
      in. All three ors are disjoint and the shift does not wrap. */
  lemma TwoBits(a: nat, b: nat, m: nat, q: nat, r: nat, hiBit: nat, loBit: nat)
    requires b > 0 && a < W128 && m >= 2 && Reduced(a, b, m, q, r)
    requires hiBit in {0, 2} && loBit in {0, 1}
    ensures Shl(q, 2) == 4 * q
    ensures And(hiBit, loBit) == 0 && Or(hiBit, loBit) == hiBit + loBit
    ensures And(hiBit + loBit, Shl(q, 2)) == 0 && Or(hiBit + loBit, Shl(q, 2)) == 4 * q + hiBit + loBit
  {
    hide Pow2, And, Or, Reduced;
    QuotientBound(a, b, m, q, r);
    Pow2Values();
    Pow2Monotone(2, m);
    MulMonotone(4, Pow2(m), q);
    assert Shl(q, 2) == q * 4 % W128;
    OrLow(hiBit / 2, loBit, 1);
    OrLow(q, hiBit + loBit, 2);
  }

  /** The last bit of an odd number of steps. */
  lemma LastBit(a: nat, b: nat, q: nat, r: nat, bit: nat)
    requires b > 0 && a < W128 && Reduced(a, b, 1, q, r) && bit in {0, 1}
    ensures Shl(q, 1) == 2 * q
    ensures And(Shl(q, 1), bit) == 0 && Or(Shl(q, 1), bit) == 2 * q + bit
  {
    hide Pow2, And, Or, Reduced;
    QuotientBound(a, b, 1, q, r);
    Pow2Values();
    OrLow(q, bit, 1);
  }

  lemma LastSmall(q: nat, a: nat, b: nat, r: nat)
    requires b > 0 && a < W128 && Reduced(a, b, 0, q, r)
    ensures q < W128
  {
    QuotientBound(a, b, 0, q, r);
  }

  lemma HighHalf(x: nat)
    requires x < W128
    ensures Lshr(x, 64) == x / W64 < W64 && x == Join(x % W64, x / W64)
  {
    Pow2Values();
    LshrIs(x, 64, x / W64, x % W64);
  }

  /** The divisor fits 64 bits: at most one division of the high word, then one
      `divq`, whose quotient always fits. */
  lemma ShortDivision(aLo: nat, aHi: nat, b: nat)
    requires aLo < W64 && aHi < W64 && 0 < b < W64
    ensures var qr := Divq(aLo, aHi % b, b);
            && qr.0 < W64 && Join(qr.0, aHi / b) == Join(aLo, aHi) / b
            && qr.1 == Join(aLo, aHi) % b
  {
    var h, x := aHi % b, aHi / b;
    var y := h * W64 + aLo;
    var q, r := y / b, y % b;
    assert y == q * b + r;
    assert aHi == x * b + h;
    assert Join(aLo, aHi) == (x * b) * W64 + y;
    ShortRegroup(x, b, q, r);
    DivModUnique(Join(aLo, aHi), x * W64 + q, r, b);
    QuotientFits(q, b, h, aLo, r);
  }

  lemma ShortRegroup(x: nat, b: nat, q: nat, r: nat)
    ensures (x * b) * W64 + (q * b + r) == (x * W64 + q) * b + r
  {
    assert (x * b) * W64 == (x * W64) * b;
  }

  lemma QuotientFits(q: nat, b: nat, h: nat, lo: nat, r: nat)
    requires h < b && lo < W64 && h * W64 + lo == q * b + r
    ensures q < W64
  {
    MulMonotone(h + 1, b, W64);
    if q >= W64 {
      MulMonotone(W64, q, b);
    }
  }

  method Udivti3(aLo: nat, aHi: nat, bLo: nat, bHi: nat) returns (qLo: nat, qHi: nat)
    requires aLo < W64 && aHi < W64 && bLo < W64 && bHi < W64 && Join(bLo, bHi) > 0
    ensures qLo < W64 && qHi < W64
    ensures Join(qLo, qHi) == Join(aLo, aHi) / Join(bLo, bHi)
  {
    var a, b := Joined(aLo, aHi), Joined(bLo, bHi);
    if bHi == 0 {
      var high, rest := 0, aHi;
      if aHi >= bLo {
        high, rest := aHi / bLo, aHi % bLo;
      }
      ShortDivision(aLo, aHi, bLo);
      SmallHigh(aHi, bLo);
      var (q, _) := Divq(aLo, rest, bLo);
      return q, high;
    }
    if a < b {
      SmallDividend(a, b);
      return 0, 0;
    }
    ShiftFits(aLo, aHi, bLo, bHi);
    var lz3, lz1 := Ctlz64(bHi), Ctlz64(aHi);
    var sr: int := lz3 - lz1;
    if sr < 0 {
      assert false;
    }
    qLo, qHi := DivideShifted(a, b, sr);
  }

  lemma SmallHigh(hi: nat, b: nat)
    requires b > 0
    ensures hi < b ==> hi / b == 0 && hi % b == hi
    ensures hi / b <= hi
  {
    if hi < b {
      DivModUnique(hi, 0, hi, b);
    }
    var q := hi / b;
    assert hi == q * b + hi % b;
    MulMonotone(1, b, q);
  }

  lemma SmallDividend(a: nat, b: nat)
    requires a < b
    ensures a / b == 0 && a % b == a
  {
    DivModUnique(a, 0, a, b);
  }

  lemma StartReduced(a: nat, b: nat, n: nat)
    requires a < Scaled(b, n)
    ensures Reduced(a, b, n, 0, a)
  {
  }

  /** The shift-subtract loop of the quotient, two bits a round. It returns the
      quotient so far, the same before the last two bits were or-ed in, what is
      left of the dividend, and the next shifted divisor. */
  method DivideLoop(a: nat, b: nat, sr: nat, d0: nat, count: nat)
    returns (acc: nat, shifted: nat, r: nat, d: nat)
    requires 0 < b && a < W128 && a < Scaled(b, sr + 1) && d0 == Scaled(b, sr)
    requires 0 < count <= sr + 1 && count % 2 == 0
    ensures Reduced(a, b, sr + 1 - count, acc, r)
    ensures sr + 1 - count > 0 ==> d == Scaled(b, sr - count)
    ensures shifted % 4 == 0 && shifted <= acc < shifted + 4
  {
    hide Reduced, Scaled, Pow2;
    acc, shifted, r, d := 0, 0, a, d0;
    var i := 0;
    StartReduced(a, b, sr + 1);
    ghost var round, rounds := 0, count / 2;
    while i != count
      invariant 0 <= round <= rounds && i == 2 * round && count == 2 * rounds
      invariant Reduced(a, b, sr + 1 - i, acc, r)
      invariant sr + 1 - i > 0 ==> d == Scaled(b, sr - i)
      invariant i > 0 ==> shifted % 4 == 0 && shifted <= acc < shifted + 4
      decreases count - i
    {
      acc, shifted, r, d := TwoSteps(a, b, sr + 1 - i, acc, r, d);
      i := i + 2;
      round := round + 1;
    }
  }

  /** The quotient for a divisor shifted by `sr`: the loop, its bypass when there
      is one bit only, and the tail that both reach. The poison operands of the
      phis that merge them are arbitrary values here. */
  method DivideShifted(a: nat, b: nat, sr: nat) returns (qLo: nat, qHi: nat)
    requires 0 < b && a < W128 && sr <= 63
    requires Scaled(b, sr) < W128 && a < Scaled(b, sr + 1)
    ensures qLo < W64 && qHi < W64 && Join(qLo, qHi) == a / b
  {
    var d := Shl(b, sr);
    var odd := (sr + 1) % 2;
    var evenLo, evenHi: nat := *, *;
    var q, r := 0, a;
    ghost var acc := 0;
    StartReduced(a, b, sr + 1);
    if sr != 0 {
      var found, shifted;
      found, shifted, r, d := DivideLoop(a, b, sr, d, sr + 1 - odd);
      acc := found;
      LastEvenHalf(a, b, odd, found, r, shifted);
      HighHalf(shifted);
      evenHi := TruncNuw64(Lshr(shifted, 64));
      evenLo := Trunc64(found);
      q := Shl(found, 1);
    }
    hide Reduced, Scaled, Pow2, Shl, Lshr;
    qLo, qHi := Tail(a, b, odd, acc, q, r, d, evenLo, evenHi);
  }

  lemma DoubledEven(x: nat, bit: nat)
    requires bit in {0, 1}
    ensures Shl(x, 1) % 2 == 0 && Shl(x, 1) < W128 && And(Shl(x, 1), bit) == 0
  {
    hide Pow2, And;
    Pow2Values();
    var y := Shl(x, 1) / 2;
    assert Shl(x, 1) == 2 * y;
    OrLow(y, bit, 1);
  }

  /** The tail runs whether or not a bit is left; its result is selected when the
      number of bits is odd. */
  method Tail(a: nat, b: nat, odd: nat, ghost acc: nat, q: nat, r: nat, d: nat, evenLo: nat, evenHi: nat)
    returns (qLo: nat, qHi: nat)
    requires b > 0 && a < W128 && odd in {0, 1} && Reduced(a, b, odd, acc, r)
    requires q == Shl(acc, 1)
    requires odd == 1 ==> d == Scaled(b, 0)
    requires odd == 0 ==> evenLo < W64 && evenHi < W64 && acc == Join(evenLo, evenHi)
    ensures qLo < W64 && qHi < W64 && Join(qLo, qHi) == a / b
  {
    var bit := if r >= d then 1 else 0;
    DoubledEven(acc, bit);
    var full := OrDisjoint(q, bit);
    HighHalf(q);
    var oddHi := TruncNuw64(Lshr(q, 64));
    var oddLo := Trunc64(full);
    if odd == 0 {
      ReducedDone(a, b, acc, r);
      return evenLo, evenHi;
    }
    TailBit(a, b, acc, r, d, bit);
    return oddLo, oddHi;
  }

  lemma TailBit(a: nat, b: nat, acc: nat, r: nat, d: nat, bit: nat)
    requires b > 0 && a < W128 && Reduced(a, b, 1, acc, r) && d == Scaled(b, 0)
    requires bit == if r >= d then 1 else 0
    ensures Or(Shl(acc, 1), bit) == a / b == Join(Or(Shl(acc, 1), bit) % W64, Lshr(Shl(acc, 1), 64))
  {
    ReduceStep(a, b, 1, acc, r);
    LastBit(a, b, acc, r, bit);
    var q := 2 * acc + bit;
    var r' := if r >= d then r - d else r;
    ReducedDone(a, b, q, r');
    LastSmall(q, a, b, r');
    HighHalf(q);
    HighHalf(2 * acc);
    EvenHalf(acc, bit);
  }

  lemma EvenHalf(acc: nat, bit: nat)
    requires bit in {0, 1}
    ensures (2 * acc + bit) / W64 == (2 * acc) / W64
  {
  }

  /** The body of the loop: two bits of the quotient. `shifted` is the quotient
      before the new bits are or-ed in. */
  method TwoSteps(a: nat, b: nat, m: nat, acc: nat, r: nat, d: nat)
    returns (acc': nat, shifted: nat, r': nat, d': nat)
    requires b > 0 && a < W128 && m >= 2 && Reduced(a, b, m, acc, r) && d == Scaled(b, m - 1)
    ensures Reduced(a, b, m - 2, acc', r')
    ensures m > 2 ==> d' == Scaled(b, m - 3)
    ensures shifted == 4 * acc && shifted <= acc' < shifted + 4
  {
    ReduceStep(a, b, m, acc, r);
    var below := r < d;
    var first := if below then 0 else d;
    var r1 := SubNuw(r, first);
    ShiftDown(b, m - 1, 1);
    var half := Lshr(d, 1);
    ghost var acc1 := if below then 2 * acc else 2 * acc + 1;
    ReduceStep(a, b, m - 1, acc1, r1);
    shifted := Shl(acc, 2);
    var hiBit := if below then 0 else 2;
    var fits := r1 >= half;
    var second := if fits then half else 0;
    r' := SubNuw(r1, second);
    var loBit := if fits then 1 else 0;
    TwoBits(a, b, m, acc, r, hiBit, loBit);
    var bits := OrDisjoint(hiBit, loBit);
    acc' := OrDisjoint(bits, shifted);
    if m > 2 {
      ShiftDown(b, m - 1, 2);
    }
    d' := Lshr(d, 2);
  }

  lemma QuarterHalf(k: nat, c: nat)
    requires c < 4
    ensures (4 * k + c) / W64 == (4 * k) / W64
  {
  }

  lemma LastEvenHalf(a: nat, b: nat, m: nat, acc: nat, r: nat, shifted: nat)
    requires b > 0 && a < W128 && m <= 1 && Reduced(a, b, m, acc, r)
    requires shifted % 4 == 0 && shifted <= acc < shifted + 4
    ensures acc < W128 && shifted < W128
    ensures acc / W64 == shifted / W64
  {
    hide Pow2, Reduced;
    QuotientBound(a, b, m, acc, r);
    MulMonotone(1, Pow2(m), acc);
    QuarterHalf(shifted / 4, acc - shifted);
  }

  // ---- The remainder helper ----

  method Umodti3(aLo: nat, aHi: nat, bLo: nat, bHi: nat) returns (rLo: nat, rHi: nat)
    requires aLo < W64 && aHi < W64 && bLo < W64 && bHi < W64 && Join(bLo, bHi) > 0
    ensures rLo < W64 && rHi < W64
    ensures Join(rLo, rHi) == Join(aLo, aHi) % Join(bLo, bHi)
  {
    var a, b := Joined(aLo, aHi), Joined(bLo, bHi);
    if bHi == 0 {
      var rest := aHi;
      if aHi >= bLo {
        rest := aHi % bLo;
      }
      ShortDivision(aLo, aHi, bLo);
      SmallHigh(aHi, bLo);
      var (_, r) := Divq(aLo, rest, bLo);
      return r, 0;
    }
    if a < b {
      SmallDividend(a, b);
      return aLo, aHi;
    }
    ShiftFits(aLo, aHi, bLo, bHi);
    var lz3, lz1 := Ctlz64(bHi), Ctlz64(aHi);
    var sr: int := lz3 - lz1;
    if sr < 0 {
      assert false;
    }
    rLo, rHi := RemainderShifted(a, b, sr);
  }

  /** One compare and subtract, as each quarter of the unrolled loop does it. The
      quotient bits are kept only in the proof. */
  method SubtractStep(ghost a: nat, ghost b: nat, ghost m: nat, ghost q: nat, r: nat, d: nat)
    returns (r': nat, ghost q': nat)
    requires m > 0 && Reduced(a, b, m, q, r) && d == Scaled(b, m - 1)
    ensures Reduced(a, b, m - 1, q', r')
  {
    ReduceStep(a, b, m, q, r);
    var subtrahend := if r < d then 0 else d;
    q' := if r < d then 2 * q else 2 * q + 1;
    r' := SubNuw(r, subtrahend);
  }

  /** The loop, four compare-and-subtract steps a round. */
  method RemainderLoop(a: nat, b: nat, n: nat, d0: nat, count: nat) returns (r: nat, d: nat, ghost q: nat)
    requires 0 < count <= n && count % 4 == 0 && a < Scaled(b, n) && d0 == Scaled(b, n - 1)
    ensures Reduced(a, b, n - count, q, r)
    ensures n - count > 0 ==> d == Scaled(b, n - count - 1)
  {
    hide Reduced, Scaled, Pow2;
    r, d, q := a, d0, 0;
    StartReduced(a, b, n);
    var i := 0;
    ghost var round, rounds := 0, count / 4;
    while i != count
      invariant 0 <= round <= rounds && i == 4 * round && count == 4 * rounds
      invariant Reduced(a, b, n - i, q, r)
      invariant n - i > 0 ==> d == Scaled(b, n - i - 1)
      decreases count - i
    {
      r, d, q := FourSteps(a, b, n - i, q, r, d);
      i := i + 4;
      round := round + 1;
    }
  }

  /** The tail, one step at a time. */
  method RemainderTail(ghost a: nat, ghost b: nat, ghost q0: nat, r0: nat, d0: nat, tail: nat)
    returns (r: nat, ghost q: nat)
    requires 0 < tail && Reduced(a, b, tail, q0, r0) && d0 == Scaled(b, tail - 1)
    ensures Reduced(a, b, 0, q, r)
  {
    hide Reduced, Scaled, Pow2, Lshr;
    r, q := r0, q0;
    var d, k := d0, 0;
    while k != tail
      invariant 0 <= k <= tail
      invariant Reduced(a, b, tail - k, q, r)
      invariant tail - k > 0 ==> d == Scaled(b, tail - k - 1)
      decreases tail - k
    {
      r, q := SubtractStep(a, b, tail - k, q, r, d);
      if tail - k > 1 {
        ShiftDown(b, tail - k - 1, 1);
      }
      d := Lshr(d, 1);
      k := k + 1;
    }
  }

  method RemainderShifted(a: nat, b: nat, sr: nat) returns (rLo: nat, rHi: nat)
    requires 0 < b && a < W128 && sr <= 63
    requires Scaled(b, sr) < W128 && a < Scaled(b, sr + 1)
    ensures rLo < W64 && rHi < W64 && Join(rLo, rHi) == a % b
  {
    var d := Shl(b, sr);
    assert d == Scaled(b, sr);
    var tail := (sr + 1) % 4;
    var poisonLo, poisonHi: nat := *, *;
    rLo, rHi := poisonLo, poisonHi;
    var r := a;
    ghost var q := 0;
    StartReduced(a, b, sr + 1);
    hide Scaled, Pow2, Shl, Lshr, Reduced;
    if sr >= 3 {
      r, d, q := RemainderLoop(a, b, sr + 1, d, sr + 1 - tail);
      RemainderBelow(a, b, tail, q, r);
      HighHalf(r);
      rLo, rHi := Trunc64(r), TruncNuw64(Lshr(r, 64));
    }
    if tail == 0 {
      ReducedDone(a, b, q, r);
      return;
    }
    r, q := RemainderTail(a, b, q, r, d, tail);
    RemainderBelow(a, b, 0, q, r);
    ReducedDone(a, b, q, r);
    HighHalf(r);
    rLo, rHi := Trunc64(r), TruncNuw64(Lshr(r, 64));
  }

  lemma RemainderBelow(a: nat, b: nat, m: nat, q: nat, r: nat)
    requires Reduced(a, b, m, q, r)
    ensures r <= a
  {
  }

  method FourSteps(ghost a: nat, ghost b: nat, ghost m: nat, ghost q: nat, r: nat, d: nat)
    returns (r': nat, d': nat, ghost q': nat)
    requires m >= 4 && Reduced(a, b, m, q, r) && d == Scaled(b, m - 1)
    ensures Reduced(a, b, m - 4, q', r')
    ensures m > 4 ==> d' == Scaled(b, m - 5)
  {
    ShiftDown(b, m - 1, 1);
    ShiftDown(b, m - 1, 2);
    ShiftDown(b, m - 1, 3);
    if m > 4 {
      ShiftDown(b, m - 1, 4);
    }
    r', q' := SubtractStep(a, b, m, q, r, d);
    r', q' := SubtractStep(a, b, m - 1, q', r', Lshr(d, 1));
    r', q' := SubtractStep(a, b, m - 2, q', r', Lshr(d, 2));
    r', q' := SubtractStep(a, b, m - 3, q', r', Lshr(d, 3));
    d' := Lshr(d, 4);
  }
}
