/** The memory manager's arithmetic on 64-bit words, and exactly when it agrees
    with the unbounded arithmetic of the other modules. */
module SectionWords {
  import opened DivMod
  import opened Alignment
  import opened SectionMemory
  import opened SectionSteps
  import opened SectionReserve
  import opened MemoryManager
  import opened Wrappers
  import opened Numbers

  const WORD: nat := 0x1_0000_0000_0000_0000

  lemma {:induction false} PowersMultiply(a: nat, b: nat)
    requires PowerOfTwo(a) && PowerOfTwo(b)
    ensures PowerOfTwo(a * b)
  {
    if b > 1 {
      PowersMultiply(a, b / 2);
      assert a * b == 2 * (a * (b / 2));
      assert a * (b / 2) >= 1;
    }
  }

  lemma WordPower()
    ensures PowerOfTwo(WORD)
  {
    assert PowerOfTwo(4);
    hide PowerOfTwo;
    PowersMultiply(4, 4);
    PowersMultiply(0x10, 0x10);
    PowersMultiply(0x100, 0x100);
    PowersMultiply(0x1_0000, 0x1_0000);
    PowersMultiply(0x1_0000_0000, 0x1_0000_0000);
  }

  lemma WordMultiple(a: nat)
    requires PowerOfTwo(a) && a < WORD
    ensures a > 0 && WORD % a == 0 && WORD == (WORD / a) * a
  {
    hide PowerOfTwo;
    WordPower();
    PowersDivide(a, WORD);
  }

  // ---- Allocation ----

  lemma Unwrapped(x: int)
    requires 0 <= x < WORD
    ensures x % WORD == x
  {
  }

  function RequiredWord(size: nat, a: nat): nat
    requires a > 0
  {
    (a * ((size + a - 1) % WORD / a + 1)) % WORD
  }

  /** The required size is right exactly up to two alignments from the top;
      beyond, it is as small as nothing or one alignment. */
  lemma RequiredCases(size: nat, a: nat)
    requires PowerOfTwo(a) && a < 0x1_0000_0000_0000_0000 && size < 0x1_0000_0000_0000_0000
    ensures a > 0
    ensures RequiredWord(size, a) ==
      if size + 2 * a <= 0x1_0000_0000_0000_0000 then RequiredSize(size, a)
      else if size + a <= 0x1_0000_0000_0000_0000 then 0
      else a
    ensures size + 2 * a > 0x1_0000_0000_0000_0000 ==> RequiredSize(size, a) >= 0x1_0000_0000_0000_0000
  {
    WordMultiple(a);
    RequiredSizeIs(size, a);
    hide PowerOfTwo, RoundUp, RequiredSize, RequiredWord;
    if size + a <= WORD {
      LowRequired(size, a);
    } else {
      HighRequired(size, a);
    }
    if size + 2 * a > WORD {
      TopRequired(size, a);
    }
  }

  lemma LowRequired(size: nat, a: nat)
    requires a > 0 && a < WORD && WORD == (WORD / a) * a && size + a <= WORD
    ensures RequiredWord(size, a) == if size + 2 * a <= WORD then RequiredSize(size, a) else 0
  {
    Unwrapped(size + a - 1);
    SmallQuotient(size + a - 1, a);
  }

  lemma HighRequired(size: nat, a: nat)
    requires a > 0 && a < WORD && size < WORD && size + a > WORD
    ensures RequiredWord(size, a) == a
  {
    var s := size + a - 1;
    DivModUnique(s, 1, s - WORD, WORD);
    DivModUnique(s - WORD, 0, s - WORD, a);
    Unwrapped(a);
  }

  lemma SmallQuotient(s: nat, a: nat)
    requires a > 0 && a < WORD && s < WORD && WORD == (WORD / a) * a
    ensures (a * (s / a + 1)) % WORD == if s + a < WORD then a * (s / a + 1) else 0
  {
    var w, q := WORD / a, s / a;
    assert s == q * a + s % a;
    assert a * (q + 1) == q * a + a;
    if s + a < WORD {
      DivModUnique(a * (q + 1), 0, a * (q + 1), WORD);
    } else {
      assert (w - 1) * a == WORD - a;
      DivModUnique(s, w - 1, s - (WORD - a), a);
      assert a * (q + 1) == WORD;
    }
  }

  lemma TopRequired(size: nat, a: nat)
    requires a > 0 && a < WORD && WORD == (WORD / a) * a && size + 2 * a > WORD
    ensures RoundUp(size, a) + a >= WORD
  {
    var w := WORD / a;
    RoundMultiple(size, a);
    DivModUnique(WORD - a, w - 1, 0, a);
    assert (w - 1) * a == WORD - a;
    MultipleGap(RoundUp(size, a), WORD - a, a);
  }

  function AlignWord(addr: nat, a: nat): nat
    requires a > 0
  {
    RoundDown((addr + a - 1) % WORD, a)
  }

  /** What is left of the block behind the section. */
  function RestWord(f: FreeMemBlock, size: nat, a: nat): MemoryBlock
    requires a > 0
  {
    var addr := AlignWord(f.free.base, a);
    MemoryBlock((addr + size) % WORD, (f.free.End() % WORD - addr - size) % WORD)
  }

  function JoinedWord(pending: MemoryBlock, f: FreeMemBlock, size: nat, a: nat): MemoryBlock
    requires a > 0
  {
    MemoryBlock(pending.base, (AlignWord(f.free.base, a) + size - pending.base) % WORD)
  }

  function HandedWord(m: MemoryGroup, k: nat, size: nat, a: nat): MemoryGroup
    requires a > 0 && k < |m.freeMem|
    requires m.freeMem[k].pendingPrefixIndex.Some? ==> m.freeMem[k].pendingPrefixIndex.value < |m.pendingMem|
  {
    var f := m.freeMem[k];
    match f.pendingPrefixIndex
    case None =>
      m.(pendingMem := m.pendingMem + [MemoryBlock(AlignWord(f.free.base, a), size)],
         freeMem := m.freeMem[k := FreeMemBlock(RestWord(f, size, a), Some(|m.pendingMem|))])
    case Some(i) =>
      m.(pendingMem := m.pendingMem[i := JoinedWord(m.pendingMem[i], f, size, a)],
         freeMem := m.freeMem[k := FreeMemBlock(RestWord(f, size, a), Some(i))])
  }

  ghost function AllocateWord(m: MemoryGroup, r: Request): (MemoryGroup, Option<nat>)
    requires PrefixesValid(m)
  {
    var a := EffectiveAlign(r.align);
    var k := FirstFit(m.freeMem, RequiredWord(r.size, a));
    if k == |m.freeMem| then (m, None)
    else (HandedWord(m, k, r.size, a), Some(AlignWord(m.freeMem[k].free.base, a)))
  }

  /** The group lies in the address space, and a pending prefix ends where its
      free block starts, as `PrefixOk` says. */
  ghost predicate Addressable(m: MemoryGroup) {
    && PrefixesValid(m)
    && (forall k :: 0 <= k < |m.freeMem| ==> m.freeMem[k].free.End() < WORD)
    && (forall k :: 0 <= k < |m.freeMem| && m.freeMem[k].pendingPrefixIndex.Some? ==>
          m.pendingMem[m.freeMem[k].pendingPrefixIndex.value].End() == m.freeMem[k].free.base)
  }

  lemma AlignAgrees(f: FreeMemBlock, size: nat, a: nat)
    requires a > 0 && Fits(f, size, a) && f.free.End() < WORD
    ensures AlignWord(f.free.base, a) == SectionIn(f, size, a).base == RoundUp(f.free.base, a)
    ensures f.free.base <= RoundUp(f.free.base, a) && RoundUp(f.free.base, a) + size <= f.free.End()
  {
    RequiredSizeIs(size, a);
    SectionFits(f, size, a);
    Unwrapped(f.free.base + a - 1);
  }

  lemma RestAgrees(f: FreeMemBlock, size: nat, a: nat)
    requires a > 0 && Fits(f, size, a) && f.free.End() < WORD
    ensures RestWord(f, size, a) == Rest(f, size, a)
  {
    AlignAgrees(f, size, a);
    hide RoundUp, AlignWord, Fits;
    Unwrapped(f.free.End());
    Unwrapped(RoundUp(f.free.base, a) + size);
    Unwrapped(f.free.End() - RoundUp(f.free.base, a) - size);
  }

  lemma JoinedAgrees(p: MemoryBlock, f: FreeMemBlock, size: nat, a: nat)
    requires a > 0 && Fits(f, size, a) && f.free.End() < WORD && p.End() == f.free.base
    ensures JoinedWord(p, f, size, a) == UpTo(p.base, SectionIn(f, size, a).End())
  {
    AlignAgrees(f, size, a);
    hide RoundUp, AlignWord, Fits;
    Unwrapped(RoundUp(f.free.base, a) + size - p.base);
  }

  lemma HandedAgrees(m: MemoryGroup, k: nat, size: nat, a: nat)
    requires Addressable(m) && k < |m.freeMem| && a > 0 && Fits(m.freeMem[k], size, a)
    ensures AlignWord(m.freeMem[k].free.base, a) == SectionIn(m.freeMem[k], size, a).base
    ensures HandedWord(m, k, size, a) == Handed(m, k, size, a)
  {
    AlignAgrees(m.freeMem[k], size, a);
    RestAgrees(m.freeMem[k], size, a);
    if m.freeMem[k].pendingPrefixIndex.Some? {
      JoinedAgrees(m.pendingMem[m.freeMem[k].pendingPrefixIndex.value], m.freeMem[k], size, a);
    }
    hide RoundUp, AlignWord, Fits, RestWord, JoinedWord, Rest, UpTo, WORD;
  }

  lemma Oversized(f: FreeMemBlock, size: nat, a: nat)
    requires a > 0 && f.free.End() < WORD && 2 * a <= f.free.base && size + 2 * a > WORD
    ensures !Within(MemoryBlock(AlignWord(f.free.base, a), size), f.free)
  {
    var addr := AlignWord(f.free.base, a);
    if f.free.base + a - 1 < WORD {
      Unwrapped(f.free.base + a - 1);
      assert addr >= f.free.base;
    } else {
      DivModUnique(f.free.base + a - 1, 1, f.free.base + a - 1 - WORD, WORD);
      assert addr < f.free.base;
    }
  }

  /** The machine's allocation is the one proved right exactly if the request stays
      two alignments below the top of the address space, or is refused anyway. Any
      other request is granted a section that leaves its block, if only the block
      starts two alignments above the bottom. */
  lemma AllocationExact(m: MemoryGroup, r: Request)
    requires Addressable(m) && PowerOfTwo(EffectiveAlign(r.align))
    requires EffectiveAlign(r.align) < 0x1_0000_0000_0000_0000 && r.size < 0x1_0000_0000_0000_0000
    ensures var a := EffectiveAlign(r.align);
            var k := FirstFit(m.freeMem, RequiredWord(r.size, a));
            && (AllocateWord(m, r) == AllocateIn(m, r) <==> r.size + 2 * a <= 0x1_0000_0000_0000_0000 || k == |m.freeMem|)
            && (k < |m.freeMem| && r.size + 2 * a > 0x1_0000_0000_0000_0000 && 2 * a <= m.freeMem[k].free.base ==>
                  !Within(MemoryBlock(AllocateWord(m, r).1.value, r.size), m.freeMem[k].free))
  {
    var a := EffectiveAlign(r.align);
    RequiredCases(r.size, a);
    var k := FirstFit(m.freeMem, RequiredWord(r.size, a));
    if r.size + 2 * a <= WORD {
      if k < |m.freeMem| {
        HandedAgrees(m, k, r.size, a);
      }
    } else {
      Refused(m.freeMem, RequiredSize(r.size, a));
      if k < |m.freeMem| && 2 * a <= m.freeMem[k].free.base {
        Oversized(m.freeMem[k], r.size, a);
      }
    }
    hide RequiredWord, RequiredSize, PowerOfTwo, Handed, HandedWord, AlignWord, FirstFit;
  }

  lemma Refused(free: seq<FreeMemBlock>, required: nat)
    requires required >= WORD && forall k :: 0 <= k < |free| ==> free[k].free.End() < WORD
    ensures FirstFit(free, required) == |free|
  {
  }

  // ---- Reservation ----

  function RoundUpWord(x: nat, a: nat): nat
    requires a > 0
  {
    RoundDown((x + a - 1) % WORD, a)
  }

  function PaddedWord(size: nat, align: nat): nat
    requires align > 0
  {
    (RoundUpWord(size, Max(align, STUB_ALIGN)) + Max(align, STUB_ALIGN)) % WORD
  }

  function PartWord(r: Request, page: nat): nat
    requires r.align > 0 && page > 0
  {
    RoundUpWord(PaddedWord(r.size, r.align), page)
  }

  /** What the mapper is asked for. */
  function TotalWord(code: Request, ro: Request, rw: Request, page: nat): nat
    requires code.align > 0 && ro.align > 0 && rw.align > 0 && page > 0
  {
    (PartWord(code, page) + PartWord(ro, page) + PartWord(rw, page)) % WORD
  }

  lemma RoundUpAgrees(x: nat, a: nat)
    requires a > 0 && x + a <= WORD
    ensures RoundUpWord(x, a) == RoundUp(x, a)
  {
    Unwrapped(x + a - 1);
  }

  function Part(r: Request, page: nat): nat
    requires r.align > 0 && page > 0
  {
    var align := Max(r.align, STUB_ALIGN);
    RoundUp(RoundUp(r.size, align) + align, page)
  }

  lemma PageAbove(x: nat, page: nat)
    requires PowerOfTwo(page) && page < WORD && page > 0 && RoundUp(x, page) < WORD
    ensures x + page <= WORD
  {
    WordMultiple(page);
    RoundMultiple(x, page);
    hide PowerOfTwo, RoundUp, WORD;
    MultipleGap(RoundUp(x, page), WORD, page);
    assert x <= RoundUp(x, page);
  }

  lemma PartAgrees(r: Request, page: nat)
    requires r.align > 0 && page > 0 && PowerOfTwo(page) && page < WORD
    ensures Part(r, page) < WORD ==> PartWord(r, page) == Part(r, page)
  {
    hide PowerOfTwo, RoundUp, RoundUpWord;
    var align := Max(r.align, STUB_ALIGN);
    var padded := RoundUp(r.size, align) + align;
    if Part(r, page) < WORD {
      PageAbove(padded, page);
      RoundUpAgrees(r.size, align);
      Unwrapped(padded);
      RoundUpAgrees(padded, page);
    }
  }

  lemma PartsAgree(a: nat, b: nat, c: nat, a': nat, b': nat, c': nat)
    requires a < WORD ==> a' == a
    requires b < WORD ==> b' == b
    requires c < WORD ==> c' == c
    ensures (a' + b' + c') % WORD == a + b + c <==> a + b + c < WORD
  {
    if a + b + c < WORD {
      Unwrapped(a + b + c);
    }
  }

  lemma TotalParts(m: LlvmliteMemoryManager, code: Request, ro: Request, rw: Request)
    requires m.pageSize > 0 && code.align > 0 && ro.align > 0 && rw.align > 0
    ensures m.Total(code, ro, rw) == Part(code, m.pageSize) + Part(ro, m.pageSize) + Part(rw, m.pageSize)
  {
    hide RoundUp;
  }

  /** The size asked of the mapper is the unbounded one exactly if that is a word. */
  lemma ReservationExact(m: LlvmliteMemoryManager, code: Request, ro: Request, rw: Request)
    requires m.pageSize > 0 && PowerOfTwo(m.pageSize) && m.pageSize < 0x1_0000_0000_0000_0000
    requires code.align > 0 && ro.align > 0 && rw.align > 0
    ensures TotalWord(code, ro, rw, m.pageSize) == m.Total(code, ro, rw) <==> m.Total(code, ro, rw) < 0x1_0000_0000_0000_0000
  {
    hide PartWord, Part, PowerOfTwo;
    TotalParts(m, code, ro, rw);
    PartAgrees(code, m.pageSize);
    PartAgrees(ro, m.pageSize);
    PartAgrees(rw, m.pageSize);
    PartsAgree(Part(code, m.pageSize), Part(ro, m.pageSize), Part(rw, m.pageSize),
               PartWord(code, m.pageSize), PartWord(ro, m.pageSize), PartWord(rw, m.pageSize));
  }
}
