/** The reserve-then-allocate contract: space once reserved is never refused. */
module SectionReserve {
  import opened Alignment
  import opened SectionMemory
  import opened SectionSteps
  import opened Wrappers

  const STUB_ALIGN: nat := 8

  /** `budget` bytes of `align`-padded sections, and one more alignment, remain
      behind the first aligned address. The block ends aligned. */
  ghost predicate Room(b: MemoryBlock, align: nat, budget: nat)
    requires align > 0
  {
    b.End() % align == 0 && RoundUp(b.base, align) + budget + align <= b.End()
  }

  ghost predicate HasRoom(m: MemoryGroup, align: nat, budget: nat)
    requires align > 0
  {
    exists k :: 0 <= k < |m.freeMem| && Room(m.freeMem[k].free, align, budget)
  }

  lemma RoomFits(f: FreeMemBlock, align: nat, budget: nat, size: nat, a: nat)
    requires PowerOfTwo(align) && PowerOfTwo(a) && a <= align && RoundUp(size, align) <= budget
    requires Room(f.free, align, budget)
    ensures Fits(f, size, a)
  {
    PowersDivide(a, align);
    RoundUpCoarser(size, a, align);
    RequiredSizeIs(size, a);
    hide RoundUp, RoundDown, RequiredSize, PowerOfTwo;
    assert f.free.base <= RoundUp(f.free.base, align);
  }

  lemma RoomShrinks(b: MemoryBlock, b': MemoryBlock, align: nat, budget: nat, c: nat)
    requires align > 0 && Room(b, align, budget) && c <= budget
    requires b'.End() == b.End() && RoundUp(b'.base, align) <= RoundUp(b.base, align) + c
    ensures Room(b', align, budget - c)
  {
  }

  /** A section placed at any finer alignment moves the next aligned address by
      no more than its padded size. */
  lemma NextAligned(base: nat, size: nat, a: nat, align: nat)
    requires PowerOfTwo(align) && PowerOfTwo(a) && a <= align
    ensures RoundUp(RoundUp(base, a) + size, align) <= RoundUp(base, align) + RoundUp(size, align)
  {
    PowersDivide(a, align);
    RoundUpCoarser(base, a, align);
    RoundMultiple(base, align);
    RoundUpPlus(RoundUp(base, align), size, align);
    RoundUpMonotone(RoundUp(base, a) + size, RoundUp(base, align) + size, align);
  }

  lemma RoomRemains(f: FreeMemBlock, align: nat, budget: nat, size: nat, a: nat)
    requires PowerOfTwo(align) && PowerOfTwo(a) && a <= align && RoundUp(size, align) <= budget
    requires Room(f.free, align, budget)
    ensures Room(Rest(f, size, a), align, budget - RoundUp(size, align))
  {
    NextAligned(f.free.base, size, a, align);
    hide RoundUp, RoundDown, PowerOfTwo;
    var rest := Rest(f, size, a);
    assert rest.base <= RoundUp(rest.base, align) <= f.free.End();
    RoomShrinks(f.free, rest, align, budget, RoundUp(size, align));
  }

  /** A block with room takes any section that fits the budget, and has room for
      the rest of the budget afterwards, wherever the block happens to start. */
  lemma RoomTakes(f: FreeMemBlock, align: nat, budget: nat, size: nat, a: nat)
    requires PowerOfTwo(align) && PowerOfTwo(a) && a <= align && RoundUp(size, align) <= budget
    requires Room(f.free, align, budget)
    ensures Fits(f, size, a)
    ensures Room(Rest(f, size, a), align, budget - RoundUp(size, align))
  {
    RoomFits(f, align, budget, size, a);
    RoomRemains(f, align, budget, size, a);
  }

  /** Leftover space that `hasSpace` accepts has room although it may start at
      any address. This is where it matters that free blocks end on a page. */
  lemma LeftoverHasRoom(b: MemoryBlock, page: nat, align: nat, size: nat)
    requires PowerOfTwo(page) && PowerOfTwo(align) && align <= page && b.End() % page == 0
    requires b.size >= RoundUp(size, align) + align
    ensures Room(b, align, RoundUp(size, align))
  {
    PowersDivide(align, page);
    MultipleOfDivisor(b.End(), align, page);
    RoundMultiple(b.base, align);
    RoundMultiple(size, align);
    hide RoundUp;
    var u, c := RoundUp(b.base, align), RoundUp(size, align);
    SumMultiple(b.End(), u, align);
    MultipleGap(c, b.End() - u, align);
  }

  lemma FreshHasRoom(base: nat, page: nat, align: nat, size: nat, reserved: nat)
    requires PowerOfTwo(page) && PowerOfTwo(align) && align <= page && base % page == 0
    requires reserved == RoundUp(RoundUp(size, align) + align, page)
    ensures Room(MemoryBlock(base, reserved), align, RoundUp(size, align))
  {
    RoundMultiple(RoundUp(size, align) + align, page);
    SumMultiple(base, reserved, page);
    LeftoverHasRoom(MemoryBlock(base, reserved), page, align, size);
  }

  // ---- First-fit allocation, as a function of the group ----

  function FirstFit(free: seq<FreeMemBlock>, required: nat): (k: nat)
    ensures k <= |free| && (k < |free| ==> free[k].free.size >= required)
    ensures forall j :: 0 <= j < k ==> free[j].free.size < required
  {
    if free == [] then 0
    else if free[0].free.size >= required then 0
    else 1 + FirstFit(free[1..], required)
  }

  function EffectiveAlign(a: nat): nat {
    if a == 0 then STUB_ALIGN else a
  }

  ghost predicate PrefixesValid(m: MemoryGroup) {
    forall k :: 0 <= k < |m.freeMem| && m.freeMem[k].pendingPrefixIndex.Some? ==>
                  m.freeMem[k].pendingPrefixIndex.value < |m.pendingMem|
  }

  datatype Request = Request(size: nat, align: nat)

  /** The address given out, if any, and the group afterwards. */
  ghost function AllocateIn(m: MemoryGroup, r: Request): (MemoryGroup, Option<nat>)
    requires PrefixesValid(m)
  {
    var a := EffectiveAlign(r.align);
    var k := FirstFit(m.freeMem, RequiredSize(r.size, a));
    if k == |m.freeMem| then (m, None)
    else (Handed(m, k, r.size, a), Some(SectionIn(m.freeMem[k], r.size, a).base))
  }

  lemma AllocateKeepsPrefixes(m: MemoryGroup, r: Request)
    requires PrefixesValid(m)
    ensures PrefixesValid(AllocateIn(m, r).0)
  {
  }

  /** One request within the budget is granted, and the rest of the budget stays
      available, also when first-fit serves the request from another block. */
  lemma RoomServes(m: MemoryGroup, align: nat, budget: nat, r: Request)
    requires PrefixesValid(m) && PowerOfTwo(align) && align >= STUB_ALIGN && HasRoom(m, align, budget)
    requires PowerOfTwo(EffectiveAlign(r.align)) && r.align <= align && RoundUp(r.size, align) <= budget
    ensures AllocateIn(m, r).1.Some?
    ensures HasRoom(AllocateIn(m, r).0, align, budget - RoundUp(r.size, align))
  {
    var a := EffectiveAlign(r.align);
    var x :| 0 <= x < |m.freeMem| && Room(m.freeMem[x].free, align, budget);
    RoomTakes(m.freeMem[x], align, budget, r.size, a);
    var k := FirstFit(m.freeMem, RequiredSize(r.size, a));
    assert k <= x;
    assert Room(Handed(m, k, r.size, a).freeMem[x].free, align, budget - RoundUp(r.size, align));
  }

  ghost function AllocateAll(m: MemoryGroup, rs: seq<Request>): (MemoryGroup, seq<Option<nat>>)
    requires PrefixesValid(m)
    decreases |rs|
  {
    if rs == [] then (m, [])
    else
      AllocateKeepsPrefixes(m, rs[0]);
      var (m', a) := AllocateIn(m, rs[0]);
      var (m'', as') := AllocateAll(m', rs[1..]);
      (m'', [a] + as')
  }

  ghost function PaddedTotal(rs: seq<Request>, align: nat): nat
    requires align > 0
  {
    if rs == [] then 0 else RoundUp(rs[0].size, align) + PaddedTotal(rs[1..], align)
  }

  /** Any sequence of requests whose padded sizes total at most the budget is
      served without a refusal. */
  lemma {:induction false} ReservationSuffices(m: MemoryGroup, align: nat, budget: nat, rs: seq<Request>)
    requires PrefixesValid(m) && PowerOfTwo(align) && align >= STUB_ALIGN && HasRoom(m, align, budget)
    requires forall i :: 0 <= i < |rs| ==> PowerOfTwo(EffectiveAlign(rs[i].align)) && rs[i].align <= align
    requires PaddedTotal(rs, align) <= budget
    ensures |AllocateAll(m, rs).1| == |rs|
    ensures forall i :: 0 <= i < |rs| ==> AllocateAll(m, rs).1[i].Some?
    decreases |rs|
  {
    if rs != [] {
      RoomServes(m, align, budget, rs[0]);
      AllocateKeepsPrefixes(m, rs[0]);
      ReservationSuffices(AllocateIn(m, rs[0]).0, align, budget - RoundUp(rs[0].size, align), rs[1..]);
    }
  }
}
