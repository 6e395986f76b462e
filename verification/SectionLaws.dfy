/** What the section memory does, told in addresses and numbers. */
module SectionLaws {
  import opened Alignment
  import opened MemoryManager
  import opened Numbers
  import opened SectionMemory
  import opened SectionReserve
  import opened SectionSteps
  import opened Wrappers

  /** The alignment in force: eight bytes if none is asked for. */
  function Align(a: nat): (r: nat)
    ensures r > 0
  {
    if a == 0 then 8 else a
  }

  /** What a free block must hold. */
  function Needed(size: nat, a: nat): nat
    requires a > 0
  {
    a * ((size + a - 1) / a + 1)
  }

  lemma NeededIs(size: nat, a: nat)
    requires a > 0
    ensures Needed(size, a) == RequiredSize(size, a)
  {
  }

  /** A request is served exactly if some free block is large enough. */
  lemma ServedExact(m: MemoryGroup, size: nat, alignment: nat)
    requires PrefixesValid(m)
    ensures AllocateIn(m, Request(size, alignment)).1.Some?
            <==> exists k :: 0 <= k < |m.freeMem| && m.freeMem[k].free.size >= Needed(size, Align(alignment))
    ensures AllocateIn(m, Request(size, alignment)).1.None? ==> AllocateIn(m, Request(size, alignment)).0 == m
  {
    hide Handed, SectionIn;
    var k := FirstFit(m.freeMem, Needed(size, Align(alignment)));
    assert RequiredSize(size, Align(alignment)) == Needed(size, Align(alignment));
  }

  lemma {:induction false} FirstIs(free: seq<FreeMemBlock>, required: nat, k: nat)
    requires k < |free| && free[k].free.size >= required && forall j :: 0 <= j < k ==> free[j].free.size < required
    ensures FirstFit(free, required) == k
  {
    if k > 0 {
      FirstIs(free[1..], required, k - 1);
    }
  }

  lemma PrefixInside(m: MemoryGroup, k: nat)
    requires PrefixesValid(m) && k < |m.freeMem| && m.freeMem[k].pendingPrefixIndex.Some?
    ensures m.freeMem[k].pendingPrefixIndex.value < |m.pendingMem|
  {
  }

  /** The section starts at the first multiple of the alignment in the first block that is
      large enough. That block is left with the bytes behind the section, and the pending
      block in front of it, if there is one, grows to the section's end. */
  lemma ServedWhere(m: MemoryGroup, size: nat, alignment: nat, k: nat)
    requires PrefixesValid(m) && k < |m.freeMem| && m.freeMem[k].free.size >= Needed(size, Align(alignment))
    requires forall j :: 0 <= j < k ==> m.freeMem[j].free.size < Needed(size, Align(alignment))
    ensures var (m', r) := AllocateIn(m, Request(size, alignment)); var f := m.freeMem[k];
            && r.Some? && r.value % Align(alignment) == 0 && f.free.base <= r.value < f.free.base + Align(alignment)
            && r.value + size <= f.free.End() && m'.allocatedMem == m.allocatedMem
            && |m'.freeMem| == |m.freeMem|
            && m'.freeMem[k].free == MemoryBlock(r.value + size, f.free.End() - (r.value + size))
            && (forall j :: 0 <= j < |m.freeMem| && j != k ==> m'.freeMem[j] == m.freeMem[j])
            && (f.pendingPrefixIndex.None? ==>
                  && m'.pendingMem == m.pendingMem + [MemoryBlock(r.value, size)]
                  && m'.freeMem[k].pendingPrefixIndex == Some(|m.pendingMem|))
            && (f.pendingPrefixIndex.Some? && m.pendingMem[f.pendingPrefixIndex.value].base <= r.value ==>
                  var i, base := f.pendingPrefixIndex.value, m.pendingMem[f.pendingPrefixIndex.value].base;
                  && m'.pendingMem == m.pendingMem[i := MemoryBlock(base, r.value + size - base)]
                  && m'.freeMem[k].pendingPrefixIndex == Some(i))
  {
    hide RequiredSize, RoundUp, RoundDown, FirstFit, Needed, PrefixesValid;
    var a := Align(alignment);
    NeededIs(size, a);
    FirstIs(m.freeMem, Needed(size, a), k);
    SectionFits(m.freeMem[k], size, a);
    RoundMultiple(m.freeMem[k].free.base, a);
    if m.freeMem[k].pendingPrefixIndex.Some? {
      PrefixInside(m, k);
    }
  }

  /** A leftover is reused exactly if it would serve the whole request as one section, with
      its alignment raised to eight. */
  lemma ReusedIfServed(mm: LlvmliteMemoryManager, m: MemoryGroup, size: nat, align: nat)
    requires PrefixesValid(m) && align > 0
    ensures mm.HasBlock(m, mm.Padded(size, align))
            <==> AllocateIn(m, Request(size, if align < 8 then 8 else align)).1.Some?
  {
    var a := if align < 8 then 8 else align;
    RequiredSizeIs(size, a);
    ServedExact(m, size, a);
    assert RequiredSize(size, a) == Needed(size, a);
    hide RequiredSize, RoundUp, AllocateIn, Needed;
  }

  /** A group's part of a mapping is the least number of whole pages that serves its
      request as one section, with its alignment raised to eight. */
  lemma PartIsLeast(mm: LlvmliteMemoryManager, r: Request, other: nat)
    requires r.align > 0 && mm.pageSize > 0
    ensures var a := if r.align < 8 then 8 else r.align;
            && mm.PartSize(r) % mm.pageSize == 0 && mm.PartSize(r) >= Needed(r.size, a)
            && (other % mm.pageSize == 0 && other >= Needed(r.size, a) ==> mm.PartSize(r) <= other)
  {
    var a := if r.align < 8 then 8 else r.align;
    RequiredSizeIs(r.size, a);
    assert RequiredSize(r.size, a) == Needed(r.size, a) == mm.Padded(r.size, r.align);
    hide RequiredSize, Needed;
    RoundMultiple(Needed(r.size, a), mm.pageSize);
    if other % mm.pageSize == 0 && other >= Needed(r.size, a) {
      RoundUpLeast(Needed(r.size, a), other, mm.pageSize);
    }
    hide RoundUp;
  }
}
