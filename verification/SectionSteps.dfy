/** The three things that change the section memory, on values: handing out a
    section, reserving, and applying permissions. Each keeps the invariant. */
module SectionSteps {
  import opened Alignment
  import opened SectionMemory
  import opened Wrappers

  /** What a free block must hold for a section: the padded size and one more
      alignment, since the block may start anywhere. */
  function RequiredSize(size: nat, align: nat): nat
    requires align > 0
  {
    align * ((size + align - 1) / align + 1)
  }

  lemma RequiredSizeIs(size: nat, align: nat)
    requires align > 0
    ensures RequiredSize(size, align) == RoundUp(size, align) + align
  {
    var q := (size + align - 1) / align;
    assert RoundUp(size, align) == q * align;
    assert align * (q + 1) == q * align + align;
  }

  ghost predicate Fits(f: FreeMemBlock, size: nat, align: nat)
    requires align > 0
  {
    f.free.size >= RequiredSize(size, align)
  }

  function SectionIn(f: FreeMemBlock, size: nat, align: nat): MemoryBlock
    requires align > 0
  {
    MemoryBlock(RoundUp(f.free.base, align), size)
  }

  lemma SectionFits(f: FreeMemBlock, size: nat, align: nat)
    requires align > 0 && Fits(f, size, align)
    ensures Within(SectionIn(f, size, align), f.free)
    ensures SectionIn(f, size, align).base % align == 0
  {
    RequiredSizeIs(size, align);
    RoundMultiple(f.free.base, align);
  }

  /** The block from one address up to another. */
  function UpTo(lo: nat, hi: nat): MemoryBlock {
    MemoryBlock(lo, if lo <= hi then hi - lo else 0)
  }

  /** The free block after the section, and the alignment gap before it, are gone. */
  function Rest(f: FreeMemBlock, size: nat, align: nat): MemoryBlock
    requires align > 0
  {
    UpTo(SectionIn(f, size, align).End(), f.free.End())
  }

  /** The group after its `k`-th free block has given out a section. */
  function Handed(m: MemoryGroup, k: nat, size: nat, align: nat): MemoryGroup
    requires align > 0 && k < |m.freeMem|
    requires m.freeMem[k].pendingPrefixIndex.Some? ==> m.freeMem[k].pendingPrefixIndex.value < |m.pendingMem|
  {
    var f := m.freeMem[k];
    var s, rest := SectionIn(f, size, align), Rest(f, size, align);
    match f.pendingPrefixIndex
    case None =>
      m.(pendingMem := m.pendingMem + [s],
         freeMem := m.freeMem[k := FreeMemBlock(rest, Some(|m.pendingMem|))])
    case Some(i) =>
      var p := m.pendingMem[i];
      m.(pendingMem := m.pendingMem[i := UpTo(p.base, s.End())],
         freeMem := m.freeMem[k := FreeMemBlock(rest, Some(i))])
  }

  function WithSection(h: History, p: Purpose, s: MemoryBlock, align: nat): History {
    h.(sections := h.sections + [Section(p, s, align, false)])
  }

  ghost predicate CanHand(m: MemoryGroup, p: Purpose, h: History, page: nat, k: nat, size: nat, align: nat) {
    && page > 0 && align > 0 && HistoryOk(h, page) && GroupOk(m, p, h)
    && k < |m.freeMem| && Fits(m.freeMem[k], size, align)
  }

  /** The new section is disjoint from every section before it, lies in a span of
      its purpose, and touches no page whose permissions were changed. */
  lemma HandKeepsHistory(m: MemoryGroup, p: Purpose, h: History, page: nat, k: nat, size: nat, align: nat)
    requires CanHand(m, p, h, page, k, size, align)
    ensures HistoryOk(WithSection(h, p, SectionIn(m.freeMem[k], size, align), align), page)
  {
    hide RoundUp, RoundDown, RequiredSize;
    var f := m.freeMem[k];
    var s := SectionIn(f, size, align);
    var h' := WithSection(h, p, s, align);
    SectionFits(f, size, align);
    assert EndsSpan(h, p, f.free);
    var i :| 0 <= i < |h.spans| && h.spans[i].purpose == p && Within(f.free, h.spans[i].block);
    assert Within(s, h'.spans[i].block);
    assert InSpan(h', p, s);
    forall x | 0 <= x < |h.sections| ensures InSpan(h', h.sections[x].purpose, h.sections[x].block) {
      assert InSpan(h, h.sections[x].purpose, h.sections[x].block);
    }
    forall x | 0 <= x < |h.protections| ensures InSpan(h', h.protections[x].purpose, h.protections[x].block) {
      assert InSpan(h, h.protections[x].purpose, h.protections[x].block);
    }
    assert SectionsOk(h');
    assert ProtectionsOk(h') by {
      forall j | 0 <= j < |h'.sections| && h'.sections[j].isSealed
        ensures IsProtected(h', h'.sections[j])
      {
        assert h'.sections[j] == h.sections[j];
        assert IsProtected(h, h.sections[j]);
      }
    }
  }

  /** A group other than the one that gave out the section is not affected. */
  lemma HandKeepsOther(m: MemoryGroup, p: Purpose, h: History, page: nat, k: nat, size: nat, align: nat,
                       o: MemoryGroup, q: Purpose)
    requires CanHand(m, p, h, page, k, size, align) && p != q && GroupOk(o, q, h)
    ensures GroupOk(o, q, WithSection(h, p, SectionIn(m.freeMem[k], size, align), align))
  {
    var s := SectionIn(m.freeMem[k], size, align);
    var h' := WithSection(h, p, s, align);
    SectionFits(m.freeMem[k], size, align);
    HandKeepsHistory(m, p, h, page, k, size, align);
    assert h'.sections[|h.sections|] == Section(p, s, align, false);
    assert InSpan(h', p, s);
    SameSpans(h, h');
    forall x | 0 <= x < |o.freeMem| ensures Unused(h', o.freeMem[x].free) {
      assert EndsSpan(h', q, o.freeMem[x].free);
      CrossGroupsApart(h', page, p, s, q, o.freeMem[x].free);
      UnusedAfter(h, p, o.freeMem[x].free, s, align, o.freeMem[x].free);
    }
  }

  lemma SameSpans(h: History, h': History)
    requires h'.spans == h.spans
    ensures forall p, b :: InSpan(h, p, b) <==> InSpan(h', p, b)
    ensures forall p, b :: EndsSpan(h, p, b) <==> EndsSpan(h', p, b)
    ensures forall p, a, b :: JoinsInSpan(h, p, a, b) <==> JoinsInSpan(h', p, a, b)
  {
    forall p, b ensures InSpan(h, p, b) <==> InSpan(h', p, b) {
    }
    forall p, b ensures EndsSpan(h, p, b) <==> EndsSpan(h', p, b) {
    }
  }

  lemma HandKeepsFree(m: MemoryGroup, p: Purpose, h: History, page: nat, k: nat, size: nat, align: nat)
    requires CanHand(m, p, h, page, k, size, align)
    ensures FreeOk(Handed(m, k, size, align), p, WithSection(h, p, SectionIn(m.freeMem[k], size, align), align))
  {
    hide RoundUp, RoundDown, RequiredSize;
    var f := m.freeMem[k];
    var s, rest := SectionIn(f, size, align), Rest(f, size, align);
    var m', h' := Handed(m, k, size, align), WithSection(h, p, s, align);
    SectionFits(f, size, align);
    SameSpans(h, h');
    assert EndsSpan(h, p, f.free) && Unused(h, f.free);
    forall x | 0 <= x < |m'.freeMem|
      ensures EndsSpan(h', p, m'.freeMem[x].free) && Unused(h', m'.freeMem[x].free)
    {
      if x == k {
        assert EndsSpan(h', p, rest);
        UnusedAfter(h, p, f.free, s, align, rest);
      } else {
        assert EndsSpan(h, p, m.freeMem[x].free);
        assert Apart(f.free, m.freeMem[x].free);
        UnusedAfter(h, p, m.freeMem[x].free, s, align, m.freeMem[x].free);
      }
    }
  }

  lemma UnusedAfter(h: History, p: Purpose, b: MemoryBlock, s: MemoryBlock, align: nat, rest: MemoryBlock)
    requires Unused(h, b) && Within(rest, b) && Apart(s, rest)
    ensures Unused(WithSection(h, p, s, align), rest)
  {
  }

  lemma HandKeepsPending(m: MemoryGroup, p: Purpose, h: History, page: nat, k: nat, size: nat, align: nat)
    requires CanHand(m, p, h, page, k, size, align)
    ensures var m', h' := Handed(m, k, size, align), WithSection(h, p, SectionIn(m.freeMem[k], size, align), align);
            PendingOk(m', p, h') && PrefixOk(m', p, h')
  {
    if m.freeMem[k].pendingPrefixIndex.None? {
      HandNewPending(m, p, h, page, k, size, align);
    } else {
      HandMorePending(m, p, h, page, k, size, align);
    }
  }

  lemma HandNewPending(m: MemoryGroup, p: Purpose, h: History, page: nat, k: nat, size: nat, align: nat)
    requires CanHand(m, p, h, page, k, size, align) && m.freeMem[k].pendingPrefixIndex.None?
    ensures var m', h' := Handed(m, k, size, align), WithSection(h, p, SectionIn(m.freeMem[k], size, align), align);
            PendingOk(m', p, h') && PrefixOk(m', p, h')
  {
    hide RoundUp, RoundDown, RequiredSize, Fits, SpansOk, SectionsOk, ProtectionsOk, Unused;
    var f := m.freeMem[k];
    var s, rest := SectionIn(f, size, align), Rest(f, size, align);
    var m', h' := Handed(m, k, size, align), WithSection(h, p, s, align);
    SectionFits(f, size, align);
    SameSpans(h, h');
    assert EndsSpan(h, p, f.free);
    assert InSpan(h', p, s) && InSpan(h', p, MemoryBlock(s.base, s.size + rest.size));
    forall i, x | 0 <= i < |m'.pendingMem| && 0 <= x < |m'.freeMem|
      ensures Apart(m'.pendingMem[i], m'.freeMem[x].free)
    {
      if i < |m.pendingMem| {
        assert Apart(m.pendingMem[i], m.freeMem[x].free);
      } else if x != k {
        assert Apart(f.free, m.freeMem[x].free) || Apart(m.freeMem[x].free, f.free);
      }
    }
    forall y | 0 <= y < |h'.sections| && h'.sections[y].purpose == p && !h'.sections[y].isSealed
      ensures IsPending(m', h'.sections[y].block)
    {
      if y < |h.sections| {
        assert h'.sections[y] == h.sections[y];
        var i :| 0 <= i < |m.pendingMem| && Within(h.sections[y].block, m.pendingMem[i]);
        assert Within(h'.sections[y].block, m'.pendingMem[i]);
      } else {
        assert Within(h'.sections[y].block, m'.pendingMem[|m.pendingMem|]);
      }
    }
  }

  lemma HandMorePending(m: MemoryGroup, p: Purpose, h: History, page: nat, k: nat, size: nat, align: nat)
    requires CanHand(m, p, h, page, k, size, align) && m.freeMem[k].pendingPrefixIndex.Some?
    ensures var m', h' := Handed(m, k, size, align), WithSection(h, p, SectionIn(m.freeMem[k], size, align), align);
            PendingOk(m', p, h') && PrefixOk(m', p, h')
  {
    var f := m.freeMem[k];
    var s, rest := SectionIn(f, size, align), Rest(f, size, align);
    var m', h' := Handed(m, k, size, align), WithSection(h, p, s, align);
    var pi := f.pendingPrefixIndex.value;
    SectionFits(f, size, align);
    SameSpans(h, h');
    assert JoinsInSpan(h, p, m.pendingMem[pi], f.free);
    GrownPending(h, p, m.pendingMem[pi], f.free, m'.pendingMem[pi], rest);
    MorePendingApart(m, p, h, page, k, size, align);
    MorePendingCovers(m, p, h, page, k, size, align);
  }

  lemma MorePendingApart(m: MemoryGroup, p: Purpose, h: History, page: nat, k: nat, size: nat, align: nat)
    requires CanHand(m, p, h, page, k, size, align) && m.freeMem[k].pendingPrefixIndex.Some?
    ensures var m' := Handed(m, k, size, align);
            forall i, x :: 0 <= i < |m'.pendingMem| && 0 <= x < |m'.freeMem| ==>
              Apart(m'.pendingMem[i], m'.freeMem[x].free)
  {
    var f, m' := m.freeMem[k], Handed(m, k, size, align);
    var pi := f.pendingPrefixIndex.value;
    SectionFits(f, size, align);
    RequiredSizeIs(size, align);
    assert JoinsInSpan(h, p, m.pendingMem[pi], f.free);
    forall i, x | 0 <= i < |m'.pendingMem| && 0 <= x < |m'.freeMem|
      ensures Apart(m'.pendingMem[i], m'.freeMem[x].free)
    {
      assert Apart(m.pendingMem[i], m.freeMem[x].free);
      if i == pi && x != k {
        assert EndsSpan(h, p, m.freeMem[x].free);
        assert Apart(f.free, m.freeMem[x].free);
        GrownApart(h, page, p, m.pendingMem[pi], f.free, m'.pendingMem[pi], m.freeMem[x].free);
      }
    }
  }

  lemma MorePendingCovers(m: MemoryGroup, p: Purpose, h: History, page: nat, k: nat, size: nat, align: nat)
    requires CanHand(m, p, h, page, k, size, align) && m.freeMem[k].pendingPrefixIndex.Some?
    ensures var m', h' := Handed(m, k, size, align), WithSection(h, p, SectionIn(m.freeMem[k], size, align), align);
            forall y :: 0 <= y < |h'.sections| && h'.sections[y].purpose == p && !h'.sections[y].isSealed ==>
              IsPending(m', h'.sections[y].block)
  {
    var f := m.freeMem[k];
    var s := SectionIn(f, size, align);
    var m', h' := Handed(m, k, size, align), WithSection(h, p, s, align);
    var pi := f.pendingPrefixIndex.value;
    SectionFits(f, size, align);
    assert JoinsInSpan(h, p, m.pendingMem[pi], f.free);
    forall y | 0 <= y < |h'.sections| && h'.sections[y].purpose == p && !h'.sections[y].isSealed
      ensures IsPending(m', h'.sections[y].block)
    {
      if y < |h.sections| {
        assert h'.sections[y] == h.sections[y];
        var i :| 0 <= i < |m.pendingMem| && Within(h.sections[y].block, m.pendingMem[i]);
        assert Within(h'.sections[y].block, m'.pendingMem[i]);
      } else {
        assert Within(h'.sections[y].block, m'.pendingMem[pi]);
      }
    }
  }

  lemma GrownPending(h: History, p: Purpose, pending: MemoryBlock, free: MemoryBlock,
                     grown: MemoryBlock, rest: MemoryBlock)
    requires JoinsInSpan(h, p, pending, free)
    requires grown.base == pending.base && free.base <= grown.End() == rest.base && rest.End() == free.End()
    ensures InSpan(h, p, grown) && JoinsInSpan(h, p, grown, rest)
  {
    assert MemoryBlock(pending.base, pending.size + free.size) == MemoryBlock(grown.base, grown.size + rest.size);
    var i :| 0 <= i < |h.spans| && h.spans[i].purpose == p
             && Within(MemoryBlock(pending.base, pending.size + free.size), h.spans[i].block);
    assert Within(grown, h.spans[i].block);
  }

  lemma GrownApart(h: History, page: nat, p: Purpose, pending: MemoryBlock, free: MemoryBlock,
                   grown: MemoryBlock, other: MemoryBlock)
    requires page > 0 && SpansOk(h, page)
    requires JoinsInSpan(h, p, pending, free) && EndsSpan(h, p, other)
    requires grown.base == pending.base && grown.End() <= free.End() && free.size > 0
    requires Apart(pending, other) && Apart(free, other)
    ensures Apart(grown, other)
  {
    var whole := MemoryBlock(pending.base, pending.size + free.size);
    var i :| 0 <= i < |h.spans| && h.spans[i].purpose == p && Within(whole, h.spans[i].block);
    var j :| 0 <= j < |h.spans| && Within(other, h.spans[j].block) && other.End() == h.spans[j].block.End();
    assert i < j || j < i || i == j;
  }

  // ---- Reserving ----

  ghost predicate ReservedOk(h: History, reserved: seq<MemoryBlock>) {
    forall i :: 0 <= i < |h.spans| ==> InReservation(h.spans[i].block, reserved)
  }

  ghost predicate InReservation(b: MemoryBlock, reserved: seq<MemoryBlock>) {
    exists r :: 0 <= r < |reserved| && Within(b, reserved[r])
  }

  function WithSpan(h: History, p: Purpose, b: MemoryBlock): History {
    h.(spans := h.spans + [Span(p, b)])
  }

  ghost predicate FreshSpan(h: History, page: nat, b: MemoryBlock)
    requires page > 0
  {
    && b.base % page == 0 && b.End() % page == 0
    && (forall i :: 0 <= i < |h.spans| ==> Apart(h.spans[i].block, b))
  }

  lemma SpansGrow(h: History, h': History)
    requires h.spans <= h'.spans
    ensures forall p, b :: InSpan(h, p, b) ==> InSpan(h', p, b)
    ensures forall p, b :: EndsSpan(h, p, b) ==> EndsSpan(h', p, b)
    ensures forall p, a, b :: JoinsInSpan(h, p, a, b) ==> JoinsInSpan(h', p, a, b)
  {
    forall p, b | InSpan(h, p, b) ensures InSpan(h', p, b) {
      var i :| 0 <= i < |h.spans| && h.spans[i].purpose == p && Within(b, h.spans[i].block);
      assert h'.spans[i] == h.spans[i];
    }
    forall p, b | EndsSpan(h, p, b) ensures EndsSpan(h', p, b) {
      var i :| 0 <= i < |h.spans| && h.spans[i].purpose == p
               && Within(b, h.spans[i].block) && b.End() == h.spans[i].block.End();
      assert h'.spans[i] == h.spans[i];
    }
  }

  lemma AddSpanHistory(h: History, page: nat, p: Purpose, b: MemoryBlock)
    requires page > 0 && HistoryOk(h, page) && FreshSpan(h, page, b)
    ensures HistoryOk(WithSpan(h, p, b), page)
  {
    SpansGrow(h, WithSpan(h, p, b));
  }

  lemma AddSpanGroup(h: History, page: nat, p: Purpose, b: MemoryBlock, m: MemoryGroup, q: Purpose)
    requires page > 0 && HistoryOk(h, page) && GroupOk(m, q, h)
    ensures GroupOk(m, q, WithSpan(h, p, b))
  {
    SpansGrow(h, WithSpan(h, p, b));
  }

  lemma FreshApart(h: History, page: nat, b: MemoryBlock, q: Purpose, a: MemoryBlock)
    requires page > 0 && FreshSpan(h, page, b) && InSpan(h, q, a)
    ensures Apart(a, b)
  {
    var i :| 0 <= i < |h.spans| && h.spans[i].purpose == q && Within(a, h.spans[i].block);
    WithinApart(a, h.spans[i].block, b);
  }

  /** A group that starts over with a fresh span as its only free block. */
  lemma StartSpan(h: History, page: nat, p: Purpose, b: MemoryBlock, m: MemoryGroup)
    requires page > 0 && HistoryOk(h, page) && FreshSpan(h, page, b) && GroupOk(m, p, h)
    ensures GroupOk(m.(freeMem := [FreeMemBlock(b, None)]), p, WithSpan(h, p, b))
  {
    var h' := WithSpan(h, p, b);
    SpansGrow(h, h');
    assert h'.spans[|h.spans|] == Span(p, b);
    assert EndsSpan(h', p, b);
    forall s | 0 <= s < |h.sections| ensures Apart(h'.sections[s].block, b) {
      FreshApart(h, page, b, h.sections[s].purpose, h.sections[s].block);
    }
    forall s | 0 <= s < |h.protections| ensures Apart(h.protections[s].block, b) {
      FreshApart(h, page, b, h.protections[s].purpose, h.protections[s].block);
    }
    forall s | 0 <= s < |m.pendingMem| ensures Apart(m.pendingMem[s], b) {
      FreshApart(h, page, b, p, m.pendingMem[s]);
    }
  }

  lemma DropFree(m: MemoryGroup, p: Purpose, h: History)
    requires GroupOk(m, p, h)
    ensures GroupOk(m.(freeMem := []), p, h)
  {
  }

  // ---- Applying permissions ----

  /** The part of a free block that consists of whole pages. */
  function Trimmed(b: MemoryBlock, page: nat): MemoryBlock
    requires page > 0
  {
    UpTo(RoundUp(b.base, page), b.End())
  }

  function TrimAll(free: seq<FreeMemBlock>, page: nat): seq<FreeMemBlock>
    requires page > 0
  {
    if free == [] then []
    else
      var r := TrimAll(free[..|free| - 1], page);
      var t := Trimmed(free[|free| - 1].free, page);
      if t.size == 0 then r else r + [FreeMemBlock(t, None)]
  }

  lemma {:induction false} TrimAllFrom(free: seq<FreeMemBlock>, page: nat, k: nat) returns (j: nat)
    requires page > 0 && k < |TrimAll(free, page)|
    ensures j < |free| && TrimAll(free, page)[k] == FreeMemBlock(Trimmed(free[j].free, page), None)
    ensures Trimmed(free[j].free, page).size != 0
  {
    var init := free[..|free| - 1];
    if k < |TrimAll(init, page)| {
      j := TrimAllFrom(init, page, k);
    } else {
      j := |free| - 1;
    }
  }

  lemma {:induction false} TrimAllApart(free: seq<FreeMemBlock>, page: nat, j: nat, k: nat)
    requires page > 0 && j < k < |TrimAll(free, page)|
    requires forall k :: 0 <= k < |free| ==> Within(Trimmed(free[k].free, page), free[k].free)
    requires forall j, k :: 0 <= j < k < |free| ==> Apart(free[j].free, free[k].free)
    ensures Apart(TrimAll(free, page)[j].free, TrimAll(free, page)[k].free)
  {
    var init := free[..|free| - 1];
    if k < |TrimAll(init, page)| {
      TrimAllApart(init, page, j, k);
    } else {
      var x := TrimAllFrom(init, page, j);
      assert Apart(free[x].free, free[|free| - 1].free);
      WithinApart(Trimmed(free[x].free, page), free[x].free, free[|free| - 1].free);
    }
  }

  /** The first page boundary in the block. */
  ghost predicate FirstPage(b: MemoryBlock, page: nat, x: nat)
    requires page > 0
  {
    x % page == 0 && b.base <= x < b.End() && forall y: nat :: b.base <= y < x ==> y % page != 0
  }

  ghost predicate IsFree(free: seq<FreeMemBlock>, b: MemoryBlock) {
    exists k :: 0 <= k < |free| && free[k].free == b
  }

  /** The free memory afterwards is what there was, from the first page boundary of
      each block to its end; blocks without a page boundary are gone. */
  ghost predicate WholePagesKept(before: seq<FreeMemBlock>, after: seq<FreeMemBlock>, page: nat)
    requires page > 0
  {
    && (forall k, x :: 0 <= k < |before| && FirstPage(before[k].free, page, x) ==>
          IsFree(after, UpTo(x, before[k].free.End())))
    && (forall j :: 0 <= j < |after| ==> after[j].pendingPrefixIndex == None && FromFirstPage(before, page, after[j].free))
  }

  ghost predicate FromFirstPage(before: seq<FreeMemBlock>, page: nat, b: MemoryBlock)
    requires page > 0
  {
    exists k :: 0 <= k < |before| && FirstPage(before[k].free, page, b.base) && b.End() == before[k].free.End()
  }

  lemma FirstPageIs(b: MemoryBlock, page: nat)
    requires page > 0
    ensures forall x :: FirstPage(b, page, x) <==> x == RoundUp(b.base, page) < b.End()
  {
    var r := RoundUp(b.base, page);
    RoundMultiple(b.base, page);
    forall y: nat | b.base <= y && y % page == 0 ensures r <= y {
      RoundUpLeast(b.base, y, page);
    }
    hide RoundUp;
  }

  lemma {:induction false} TrimAllHas(free: seq<FreeMemBlock>, page: nat, k: nat) returns (j: nat)
    requires page > 0 && k < |free| && Trimmed(free[k].free, page).size != 0
    ensures j < |TrimAll(free, page)| && TrimAll(free, page)[j].free == Trimmed(free[k].free, page)
  {
    hide Trimmed;
    var init := free[..|free| - 1];
    if k < |init| {
      j := TrimAllHas(init, page, k);
    } else {
      j := |TrimAll(init, page)|;
    }
  }

  lemma TrimmedIs(b: MemoryBlock, page: nat, x: nat)
    requires page > 0
    ensures FirstPage(b, page, x) <==> Trimmed(b, page).size != 0 && x == Trimmed(b, page).base
    ensures FirstPage(b, page, x) ==> Trimmed(b, page) == UpTo(x, b.End())
  {
    FirstPageIs(b, page);
    hide FirstPage, RoundUp;
  }

  lemma TrimAllKeeps(free: seq<FreeMemBlock>, page: nat)
    requires page > 0
    ensures WholePagesKept(free, TrimAll(free, page), page)
  {
    hide FirstPage, Trimmed, TrimAll;
    var after := TrimAll(free, page);
    forall k, x | 0 <= k < |free| && FirstPage(free[k].free, page, x)
      ensures IsFree(after, UpTo(x, free[k].free.End()))
    {
      TrimmedIs(free[k].free, page, x);
      var j := TrimAllHas(free, page, k);
    }
    forall j | 0 <= j < |after| ensures after[j].pendingPrefixIndex == None && FromFirstPage(free, page, after[j].free) {
      var k := TrimAllFrom(free, page, j);
      TrimmedIs(free[k].free, page, after[j].free.base);
    }
  }

  function SealAll(sections: seq<Section>, p: Purpose): (r: seq<Section>)
    ensures |r| == |sections|
    ensures forall i :: 0 <= i < |r| ==>
              r[i] == if sections[i].purpose == p then sections[i].(isSealed := true) else sections[i]
  {
    if sections == [] then []
    else
      var s := sections[|sections| - 1];
      SealAll(sections[..|sections| - 1], p) + [if s.purpose == p then s.(isSealed := true) else s]
  }

  function ProtectAll(pending: seq<MemoryBlock>, p: Purpose, page: nat): (r: seq<Span>)
    requires page > 0
    ensures |r| == |pending|
    ensures forall i :: 0 <= i < |r| ==> r[i] == Span(p, Pages(pending[i], page))
  {
    if pending == [] then []
    else ProtectAll(pending[..|pending| - 1], p, page) + [Span(p, Pages(pending[|pending| - 1], page))]
  }

  function Finalized(m: MemoryGroup, page: nat): MemoryGroup
    requires page > 0
  {
    m.(pendingMem := [], freeMem := TrimAll(m.freeMem, page))
  }

  function WithFinalize(h: History, p: Purpose, m: MemoryGroup, page: nat): History
    requires page > 0
  {
    h.(sections := SealAll(h.sections, p),
       protections := h.protections + ProtectAll(m.pendingMem, p, page))
  }

  /** Page trimming never underflows: the block ends on a page boundary, so its
      start rounds up to at most its end. */
  lemma TrimInside(m: MemoryGroup, p: Purpose, h: History, page: nat, k: nat)
    requires page > 0 && SpansOk(h, page) && FreeOk(m, p, h) && k < |m.freeMem|
    ensures var b := m.freeMem[k].free;
            RoundUp(b.base, page) <= b.End() && Within(Trimmed(b, page), b)
            && Trimmed(b, page).base % page == 0 && Trimmed(b, page).size % page == 0
            && Trimmed(b, page).End() == b.End()
  {
    var b := m.freeMem[k].free;
    FreeEndsOnPage(m, p, h, page, k);
    RoundUpLeast(b.base, b.End(), page);
    RoundMultiple(b.base, page);
    SumMultiple(b.End(), RoundUp(b.base, page), page);
  }

  lemma PagesApartTrimmed(a: MemoryBlock, b: MemoryBlock, page: nat)
    requires page > 0 && Apart(a, b) && b.End() % page == 0 && RoundUp(b.base, page) <= b.End()
    ensures Apart(Pages(a, page), Trimmed(b, page))
  {
    if a.End() <= b.base {
      RoundUpMonotone(a.End(), b.base, page);
    } else {
      RoundDownGreatest(a.base, b.End(), page);
    }
  }

  lemma FinalizeKeepsHistory(m: MemoryGroup, p: Purpose, h: History, page: nat)
    requires page > 0 && HistoryOk(h, page) && GroupOk(m, p, h) && PendingOk(m, p, h)
    ensures HistoryOk(WithFinalize(h, p, m, page), page)
  {
    hide GroupOk, RoundUp, RoundDown, Pages, SectionsOk;
    FinalizeKeepsSections(m, p, h, page);
    FinalizeInSpans(m, p, h, page);
    FinalizeNoOverlap(m, p, h, page);
    var h' := WithFinalize(h, p, m, page);
    FinalizeWhole(m, p, h, page);
    forall j | 0 <= j < |h'.sections| && h'.sections[j].isSealed ensures IsProtected(h', h'.sections[j]) {
      FinalizeCovers(m, p, h, page, j);
      SealedAlike(h', h.sections[j], h'.sections[j]);
    }
  }

  lemma PagesWhole(b: MemoryBlock, page: nat)
    requires page > 0
    ensures WholePages(Pages(b, page), page)
  {
    RoundMultiple(b.base, page);
    RoundMultiple(b.End(), page);
  }

  lemma FinalizeWhole(m: MemoryGroup, p: Purpose, h: History, page: nat)
    requires page > 0 && HistoryOk(h, page)
    ensures var h' := WithFinalize(h, p, m, page);
            forall i :: 0 <= i < |h'.protections| ==> WholePages(h'.protections[i].block, page)
  {
    var h' := WithFinalize(h, p, m, page);
    hide RoundUp, RoundDown, SpansOk, SectionsOk, ProtectionsOk;
    forall i | 0 <= i < |h'.protections| ensures WholePages(h'.protections[i].block, page) {
      if i < |h.protections| {
        assert h'.protections[i] == h.protections[i];
      } else {
        hide WholePages, HistoryOk;
        PagesWhole(m.pendingMem[i - |h.protections|], page);
      }
    }
  }

  lemma FinalizeKeepsSections(m: MemoryGroup, p: Purpose, h: History, page: nat)
    requires page > 0 && SectionsOk(h)
    ensures SectionsOk(WithFinalize(h, p, m, page))
  {
    hide SealAll, ProtectAll, Pages, InSpan;
    SameSpans(h, WithFinalize(h, p, m, page));
  }

  lemma FinalizeInSpans(m: MemoryGroup, p: Purpose, h: History, page: nat)
    requires page > 0 && HistoryOk(h, page) && PendingOk(m, p, h)
    ensures var h' := WithFinalize(h, p, m, page);
            forall i :: 0 <= i < |h'.protections| ==>
              InSpan(h', h'.protections[i].purpose, h'.protections[i].block)
  {
    hide RoundUp, RoundDown, Pages, SpansOk, SectionsOk;
    var h' := WithFinalize(h, p, m, page);
    SameSpans(h, h');
    forall i | 0 <= i < |h'.protections| ensures InSpan(h', h'.protections[i].purpose, h'.protections[i].block) {
      if i < |h.protections| {
        assert h'.protections[i] == h.protections[i];
      } else {
        PagesInSpan(h, page, p, m.pendingMem[i - |h.protections|]);
      }
    }
  }

  lemma SealedAlike(h: History, a: Section, b: Section)
    requires a.block == b.block && a.purpose == b.purpose && IsProtected(h, a)
    ensures IsProtected(h, b)
  {
    var i :| 0 <= i < |h.protections| && Covers(h.protections[i], a);
    assert Covers(h.protections[i], b);
  }

  lemma FinalizeNoOverlap(m: MemoryGroup, p: Purpose, h: History, page: nat)
    requires page > 0 && HistoryOk(h, page) && GroupOk(m, p, h)
    ensures var h' := WithFinalize(h, p, m, page);
            forall i, j :: 0 <= i < |h'.protections| && 0 <= j < |h'.sections| ==>
              Apart(h'.protections[i].block, h'.sections[j].block)
              || (h'.sections[j].isSealed && h'.sections[j].purpose == h'.protections[i].purpose)
  {
    hide RoundUp, RoundDown, Pages, FreeOk, PrefixOk, SpansOk;
    var h' := WithFinalize(h, p, m, page);
    forall i, j | 0 <= i < |h'.protections| && 0 <= j < |h'.sections|
      ensures Apart(h'.protections[i].block, h'.sections[j].block)
              || (h'.sections[j].isSealed && h'.sections[j].purpose == h'.protections[i].purpose)
    {
      if i < |h.protections| {
        assert h'.protections[i] == h.protections[i];
      } else if h.sections[j].purpose != p {
        PagesInSpan(h, page, p, m.pendingMem[i - |h.protections|]);
        CrossGroupsApart(h, page, p, h'.protections[i].block, h.sections[j].purpose, h.sections[j].block);
      }
    }
  }

  lemma FinalizeCovers(m: MemoryGroup, p: Purpose, h: History, page: nat, j: nat)
    requires page > 0 && ProtectionsOk(h) && PendingOk(m, p, h) && j < |h.sections|
    requires h.sections[j].isSealed || h.sections[j].purpose == p
    ensures IsProtected(WithFinalize(h, p, m, page), h.sections[j])
  {
    hide RoundUp, RoundDown, Pages, SealAll, ProtectAll, InSpan;
    var h' := WithFinalize(h, p, m, page);
    if h.sections[j].isSealed {
      assert IsProtected(h, h.sections[j]);
      var i :| 0 <= i < |h.protections| && Covers(h.protections[i], h.sections[j]);
      assert h'.protections[i] == h.protections[i];
    } else {
      assert IsPending(m, h.sections[j].block);
      var k :| 0 <= k < |m.pendingMem| && Within(h.sections[j].block, m.pendingMem[k]);
      assert h'.protections[|h.protections| + k] == Span(p, Pages(m.pendingMem[k], page));
      assert Covers(h'.protections[|h.protections| + k], h.sections[j]);
    }
  }

  lemma FinalizeKeepsGroup(m: MemoryGroup, p: Purpose, h: History, page: nat)
    requires page > 0 && HistoryOk(h, page) && GroupOk(m, p, h)
    ensures GroupOk(Finalized(m, page), p, WithFinalize(h, p, m, page))
  {
    hide RoundUp, RoundDown, Trimmed, TrimAll, Pages, Unused, EndsSpan, SealAll, ProtectAll, SpansOk, SectionsOk, ProtectionsOk;
    var m', h' := Finalized(m, page), WithFinalize(h, p, m, page);
    SameSpans(h, h');
    forall k | 0 <= k < |m.freeMem| ensures Within(Trimmed(m.freeMem[k].free, page), m.freeMem[k].free) {
      TrimInside(m, p, h, page, k);
    }
    forall j, k | 0 <= j < k < |m'.freeMem| ensures Apart(m'.freeMem[j].free, m'.freeMem[k].free) {
      TrimAllApart(m.freeMem, page, j, k);
    }
    forall k | 0 <= k < |m'.freeMem|
      ensures EndsSpan(h', p, m'.freeMem[k].free) && Unused(h', m'.freeMem[k].free)
      ensures m'.freeMem[k].pendingPrefixIndex.None?
    {
      var j := TrimAllFrom(m.freeMem, page, k);
      TrimInside(m, p, h, page, j);
      RestEndsSpan(h, p, m.freeMem[j].free, m'.freeMem[k].free);
      TrimmedUnused(m, p, h, page, j);
    }
  }

  lemma RestEndsSpan(h: History, p: Purpose, b: MemoryBlock, rest: MemoryBlock)
    requires EndsSpan(h, p, b) && Within(rest, b) && rest.End() == b.End()
    ensures EndsSpan(h, p, rest)
  {
    var i :| 0 <= i < |h.spans| && h.spans[i].purpose == p
             && Within(b, h.spans[i].block) && b.End() == h.spans[i].block.End();
    assert Within(rest, h.spans[i].block);
  }

  /** The pages of the pending blocks end where the trimmed free block starts. */
  lemma TrimmedUnused(m: MemoryGroup, p: Purpose, h: History, page: nat, j: nat)
    requires page > 0 && HistoryOk(h, page) && GroupOk(m, p, h) && j < |m.freeMem|
    ensures Unused(WithFinalize(h, p, m, page), Trimmed(m.freeMem[j].free, page))
  {
    hide RoundUp, RoundDown, Trimmed, Pages, EndsSpan, SealAll, ProtectAll, PrefixOk, SectionsOk, ProtectionsOk, SpansOk;
    var b, h' := m.freeMem[j].free, WithFinalize(h, p, m, page);
    TrimInside(m, p, h, page, j);
    FreeEndsOnPage(m, p, h, page, j);
    assert Unused(h, b);
    forall s | 0 <= s < |h'.protections| ensures Apart(h'.protections[s].block, Trimmed(b, page)) {
      if s < |h.protections| {
        assert h'.protections[s] == h.protections[s];
      } else {
        PagesApartTrimmed(m.pendingMem[s - |h.protections|], b, page);
      }
    }
    forall s | 0 <= s < |h'.sections| ensures Apart(h'.sections[s].block, Trimmed(b, page)) {
      assert h'.sections[s].block == h.sections[s].block;
    }
  }

  lemma OtherUnused(m: MemoryGroup, p: Purpose, h: History, page: nat, q: Purpose, b: MemoryBlock)
    requires page > 0 && HistoryOk(h, page) && PendingOk(m, p, h) && p != q
    requires EndsSpan(h, q, b) && Unused(h, b)
    ensures Unused(WithFinalize(h, p, m, page), b)
  {
    hide RoundUp, RoundDown, Pages, SealAll, ProtectAll, SpansOk, SectionsOk, ProtectionsOk;
    var h' := WithFinalize(h, p, m, page);
    forall s | 0 <= s < |h'.protections| ensures Apart(h'.protections[s].block, b) {
      if s < |h.protections| {
        assert h'.protections[s] == h.protections[s];
      } else {
        PagesInSpan(h, page, p, m.pendingMem[s - |h.protections|]);
        CrossGroupsApart(h, page, p, h'.protections[s].block, q, b);
      }
    }
    forall s | 0 <= s < |h'.sections| ensures Apart(h'.sections[s].block, b) {
      assert h'.sections[s].block == h.sections[s].block;
    }
  }

  lemma OtherPending(m: MemoryGroup, p: Purpose, h: History, page: nat, o: MemoryGroup, q: Purpose)
    requires page > 0 && PendingOk(o, q, h) && p != q
    ensures PendingOk(o, q, WithFinalize(h, p, m, page))
  {
    var h' := WithFinalize(h, p, m, page);
    SameSpans(h, h');
    forall s | 0 <= s < |h'.sections| && h'.sections[s].purpose == q && !h'.sections[s].isSealed
      ensures IsPending(o, h'.sections[s].block)
    {
      assert h'.sections[s] == h.sections[s];
    }
  }

  lemma FinalizeKeepsOther(m: MemoryGroup, p: Purpose, h: History, page: nat, o: MemoryGroup, q: Purpose)
    requires page > 0 && HistoryOk(h, page) && GroupOk(m, p, h) && GroupOk(o, q, h) && p != q
    ensures GroupOk(o, q, WithFinalize(h, p, m, page))
  {
    hide RoundUp, RoundDown, Pages, SealAll, ProtectAll, Unused, SpansOk, SectionsOk, ProtectionsOk;
    SameSpans(h, WithFinalize(h, p, m, page));
    forall k | 0 <= k < |o.freeMem| ensures Unused(WithFinalize(h, p, m, page), o.freeMem[k].free) {
      assert EndsSpan(h, q, o.freeMem[k].free);
      OtherUnused(m, p, h, page, q, o.freeMem[k].free);
    }
    OtherPending(m, p, h, page, o, q);
  }
}
