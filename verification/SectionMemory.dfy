/** The state of the JIT's section memory, and what must hold of it between
    calls so that no byte is handed out twice and no page is shared. */
module SectionMemory {
  import opened Alignment
  import opened Wrappers

  datatype MemoryBlock = MemoryBlock(base: nat, size: nat) {
    function End(): nat {
      base + size
    }
  }

  datatype FreeMemBlock = FreeMemBlock(free: MemoryBlock, pendingPrefixIndex: Option<nat>)

  datatype MemoryGroup = MemoryGroup(
    pendingMem: seq<MemoryBlock>, freeMem: seq<FreeMemBlock>, allocatedMem: seq<MemoryBlock>)

  datatype Purpose = Code | ROData | RWData

  predicate Apart(a: MemoryBlock, b: MemoryBlock) {
    a.End() <= b.base || b.End() <= a.base
  }

  predicate Within(a: MemoryBlock, b: MemoryBlock) {
    b.base <= a.base && a.End() <= b.End()
  }

  /** The whole pages that a block touches. */
  function Pages(b: MemoryBlock, page: nat): (r: MemoryBlock)
    requires page > 0
    ensures Within(b, r)
  {
    var lo := RoundDown(b.base, page);
    MemoryBlock(lo, RoundUp(b.End(), page) - lo)
  }

  /** A section handed to the user. It is sealed once its permissions have been
      applied. */
  datatype Section = Section(purpose: Purpose, block: MemoryBlock, align: nat, isSealed: bool)

  /** The part of a reservation set aside for one purpose. */
  datatype Span = Span(purpose: Purpose, block: MemoryBlock)

  /** What has happened so far: parts reserved, sections handed out, and page
      ranges whose permissions were changed. */
  datatype History = History(spans: seq<Span>, sections: seq<Section>, protections: seq<Span>)

  ghost predicate InSpan(h: History, p: Purpose, b: MemoryBlock) {
    exists i :: 0 <= i < |h.spans| && h.spans[i].purpose == p && Within(b, h.spans[i].block)
  }

  /** A free block is the rest of a span, up to its end. */
  ghost predicate EndsSpan(h: History, p: Purpose, b: MemoryBlock) {
    exists i :: 0 <= i < |h.spans| && h.spans[i].purpose == p
                && Within(b, h.spans[i].block) && b.End() == h.spans[i].block.End()
  }

  /** The spans are made of whole pages and disjoint; so are the pages of
      different purposes. */
  ghost predicate SpansOk(h: History, page: nat)
    requires page > 0
  {
    && (forall i :: 0 <= i < |h.spans| ==>
          h.spans[i].block.base % page == 0 && h.spans[i].block.End() % page == 0)
    && (forall i, j :: 0 <= i < j < |h.spans| ==> Apart(h.spans[i].block, h.spans[j].block))
  }

  ghost predicate SectionsOk(h: History) {
    && (forall i :: 0 <= i < |h.sections| ==>
          && h.sections[i].align > 0 && h.sections[i].block.base % h.sections[i].align == 0
          && InSpan(h, h.sections[i].purpose, h.sections[i].block))
    && (forall i, j :: 0 <= i < j < |h.sections| ==> Apart(h.sections[i].block, h.sections[j].block))
  }

  /** Permissions were changed for every page of every sealed section, and for
      no page of any other section. */
  ghost predicate ProtectionsOk(h: History) {
    && (forall i :: 0 <= i < |h.protections| ==> InSpan(h, h.protections[i].purpose, h.protections[i].block))
    && (forall i, j :: 0 <= i < |h.protections| && 0 <= j < |h.sections| ==>
          Apart(h.protections[i].block, h.sections[j].block)
          || (h.sections[j].isSealed && h.sections[j].purpose == h.protections[i].purpose))
    && (forall j :: 0 <= j < |h.sections| && h.sections[j].isSealed ==> IsProtected(h, h.sections[j]))
  }

  /** A changed page range of its purpose contains the section. */
  ghost predicate IsProtected(h: History, s: Section) {
    exists i :: 0 <= i < |h.protections| && Covers(h.protections[i], s)
  }

  ghost predicate Covers(pr: Span, s: Section) {
    pr.purpose == s.purpose && Within(s.block, pr.block)
  }

  /** A pending block contains the section. */
  ghost predicate IsPending(m: MemoryGroup, b: MemoryBlock) {
    exists i :: 0 <= i < |m.pendingMem| && Within(b, m.pendingMem[i])
  }

  /** No section and no changed page lies in the block. */
  ghost predicate Unused(h: History, b: MemoryBlock) {
    && (forall s :: 0 <= s < |h.sections| ==> Apart(h.sections[s].block, b))
    && (forall s :: 0 <= s < |h.protections| ==> Apart(h.protections[s].block, b))
  }

  ghost predicate FreeOk(m: MemoryGroup, p: Purpose, h: History) {
    && (forall k :: 0 <= k < |m.freeMem| ==> EndsSpan(h, p, m.freeMem[k].free) && Unused(h, m.freeMem[k].free))
    && (forall j, k :: 0 <= j < k < |m.freeMem| ==> Apart(m.freeMem[j].free, m.freeMem[k].free))
  }

  /** Every section still awaiting its permissions lies in a pending block, and a
      free block's prefix index names the pending block that ends where it starts. */
  ghost predicate PendingOk(m: MemoryGroup, p: Purpose, h: History) {
    && (forall i :: 0 <= i < |m.pendingMem| ==> InSpan(h, p, m.pendingMem[i]))
    && (forall i, k :: 0 <= i < |m.pendingMem| && 0 <= k < |m.freeMem| ==>
          Apart(m.pendingMem[i], m.freeMem[k].free))
    && (forall s :: 0 <= s < |h.sections| && h.sections[s].purpose == p && !h.sections[s].isSealed ==>
          IsPending(m, h.sections[s].block))
  }

  ghost predicate PrefixOk(m: MemoryGroup, p: Purpose, h: History) {
    && (forall k :: 0 <= k < |m.freeMem| && m.freeMem[k].pendingPrefixIndex.Some? ==>
          && m.freeMem[k].pendingPrefixIndex.value < |m.pendingMem|
          && JoinsInSpan(h, p, m.pendingMem[m.freeMem[k].pendingPrefixIndex.value], m.freeMem[k].free))
    && (forall j, k :: 0 <= j < k < |m.freeMem| && m.freeMem[j].pendingPrefixIndex.Some? ==>
          m.freeMem[j].pendingPrefixIndex != m.freeMem[k].pendingPrefixIndex)
  }

  ghost predicate JoinsInSpan(h: History, p: Purpose, pending: MemoryBlock, free: MemoryBlock) {
    && pending.End() == free.base
    && InSpan(h, p, MemoryBlock(pending.base, pending.size + free.size))
  }

  ghost predicate GroupOk(m: MemoryGroup, p: Purpose, h: History) {
    FreeOk(m, p, h) && PendingOk(m, p, h) && PrefixOk(m, p, h)
  }

  ghost predicate HistoryOk(h: History, page: nat)
    requires page > 0
  {
    && SpansOk(h, page) && SectionsOk(h) && ProtectionsOk(h)
    && (forall i :: 0 <= i < |h.protections| ==> WholePages(h.protections[i].block, page))
  }

  predicate WholePages(b: MemoryBlock, page: nat)
    requires page > 0
  {
    b.base % page == 0 && b.End() % page == 0
  }

  // ---- Consequences: what a caller may rely on in every reachable state ----

  /** Every free block ends on a page boundary. */
  lemma FreeEndsOnPage(m: MemoryGroup, p: Purpose, h: History, page: nat, k: nat)
    requires page > 0 && SpansOk(h, page) && FreeOk(m, p, h) && k < |m.freeMem|
    ensures m.freeMem[k].free.End() % page == 0
  {
    assert EndsSpan(h, p, m.freeMem[k].free);
  }

  /** Blocks in spans of different purposes touch different pages. */
  lemma PurposesApart(h: History, page: nat, p: Purpose, a: MemoryBlock, q: Purpose, b: MemoryBlock)
    requires page > 0 && SpansOk(h, page) && p != q && InSpan(h, p, a) && InSpan(h, q, b)
    ensures Apart(Pages(a, page), Pages(b, page))
  {
    var i :| 0 <= i < |h.spans| && h.spans[i].purpose == p && Within(a, h.spans[i].block);
    var j :| 0 <= j < |h.spans| && h.spans[j].purpose == q && Within(b, h.spans[j].block);
    PagesWithin(a, h.spans[i].block, page);
    PagesWithin(b, h.spans[j].block, page);
    assert i < j || j < i;
  }

  lemma PagesWithin(a: MemoryBlock, s: MemoryBlock, page: nat)
    requires page > 0 && Within(a, s) && s.base % page == 0 && s.End() % page == 0
    ensures Within(Pages(a, page), s)
  {
    RoundDownGreatest(a.base, s.base, page);
    RoundUpLeast(a.End(), s.End(), page);
  }

  lemma PagesInSpan(h: History, page: nat, p: Purpose, a: MemoryBlock)
    requires page > 0 && SpansOk(h, page) && InSpan(h, p, a)
    ensures InSpan(h, p, Pages(a, page))
  {
    var i :| 0 <= i < |h.spans| && h.spans[i].purpose == p && Within(a, h.spans[i].block);
    PagesWithin(a, h.spans[i].block, page);
  }

  /** No page of a section whose permissions have been applied holds any part of
      a section whose permissions have not. */
  lemma SealedPagesApart(h: History, page: nat, i: nat, j: nat)
    requires page > 0 && HistoryOk(h, page) && i < |h.sections| && j < |h.sections|
    requires h.sections[i].isSealed && !h.sections[j].isSealed
    ensures Apart(Pages(h.sections[i].block, page), h.sections[j].block)
  {
    assert IsProtected(h, h.sections[i]);
    var x :| 0 <= x < |h.protections| && Covers(h.protections[x], h.sections[i]);
    assert WholePages(h.protections[x].block, page);
    PagesWithin(h.sections[i].block, h.protections[x].block, page);
    WithinApart(Pages(h.sections[i].block, page), h.protections[x].block, h.sections[j].block);
  }

  /** No page serves two purposes. */
  lemma SectionsShareNoPage(h: History, page: nat, i: nat, j: nat)
    requires page > 0 && HistoryOk(h, page) && i < |h.sections| && j < |h.sections|
    requires h.sections[i].purpose != h.sections[j].purpose
    ensures Apart(Pages(h.sections[i].block, page), Pages(h.sections[j].block, page))
  {
    PurposesApart(h, page, h.sections[i].purpose, h.sections[i].block, h.sections[j].purpose, h.sections[j].block);
  }

  lemma WithinApart(a: MemoryBlock, b: MemoryBlock, c: MemoryBlock)
    requires Within(a, b) && Apart(b, c)
    ensures Apart(a, c)
  {
  }

  lemma CrossGroupsApart(h: History, page: nat, p: Purpose, a: MemoryBlock, q: Purpose, b: MemoryBlock)
    requires page > 0 && SpansOk(h, page) && p != q && InSpan(h, p, a) && InSpan(h, q, b)
    ensures Apart(a, b)
  {
    PurposesApart(h, page, p, a, q, b);
    WithinApart(a, Pages(a, page), Pages(b, page));
    WithinApart(b, Pages(b, page), a);
  }
}
