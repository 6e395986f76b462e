/** The JIT's section memory manager. Every method keeps the invariant `Valid`,
    so what it implies holds in every reachable state. */
module MemoryManager {
  import opened DivMod
  import opened Alignment
  import opened SectionMemory
  import opened SectionSteps
  import opened SectionReserve
  import opened Wrappers
  import opened Numbers

  /** A request to one of the groups. */
  datatype Order = Order(purpose: Purpose, request: Request)

  /** What the orders to one group take, padded to its reserved alignment. */
  ghost function PaddedFor(orders: seq<Order>, p: Purpose, align: nat): nat
    requires align > 0
  {
    if orders == [] then 0
    else PaddedFor(orders[1..], p, align) + if orders[0].purpose == p then RoundUp(orders[0].request.size, align) else 0
  }

  /** The part of a reservation made for one group. */
  function ReservedFor(p: Purpose, code: Request, ro: Request, rw: Request): Request {
    match p case Code => code case ROData => ro case RWData => rw
  }

  /** The orders to a group stay within the reserved size and alignment. */
  ghost predicate Covered(orders: seq<Order>, p: Purpose, r: Request)
    requires r.align > 0
  {
    && (forall i :: 0 <= i < |orders| && orders[i].purpose == p ==>
          && r.size > 0 && PowerOfTwo(EffectiveAlign(orders[i].request.align))
          && orders[i].request.align <= Max(r.align, STUB_ALIGN))
    && PaddedFor(orders, p, Max(r.align, STUB_ALIGN)) <= RoundUp(r.size, Max(r.align, STUB_ALIGN))
  }

  /** The sections that the orders have been given. */
  function SectionsOf(orders: seq<Order>, addrs: seq<nat>): (r: seq<Section>)
    requires |addrs| == |orders|
    ensures |r| == |orders|
  {
    seq(|orders|, i requires 0 <= i < |orders| =>
      Section(orders[i].purpose, MemoryBlock(addrs[i], orders[i].request.size), EffectiveAlign(orders[i].request.align), false))
  }

  lemma OneMoreSection(orders: seq<Order>, i: nat, addrs: seq<nat>, addr: nat)
    requires i < |orders| && |addrs| == i
    ensures var r := orders[i].request;
            SectionsOf(orders[..i + 1], addrs + [addr]) ==
            SectionsOf(orders[..i], addrs)
            + [Section(orders[i].purpose, MemoryBlock(addr, r.size), EffectiveAlign(r.align), false)]
  {
  }

  lemma LessRoom(m: MemoryGroup, align: nat, budget: nat, less: nat)
    requires align > 0 && HasRoom(m, align, budget) && less <= budget
    ensures HasRoom(m, align, less)
  {
    var k :| 0 <= k < |m.freeMem| && Room(m.freeMem[k].free, align, budget);
    assert Room(m.freeMem[k].free, align, less);
  }

  lemma FirstFitThere(free: seq<FreeMemBlock>, required: nat, k: nat)
    requires k < |free| && free[k].free.size >= required
    ensures FirstFit(free, required) < |free|
  {
  }

  lemma ServedAfter(before: seq<FreeMemBlock>, m: MemoryGroup, page: nat, k: nat, x: nat, size: nat, a: nat)
    requires page > 0 && PowerOfTwo(a) && WholePagesKept(before, m.freeMem, page) && PrefixesValid(m)
    requires k < |before| && FirstPage(before[k].free, page, x)
    requires a > 0 && x + a * ((size + a - 1) / a + 1) <= before[k].free.End()
    ensures AllocateIn(m, Request(size, a)).1.Some?
  {
    hide FirstPage, FromFirstPage;
    assert IsFree(m.freeMem, UpTo(x, before[k].free.End()));
    var j :| 0 <= j < |m.freeMem| && m.freeMem[j].free == UpTo(x, before[k].free.End());
    assert RequiredSize(size, a) == a * ((size + a - 1) / a + 1);
    hide RequiredSize;
    FirstFitThere(m.freeMem, RequiredSize(size, a), j);
  }

  class LlvmliteMemoryManager {
    const pageSize: nat
    var codeMem: MemoryGroup
    var rwDataMem: MemoryGroup
    var roDataMem: MemoryGroup
    ghost var history: History

    ghost predicate Valid()
      reads this
    {
      && PowerOfTwo(pageSize) && pageSize > 0
      && HistoryOk(history, pageSize)
      && ReservedOk(history, codeMem.allocatedMem)
      && GroupOk(codeMem, Code, history)
      && GroupOk(roDataMem, ROData, history)
      && GroupOk(rwDataMem, RWData, history)
    }

    function Group(p: Purpose): MemoryGroup
      reads this
    {
      match p case Code => codeMem case ROData => roDataMem case RWData => rwDataMem
    }

    constructor (pageSize: nat)
      requires PowerOfTwo(pageSize)
      ensures Valid() && this.pageSize == pageSize && history == History([], [], [])
      ensures forall p :: Group(p) == MemoryGroup([], [], [])
    {
      this.pageSize := pageSize;
      codeMem, rwDataMem, roDataMem := MemoryGroup([], [], []), MemoryGroup([], [], []), MemoryGroup([], [], []);
      history := History([], [], []);
      new;
      EmptyOk(pageSize);
    }

    static lemma EmptyOk(page: nat)
      requires PowerOfTwo(page)
      ensures page > 0 && HistoryOk(History([], [], []), page) && ReservedOk(History([], [], []), [])
      ensures forall p :: GroupOk(MemoryGroup([], [], []), p, History([], [], []))
    {
    }

    lemma HandKeepsValid(p: Purpose, k: nat, size: nat, align: nat)
      requires Valid() && CanHand(Group(p), p, history, pageSize, k, size, align)
      ensures var h' := WithSection(history, p, SectionIn(Group(p).freeMem[k], size, align), align);
              && HistoryOk(h', pageSize) && ReservedOk(h', codeMem.allocatedMem)
              && GroupOk(Handed(Group(p), k, size, align), p, h')
              && forall q :: q != p ==> GroupOk(Group(q), q, h')
    {
      var m := Group(p);
      HandKeepsHistory(m, p, history, pageSize, k, size, align);
      HandKeepsFree(m, p, history, pageSize, k, size, align);
      HandKeepsPending(m, p, history, pageSize, k, size, align);
      forall q | q != p ensures GroupOk(Group(q), q, WithSection(history, p, SectionIn(m.freeMem[k], size, align), align)) {
        HandKeepsOther(m, p, history, pageSize, k, size, align, Group(q), q);
      }
    }

    lemma HandReady(p: Purpose, k: nat, size: nat, align: nat)
      requires Valid() && align > 0 && k < |Group(p).freeMem| && Fits(Group(p).freeMem[k], size, align)
      ensures CanHand(Group(p), p, history, pageSize, k, size, align)
    {
    }

    lemma GroupPrefixesValid(p: Purpose)
      requires Valid()
      ensures PrefixesValid(Group(p))
    {
      assert PrefixOk(Group(p), p, history);
    }

    /** The first free block that is large enough, or the end of the list. */
    method FindBlock(free: seq<FreeMemBlock>, required: nat) returns (k: nat)
      ensures k == FirstFit(free, required)
    {
      k := 0;
      while k < |free|
        invariant 0 <= k <= |free|
        invariant FirstFit(free, required) == k + FirstFit(free[k..], required)
      {
        if free[k].free.size >= required {
          return;
        }
        assert free[k..][1..] == free[k + 1..];
        k := k + 1;
      }
    }

    /** Carves a section out of a free block, extending the pending block before
        it if there is one. */
    method Carve(m: MemoryGroup, k: nat, size: nat, align: nat, ghost p: Purpose) returns (m': MemoryGroup, addr: nat)
      requires CanHand(m, p, history, pageSize, k, size, align)
      ensures m.freeMem[k].pendingPrefixIndex.Some? ==> m.freeMem[k].pendingPrefixIndex.value < |m.pendingMem|
      ensures m' == Handed(m, k, size, align) && addr == SectionIn(m.freeMem[k], size, align).base
    {
      var f := m.freeMem[k];
      addr := RoundUp(f.free.base, align);
      var endOfBlock := f.free.End();
      SectionFits(f, size, align);
      hide RoundUp;
      var pending, index := m.pendingMem, f.pendingPrefixIndex;
      if f.pendingPrefixIndex.None? {
        pending := pending + [MemoryBlock(addr, size)];
        index := Some(|pending| - 1);
      } else {
        var pendingMB := pending[f.pendingPrefixIndex.value];
        assert JoinsInSpan(history, p, pendingMB, f.free);
        pending := pending[f.pendingPrefixIndex.value :=
                     MemoryBlock(pendingMB.base, addr + size - pendingMB.base)];
      }
      var free := FreeMemBlock(MemoryBlock(addr + size, endOfBlock - addr - size), index);
      m' := m.(pendingMem := pending, freeMem := m.freeMem[k := free]);
    }

    /** Hands out a section from the first free block that is large enough. The
        section is aligned, disjoint from every section handed out before, inside
        its reservation, and on no page whose permissions were changed (all by
        `Valid`). A request within the room left is never refused. */
    method AllocateSection(p: Purpose, size: nat, alignment: nat) returns (r: Option<nat>)
      requires Valid() && PowerOfTwo(EffectiveAlign(alignment))
      modifies this
      ensures Valid()
      ensures PrefixesValid(old(Group(p)))
      ensures (Group(p), r) == AllocateIn(old(Group(p)), Request(size, alignment))
      ensures forall q :: q != p ==> Group(q) == old(Group(q))
      ensures match r
              case None => history == old(history)
              case Some(addr) =>
                && history == WithSection(old(history), p, MemoryBlock(addr, size), EffectiveAlign(alignment))
                && forall i :: 0 <= i < |old(history).sections| && old(history).sections[i].isSealed ==>
                     Apart(Pages(old(history).sections[i].block, pageSize), MemoryBlock(addr, size))
    {
      GroupPrefixesValid(p);
      var align := EffectiveAlign(alignment);
      var required := align * ((size + align - 1) / align + 1);
      assert required == RequiredSize(size, align);
      hide RequiredSize, RoundUp, RoundDown, GroupOk, ReservedOk, HistoryOk, CanHand, PrefixesValid;
      var k := FindBlock(Group(p).freeMem, required);
      if k == |Group(p).freeMem| {
        return None;
      }
      HandReady(p, k, size, align);
      HandKeepsValid(p, k, size, align);
      var m, addr := Carve(Group(p), k, size, align, p);
      ghost var h' := WithSection(history, p, MemoryBlock(addr, size), align);
      InstallGroup(p, m, h');
      forall i | 0 <= i < |old(history).sections| && old(history).sections[i].isSealed
        ensures Apart(Pages(old(history).sections[i].block, pageSize), MemoryBlock(addr, size))
      {
        SealedPagesApart(h', pageSize, i, |old(history).sections|);
      }
      return Some(addr);
    }

    /** Replaces one group and the history, when all groups are right for it. */
    method InstallGroup(p: Purpose, m: MemoryGroup, ghost h: History)
      requires PowerOfTwo(pageSize) && pageSize > 0
      requires HistoryOk(h, pageSize) && ReservedOk(h, codeMem.allocatedMem)
      requires m.allocatedMem == Group(p).allocatedMem
      requires GroupOk(m, p, h) && forall q :: q != p ==> GroupOk(Group(q), q, h)
      modifies this
      ensures Valid() && history == h && Group(p) == m
      ensures forall q :: q != p ==> Group(q) == old(Group(q))
    {
      assert p != Code ==> GroupOk(Group(Code), Code, h);
      assert p != ROData ==> GroupOk(Group(ROData), ROData, h);
      assert p != RWData ==> GroupOk(Group(RWData), RWData, h);
      history := h;
      match p
      case Code => codeMem := m;
      case ROData => roDataMem := m;
      case RWData => rwDataMem := m;
    }

    ghost predicate HasBlock(m: MemoryGroup, size: nat) {
      exists k :: 0 <= k < |m.freeMem| && m.freeMem[k].free.size >= size
    }

    method HasSpace(m: MemoryGroup, size: nat) returns (r: bool)
      ensures r <==> HasBlock(m, size)
    {
      var k := 0;
      while k < |m.freeMem|
        invariant 0 <= k <= |m.freeMem|
        invariant forall j :: 0 <= j < k ==> m.freeMem[j].free.size < size
      {
        if m.freeMem[k].free.size >= size {
          return true;
        }
        k := k + 1;
      }
      return false;
    }

    /** The size and alignment asked of each group. */
    function Padded(size: nat, align: nat): nat
      requires align > 0
    {
      RoundUp(size, Max(align, STUB_ALIGN)) + Max(align, STUB_ALIGN)
    }

    function Total(code: Request, ro: Request, rw: Request): nat
      requires code.align > 0 && ro.align > 0 && rw.align > 0 && pageSize > 0
    {
      RoundUp(Padded(code.size, code.align), pageSize)
      + RoundUp(Padded(ro.size, ro.align), pageSize)
      + RoundUp(Padded(rw.size, rw.align), pageSize)
    }

    /** What the mapper returns: a page-aligned block of at least the requested
        size that overlaps nothing mapped before. */
    ghost predicate FreshMapping(mb: MemoryBlock, size: nat)
      requires pageSize > 0
      reads this
    {
      && mb.base % pageSize == 0 && mb.size >= size
      && (forall r :: 0 <= r < |codeMem.allocatedMem| ==> Apart(codeMem.allocatedMem[r], mb))
    }

    /** Starts group `p` over with the block as its only free memory. */
    method PushFree(p: Purpose, b: MemoryBlock)
      requires Valid() && FreshSpan(history, pageSize, b)
      requires InReservation(b, codeMem.allocatedMem)
      modifies this
      ensures Valid()
      ensures history == WithSpan(old(history), p, b)
      ensures Group(p) == old(Group(p)).(freeMem := [FreeMemBlock(b, None)])
      ensures forall q :: q != p ==> Group(q) == old(Group(q))
    {
      ghost var h' := WithSpan(history, p, b);
      AddSpanHistory(history, pageSize, p, b);
      forall q | q != p ensures GroupOk(Group(q), q, h') {
        AddSpanGroup(history, pageSize, p, b, Group(q), q);
      }
      StartSpan(history, pageSize, p, b, Group(p));
      AddSpanReserved(history, p, b, codeMem.allocatedMem);
      InstallGroup(p, Group(p).(freeMem := [FreeMemBlock(b, None)]), h');
    }

    lemma AddSpanReserved(h: History, p: Purpose, b: MemoryBlock, reserved: seq<MemoryBlock>)
      requires ReservedOk(h, reserved) && InReservation(b, reserved)
      ensures ReservedOk(WithSpan(h, p, b), reserved)
    {
      var h' := WithSpan(h, p, b);
      forall i | 0 <= i < |h'.spans| ensures InReservation(h'.spans[i].block, reserved) {
        if i < |h.spans| {
          assert h'.spans[i] == h.spans[i];
        }
      }
    }

    ghost predicate RoomFor(p: Purpose, r: Request)
      requires r.align > 0
      reads this
    {
      HasRoom(Group(p), Max(r.align, STUB_ALIGN), RoundUp(r.size, Max(r.align, STUB_ALIGN)))
    }

    lemma MaxPower(a: nat)
      requires PowerOfTwo(a) && a <= pageSize && STUB_ALIGN <= pageSize
      ensures PowerOfTwo(Max(a, STUB_ALIGN)) && Max(a, STUB_ALIGN) <= pageSize
    {
      assert PowerOfTwo(8);
    }

    lemma LeftoverSuffices(p: Purpose, r: Request)
      requires Valid() && PowerOfTwo(r.align) && r.align <= pageSize && STUB_ALIGN <= pageSize
      requires HasBlock(Group(p), Padded(r.size, r.align))
      ensures RoomFor(p, r)
    {
      var m := Group(p);
      var k :| 0 <= k < |m.freeMem| && m.freeMem[k].free.size >= Padded(r.size, r.align);
      MaxPower(r.align);
      assert GroupOk(Group(p), p, history);
      FreeEndsOnPage(Group(p), p, history, pageSize, k);
      LeftoverHasRoom(Group(p).freeMem[k].free, pageSize, Max(r.align, STUB_ALIGN), r.size);
    }

    /** Every span lies outside the new mapping or ends at or below `addr`. */
    ghost predicate Below(h: History, mb: MemoryBlock, addr: nat) {
      forall i :: 0 <= i < |h.spans| ==> Apart(h.spans[i].block, mb) || h.spans[i].block.End() <= addr
    }

    /** Gives group `p` the next `size` bytes of the mapping. */
    method TakePart(p: Purpose, mb: MemoryBlock, addr: nat, size: nat)
      requires Valid() && Below(history, mb, addr)
      requires addr % pageSize == 0 && size % pageSize == 0
      requires mb.base <= addr && addr + size <= mb.End()
      requires exists r :: 0 <= r < |codeMem.allocatedMem| && codeMem.allocatedMem[r] == mb
      modifies this
      ensures Valid() && Below(history, mb, addr + size) && (addr + size) % pageSize == 0
      ensures history == WithSpan(old(history), p, MemoryBlock(addr, size))
      ensures Group(p) == old(Group(p)).(freeMem := [FreeMemBlock(MemoryBlock(addr, size), None)])
      ensures forall q :: q != p ==> Group(q) == old(Group(q))
    {
      var b := MemoryBlock(addr, size);
      SumMultiple(addr, size, pageSize);
      forall i | 0 <= i < |history.spans| ensures Apart(history.spans[i].block, b) {
        assert Apart(history.spans[i].block, mb) || history.spans[i].block.End() <= addr;
      }
      PushFree(p, b);
    }

    lemma FreshPartHasRoom(p: Purpose, r: Request, addr: nat)
      requires PowerOfTwo(pageSize) && PowerOfTwo(r.align) && addr % pageSize == 0
      requires Group(p).freeMem == [FreeMemBlock(MemoryBlock(addr, RoundUp(Padded(r.size, r.align), pageSize)), None)]
      ensures r.align <= pageSize && STUB_ALIGN <= pageSize ==> RoomFor(p, r)
    {
      if r.align <= pageSize && STUB_ALIGN <= pageSize {
        MaxPower(r.align);
        FreshHasRoom(addr, pageSize, Max(r.align, STUB_ALIGN), r.size, RoundUp(Padded(r.size, r.align), pageSize));
        assert Room(Group(p).freeMem[0].free, Max(r.align, STUB_ALIGN), RoundUp(r.size, Max(r.align, STUB_ALIGN)));
      }
    }

    lemma ReservationOf(h: History, reserved: seq<MemoryBlock>, i: nat) returns (r: nat)
      requires ReservedOk(h, reserved) && i < |h.spans|
      ensures r < |reserved| && Within(h.spans[i].block, reserved[r])
    {
      assert InReservation(h.spans[i].block, reserved);
      r :| 0 <= r < |reserved| && Within(h.spans[i].block, reserved[r]);
    }

    /** Drops all free memory and takes over the new mapping. */
    method StartMapping(mb: MemoryBlock, ghost size: nat)
      requires Valid() && FreshMapping(mb, size)
      modifies this
      ensures Valid() && history == old(history) && Below(history, mb, mb.base)
      ensures exists r :: 0 <= r < |codeMem.allocatedMem| && codeMem.allocatedMem[r] == mb
      ensures codeMem == old(codeMem).(freeMem := [], allocatedMem := old(codeMem).allocatedMem + [mb])
      ensures roDataMem == old(roDataMem).(freeMem := []) && rwDataMem == old(rwDataMem).(freeMem := [])
    {
      StartMappingKeeps(mb, size);
      ghost var reserved := codeMem.allocatedMem;
      hide GroupOk, HistoryOk, ReservedOk;
      codeMem := codeMem.(freeMem := [], allocatedMem := codeMem.allocatedMem + [mb]);
      roDataMem := roDataMem.(freeMem := []);
      rwDataMem := rwDataMem.(freeMem := []);
      assert codeMem.allocatedMem[|reserved|] == mb;
    }

    lemma StartMappingKeeps(mb: MemoryBlock, size: nat)
      requires Valid() && FreshMapping(mb, size)
      ensures forall a :: GroupOk(codeMem.(freeMem := [], allocatedMem := a), Code, history)
      ensures GroupOk(roDataMem.(freeMem := []), ROData, history)
      ensures GroupOk(rwDataMem.(freeMem := []), RWData, history)
      ensures ReservedOk(history, codeMem.allocatedMem + [mb])
      ensures Below(history, mb, mb.base)
    {
      DropFree(codeMem, Code, history);
      DropFree(roDataMem, ROData, history);
      DropFree(rwDataMem, RWData, history);
      var reserved := codeMem.allocatedMem;
      forall i | 0 <= i < |history.spans|
        ensures Apart(history.spans[i].block, mb)
        ensures InReservation(history.spans[i].block, reserved + [mb])
      {
        var r := ReservationOf(history, reserved, i);
        WithinApart(history.spans[i].block, reserved[r], mb);
        assert (reserved + [mb])[r] == reserved[r];
      }
    }

    function PartSize(r: Request): nat
      requires r.align > 0 && pageSize > 0
    {
      RoundUp(Padded(r.size, r.align), pageSize)
    }

    /** The bytes that a group's part of the mapping takes, if it asked for any. */
    function Taken(r: Request): nat
      requires r.align > 0 && pageSize > 0
    {
      if r.size > 0 then PartSize(r) else 0
    }

    function FreePart(r: Request, addr: nat): seq<FreeMemBlock>
      requires r.align > 0 && pageSize > 0
    {
      if r.size > 0 then [FreeMemBlock(MemoryBlock(addr, PartSize(r)), None)] else []
    }

    /** Gives group `p` its part of the mapping if it asked for any. */
    method TakeIfAsked(p: Purpose, r: Request, mb: MemoryBlock, addr: nat) returns (next: nat)
      requires Valid() && Below(history, mb, addr) && PowerOfTwo(r.align) && addr % pageSize == 0
      requires mb.base <= addr && addr + PartSize(r) <= mb.End()
      requires exists x :: 0 <= x < |codeMem.allocatedMem| && codeMem.allocatedMem[x] == mb
      requires Group(p).freeMem == []
      modifies this
      ensures Valid() && Below(history, mb, next) && next % pageSize == 0
      ensures next == addr + Taken(r)
      ensures history.sections == old(history).sections && history.protections == old(history).protections
      ensures Granted(p, r)
      ensures Group(p) == old(Group(p)).(freeMem := FreePart(r, addr))
      ensures forall q :: q != p ==> Group(q) == old(Group(q))
    {
      hide RoundUp;
      next := addr;
      if r.size > 0 {
        RoundMultiple(Padded(r.size, r.align), pageSize);
        TakePart(p, mb, addr, PartSize(r));
        FreshPartHasRoom(p, r, addr);
        next := addr + PartSize(r);
      }
    }

    /** The request asks for nothing, or the space left over is enough for it. */
    ghost predicate Suffices(code: Request, ro: Request, rw: Request)
      requires code.align > 0 && ro.align > 0 && rw.align > 0
      reads this
    {
      || (code.size == 0 && ro.size == 0 && rw.size == 0)
      || (HasBlock(codeMem, Padded(code.size, code.align))
          && HasBlock(roDataMem, Padded(ro.size, ro.align))
          && HasBlock(rwDataMem, Padded(rw.size, rw.align)))
    }

    /** The mapping belongs to the code group and is divided among the groups, in
        order; nothing else is free any more, and what is pending stays so. */
    twostate predicate Divided(code: Request, ro: Request, rw: Request, mb: MemoryBlock)
      requires code.align > 0 && ro.align > 0 && rw.align > 0 && pageSize > 0
      reads this
    {
      && codeMem == old(codeMem).(freeMem := FreePart(code, mb.base), allocatedMem := old(codeMem).allocatedMem + [mb])
      && roDataMem == old(roDataMem).(freeMem := FreePart(ro, mb.base + Taken(code)))
      && rwDataMem == old(rwDataMem).(freeMem := FreePart(rw, mb.base + Taken(code) + Taken(ro)))
    }

    /** Reserves space, or keeps the space left over. Either way each group that
        was asked for space has room for it, so that allocations within the
        request will not be refused (`SectionReserve.ReservationSuffices`). */
    method ReserveAllocationSpace(code: Request, ro: Request, rw: Request, mb: MemoryBlock)
      requires Valid() && PowerOfTwo(code.align) && PowerOfTwo(ro.align) && PowerOfTwo(rw.align)
      requires FreshMapping(mb, Total(code, ro, rw))
      modifies this
      ensures Valid()
      ensures old(Suffices(code, ro, rw)) ==> history == old(history) && forall p :: Group(p) == old(Group(p))
      ensures !old(Suffices(code, ro, rw)) ==> Divided(code, ro, rw, mb)
      ensures history.sections == old(history).sections && history.protections == old(history).protections
      ensures Granted(Code, code) && Granted(ROData, ro) && Granted(RWData, rw)
    {
      hide RoundUp, GroupOk, HistoryOk, ReservedOk, HasRoom;
      if code.size == 0 && ro.size == 0 && rw.size == 0 {
        return;
      }
      var codeFits := HasSpace(codeMem, Padded(code.size, code.align));
      var roFits := HasSpace(roDataMem, Padded(ro.size, ro.align));
      var rwFits := HasSpace(rwDataMem, Padded(rw.size, rw.align));
      if codeFits && roFits && rwFits {
        if STUB_ALIGN <= pageSize {
          if code.align <= pageSize { LeftoverSuffices(Code, code); }
          if ro.align <= pageSize { LeftoverSuffices(ROData, ro); }
          if rw.align <= pageSize { LeftoverSuffices(RWData, rw); }
        }
        return;
      }
      ReserveFresh(code, ro, rw, mb);
    }

    /** There is room for the orders to every group. */
    ghost predicate RoomForAll(orders: seq<Order>, code: Request, ro: Request, rw: Request)
      requires code.align > 0 && ro.align > 0 && rw.align > 0
      reads this
    {
      forall p :: ReservedFor(p, code, ro, rw).size > 0 ==>
        var align := Max(ReservedFor(p, code, ro, rw).align, STUB_ALIGN);
        HasRoom(Group(p), align, PaddedFor(orders, p, align))
    }

    /** The whole contract, on the object: a reservation, then any interleaving of
        allocations in the three groups within it. None of them is refused. */
    method ReserveThenAllocate(code: Request, ro: Request, rw: Request, mb: MemoryBlock, orders: seq<Order>)
      returns (addrs: seq<nat>)
      requires Valid() && PowerOfTwo(code.align) && PowerOfTwo(ro.align) && PowerOfTwo(rw.align)
      requires FreshMapping(mb, Total(code, ro, rw))
      requires STUB_ALIGN <= pageSize && forall p :: ReservedFor(p, code, ro, rw).align <= pageSize
      requires forall p :: Covered(orders, p, ReservedFor(p, code, ro, rw))
      modifies this
      ensures Valid() && |addrs| == |orders|
      ensures history.sections == old(history.sections) + SectionsOf(orders, addrs)
    {
      hide RoundUp, HistoryOk, GroupOk, ReservedOk, HasRoom, FreshMapping;
      ReserveAllocationSpace(code, ro, rw, mb);
      EnoughRoom(orders, code, ro, rw);
      addrs := [];
      var i := 0;
      assert orders[0..] == orders;
      while i < |orders|
        invariant 0 <= i <= |orders| && |addrs| == i
        invariant history.sections == old(history.sections) + SectionsOf(orders[..i], addrs)
        invariant Valid() && RoomForAll(orders[i..], code, ro, rw)
      {
        var order := orders[i];
        assert orders[i..][0] == order && orders[i..][1..] == orders[i + 1..];
        assert Covered(orders, order.purpose, ReservedFor(order.purpose, code, ro, rw));
        GroupPrefixesValid(order.purpose);
        NextOrder(orders[i..], order.purpose, code, ro, rw);
        var addr := AllocateSection(order.purpose, order.request.size, order.request.align);
        OneMoreSection(orders, i, addrs, addr.value);
        addrs := addrs + [addr.value];
        i := i + 1;
      }
      assert orders[..i] == orders;
    }

    lemma EnoughRoom(orders: seq<Order>, code: Request, ro: Request, rw: Request)
      requires PowerOfTwo(code.align) && PowerOfTwo(ro.align) && PowerOfTwo(rw.align)
      requires STUB_ALIGN <= pageSize && forall p :: ReservedFor(p, code, ro, rw).align <= pageSize
      requires Granted(Code, code) && Granted(ROData, ro) && Granted(RWData, rw)
      requires forall p :: Covered(orders, p, ReservedFor(p, code, ro, rw))
      ensures RoomForAll(orders, code, ro, rw)
    {
      hide RoundUp, HasRoom;
      forall p | ReservedFor(p, code, ro, rw).size > 0
        ensures var align := Max(ReservedFor(p, code, ro, rw).align, STUB_ALIGN);
                HasRoom(Group(p), align, PaddedFor(orders, p, align))
      {
        var r := ReservedFor(p, code, ro, rw);
        assert Granted(p, r) && Covered(orders, p, r);
        var align := Max(r.align, STUB_ALIGN);
        LessRoom(Group(p), align, RoundUp(r.size, align), PaddedFor(orders, p, align));
      }
    }

    /** The first order is served, and the others still will be. */
    lemma NextOrder(orders: seq<Order>, p: Purpose, code: Request, ro: Request, rw: Request)
      requires Valid() && PowerOfTwo(code.align) && PowerOfTwo(ro.align) && PowerOfTwo(rw.align)
      requires orders != [] && orders[0].purpose == p && RoomForAll(orders, code, ro, rw)
      requires ReservedFor(p, code, ro, rw).size > 0 && PowerOfTwo(EffectiveAlign(orders[0].request.align))
      requires orders[0].request.align <= Max(ReservedFor(p, code, ro, rw).align, STUB_ALIGN)
      ensures PrefixesValid(Group(p)) && AllocateIn(Group(p), orders[0].request).1.Some?
      ensures var align := Max(ReservedFor(p, code, ro, rw).align, STUB_ALIGN);
              HasRoom(AllocateIn(Group(p), orders[0].request).0, align, PaddedFor(orders[1..], p, align))
      ensures forall q :: q != p && ReservedFor(q, code, ro, rw).size > 0 ==>
                var align := Max(ReservedFor(q, code, ro, rw).align, STUB_ALIGN);
                HasRoom(Group(q), align, PaddedFor(orders[1..], q, align))
    {
      hide RoundUp, HasRoom, HistoryOk, GroupOk, ReservedOk, AllocateIn;
      GroupPrefixesValid(p);
      var r := ReservedFor(p, code, ro, rw);
      var align := Max(r.align, STUB_ALIGN);
      assert PowerOfTwo(8);
      assert HasRoom(Group(p), align, PaddedFor(orders, p, align));
      RoomServes(Group(p), align, PaddedFor(orders, p, align), orders[0].request);
    }

    /** The room asked for, wherever the request is one the contract covers. */
    ghost predicate Granted(p: Purpose, r: Request)
      requires r.align > 0
      reads this
    {
      r.size > 0 && r.align <= pageSize && STUB_ALIGN <= pageSize ==> RoomFor(p, r)
    }

    method ReserveFresh(code: Request, ro: Request, rw: Request, mb: MemoryBlock)
      requires Valid() && PowerOfTwo(code.align) && PowerOfTwo(ro.align) && PowerOfTwo(rw.align)
      requires FreshMapping(mb, Total(code, ro, rw))
      modifies this
      ensures Valid() && Divided(code, ro, rw, mb)
      ensures history.sections == old(history).sections && history.protections == old(history).protections
      ensures Granted(Code, code) && Granted(ROData, ro) && Granted(RWData, rw)
    {
      hide RoundUp, GroupOk, HistoryOk, ReservedOk, HasRoom, Below;
      StartMapping(mb, Total(code, ro, rw));
      assert codeMem == Group(Code);
      var addr := TakeIfAsked(Code, code, mb, mb.base);
      assert codeMem == Group(Code);
      ghost var c := codeMem;
      addr := TakeIfAsked(ROData, ro, mb, addr);
      assert codeMem == Group(Code) == c && Granted(Code, code);
      ghost var d := Group(ROData);
      addr := TakeIfAsked(RWData, rw, mb, addr);
      assert Group(Code) == c && Granted(Code, code);
      assert Group(ROData) == d && Granted(ROData, ro);
    }

    /** Cuts a block down to its whole pages. The block must end on a page, as
        every free block does; otherwise the subtraction could underflow. */
    method TrimBlockToPageSize(b: MemoryBlock) returns (t: MemoryBlock)
      requires pageSize > 0 && b.End() % pageSize == 0
      ensures t == Trimmed(b, pageSize) && WholePages(t, pageSize) && Within(t, b) && t.End() == b.End()
    {
      var startOverlap := (pageSize - b.base % pageSize) % pageSize;
      OverlapIs(b.base);
      RoundUpLeast(b.base, b.End(), pageSize);
      RoundMultiple(b.base, pageSize);
      SumMultiple(b.End(), RoundUp(b.base, pageSize), pageSize);
      var trimmedSize := b.size - startOverlap;
      trimmedSize := trimmedSize - trimmedSize % pageSize;
      t := MemoryBlock(b.base + startOverlap, trimmedSize);
    }

    lemma OverlapIs(base: nat)
      requires pageSize > 0
      ensures base + (pageSize - base % pageSize) % pageSize == RoundUp(base, pageSize)
    {
      var r := base % pageSize;
      var q := base / pageSize;
      assert base == q * pageSize + r;
      if r == 0 {
        DivModUnique(pageSize, 1, 0, pageSize);
        DivModUnique(base + pageSize - 1, q, pageSize - 1, pageSize);
      } else {
        DivModUnique(pageSize - r, 0, pageSize - r, pageSize);
        assert base + pageSize - 1 == (q + 1) * pageSize + (r - 1);
        DivModUnique(base + pageSize - 1, q + 1, r - 1, pageSize);
      }
    }

    /** Applies the permissions of one group: every pending block is protected,
        and each free block loses the page it may share with one. */
    method ApplyMemoryGroupPermissions(p: Purpose)
      requires Valid()
      modifies this
      ensures Valid()
      ensures Group(p) == Finalized(old(Group(p)), pageSize)
      ensures Group(p).pendingMem == [] && Group(p).allocatedMem == old(Group(p)).allocatedMem
      ensures WholePagesKept(old(Group(p)).freeMem, Group(p).freeMem, pageSize)
      ensures history == WithFinalize(old(history), p, old(Group(p)), pageSize)
      ensures forall q :: q != p ==> Group(q) == old(Group(q))
    {
      hide ReservedOk, SectionsOk, ProtectionsOk, PendingOk, PrefixOk, RoundUp, RoundDown;
      FinalizeKeepsValid(p);
      TrimAllKeeps(Group(p).freeMem, pageSize);
      hide GroupOk, HistoryOk, ReservedOk, SpansOk, FreeOk, TrimAll, WithFinalize, WholePagesKept;
      var m := Group(p);
      var trimmed := TrimFree(m, p);
      ghost var h' := WithFinalize(history, p, m, pageSize);
      InstallGroup(p, m.(pendingMem := [], freeMem := trimmed), h');
    }

    lemma FinalizeKeepsValid(p: Purpose)
      requires Valid()
      ensures SpansOk(history, pageSize) && FreeOk(Group(p), p, history)
      ensures var h' := WithFinalize(history, p, Group(p), pageSize);
              && HistoryOk(h', pageSize) && ReservedOk(h', codeMem.allocatedMem)
              && GroupOk(Finalized(Group(p), pageSize), p, h')
              && forall q :: q != p ==> GroupOk(Group(q), q, h')
    {
      var m := Group(p);
      var h' := WithFinalize(history, p, m, pageSize);
      assert GroupOk(m, p, history);
      FinalizeKeepsHistory(m, p, history, pageSize);
      FinalizeKeepsGroup(m, p, history, pageSize);
      hide HistoryOk, FreeOk, PendingOk, PrefixOk, SpansOk, Finalized;
      forall q | q != p ensures GroupOk(Group(q), q, h') {
        FinalizeKeepsOther(m, p, history, pageSize, Group(q), q);
      }
    }

    method TrimFree(m: MemoryGroup, ghost p: Purpose) returns (free: seq<FreeMemBlock>)
      requires pageSize > 0 && SpansOk(history, pageSize) && FreeOk(m, p, history)
      ensures free == TrimAll(m.freeMem, pageSize)
    {
      free := m.freeMem;
      var k := 0;
      while k < |free|
        invariant 0 <= k <= |free| == |m.freeMem|
        invariant forall j :: 0 <= j < k ==> free[j] == FreeMemBlock(Trimmed(m.freeMem[j].free, pageSize), None)
        invariant forall j :: k <= j < |free| ==> free[j] == m.freeMem[j]
      {
        FreeEndsOnPage(m, p, history, pageSize, k);
        var t := TrimBlockToPageSize(free[k].free);
        free := free[k := FreeMemBlock(t, None)];
        k := k + 1;
      }
      var kept: seq<FreeMemBlock> := [];
      k := 0;
      while k < |free|
        invariant 0 <= k <= |free|
        invariant kept == TrimAll(m.freeMem[..k], pageSize)
      {
        assert m.freeMem[..k + 1][..k] == m.freeMem[..k];
        if free[k].free.size != 0 {
          kept := kept + [free[k]];
        }
        k := k + 1;
      }
      assert m.freeMem[..k] == m.freeMem;
      free := kept;
    }

    lemma SealedProtected(h: History, i: nat)
      requires pageSize > 0 && HistoryOk(h, pageSize) && i < |h.sections| && h.sections[i].isSealed
      ensures IsProtected(h, h.sections[i])
    {
    }

    /** Makes code executable and read-only data read-only. Afterwards every code
        and read-only section is sealed: its pages are protected, hold nothing
        else, and are never handed out again. */
    method FinalizeMemory()
      requires Valid()
      modifies this
      ensures Valid()
      ensures history == WithFinalize(WithFinalize(old(history), Code, old(codeMem), pageSize),
                                      ROData, old(roDataMem), pageSize)
      ensures codeMem == Finalized(old(codeMem), pageSize) && roDataMem == Finalized(old(roDataMem), pageSize)
      ensures rwDataMem == old(rwDataMem)
      ensures codeMem.pendingMem == [] && roDataMem.pendingMem == []
      ensures WholePagesKept(old(codeMem).freeMem, codeMem.freeMem, pageSize)
      ensures WholePagesKept(old(roDataMem).freeMem, roDataMem.freeMem, pageSize)
      ensures forall i :: 0 <= i < |history.sections| && history.sections[i].purpose != RWData ==>
                            history.sections[i].isSealed && IsProtected(history, history.sections[i])
    {
      hide GroupOk, ReservedOk, HistoryOk, Finalized, WholePagesKept;
      ApplyMemoryGroupPermissions(Code);
      assert codeMem == Group(Code) && roDataMem == Group(ROData) && rwDataMem == Group(RWData);
      ghost var h1 := history;
      ApplyMemoryGroupPermissions(ROData);
      assert codeMem == Group(Code) && roDataMem == Group(ROData) && rwDataMem == Group(RWData);
      forall i | 0 <= i < |history.sections| && history.sections[i].purpose != RWData
        ensures history.sections[i].isSealed && IsProtected(history, history.sections[i])
      {
        assert h1.sections[i].purpose == history.sections[i].purpose;
        SealedProtected(history, i);
      }
    }

    /** What whole pages were free before finalizing serve a request that fits them
        afterwards. */
    method FinalizeThenAllocate(p: Purpose, size: nat, alignment: nat, ghost k: nat, ghost x: nat) returns (r: Option<nat>)
      requires Valid() && alignment > 0 && PowerOfTwo(alignment) && p != RWData
      requires k < |Group(p).freeMem| && FirstPage(Group(p).freeMem[k].free, pageSize, x)
      requires x + alignment * ((size + alignment - 1) / alignment + 1) <= Group(p).freeMem[k].free.End()
      modifies this
      ensures Valid() && r.Some?
    {
      hide FirstPage, GroupOk, ReservedOk, HistoryOk, WholePagesKept, AllocateIn, PrefixesValid, PowerOfTwo, Finalized, WithFinalize;
      ghost var before := Group(p).freeMem;
      assert p == Code ==> before == codeMem.freeMem;
      assert p == ROData ==> before == roDataMem.freeMem;
      FinalizeMemory();
      assert WholePagesKept(before, Group(p).freeMem, pageSize);
      GroupPrefixesValid(p);
      ServedAfter(before, Group(p), pageSize, k, x, size, alignment);
      r := AllocateSection(p, size, alignment);
    }
  }
}
