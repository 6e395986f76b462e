/** The forward half of the fan-out search: a recursive walk that keeps only the
    current path, bounded in depth and in the number of blocks it enters. */
module FanoutSearch {
  import opened RefCounts
  import opened ControlFlow
  import opened Subgraph
  import opened GraphSearch
  import opened FanoutWalks

  const UNSIGNED_RANGE: nat := 0x1_0000_0000

  /** A limit that no counter exceeds. */
  predicate Ample(limit: nat) {
    limit >= UNSIGNED_RANGE - 1
  }

  /** Everything one step outside `region` is the path being walked, a decref
      block or a raising block. */
  ghost predicate Closed(g: Cfg, head: nat, region: set<nat>, path: seq<nat>, tails: set<nat>, raising: set<nat>) {
    forall n :: n in region ==>
      && n < |g.blocks| && n < |g.succs| && n != head && NoDec(g.blocks[n]) && g.succs[n] != []
      && forall s :: s in g.succs[n] ==> Reaches(head, region, path, tails, raising, s)
  }

  ghost predicate Reaches(head: nat, region: set<nat>, path: seq<nat>, tails: set<nat>, raising: set<nat>, s: nat) {
    s != head && (s in region || s in path || s in tails || s in raising)
  }

  lemma ClosedGrows(g: Cfg, head: nat, region: set<nat>, path: seq<nat>, tails: set<nat>, raising: set<nat>,
                    region': set<nat>, tails': set<nat>, raising': set<nat>)
    requires Closed(g, head, region, path, tails, raising)
    requires Closed(g, head, region', path, tails', raising')
    requires tails <= tails' && raising <= raising'
    ensures Closed(g, head, region + region', path, tails', raising')
  {
  }

  lemma SuccsIn(g: Cfg, b: nat)
    requires WellFormed(g) && b < |g.blocks|
    ensures b < |g.succs| && forall i :: 0 <= i < |g.succs[b]| ==> g.succs[b][i] < |g.blocks|
  {
  }

  /** What a search through `firsts` has established: the sets of noted blocks, and
      a closed region. */
  ghost predicate Searched(g: Cfg, head: nat, v: Value, track: bool, path: seq<nat>, firsts: seq<nat>, region: set<nat>,
                           tails: set<nat>, tails': set<nat>, raising: set<nat>, raising': set<nat>) {
    && Gathers(g, v, track, path, firsts, false, tails, tails', true)
    && Gathers(g, v, track, path, firsts, true, raising, raising', true)
    && Closed(g, head, region, path, tails', raising')
    && forall s :: s in firsts ==> Reaches(head, region, path, tails', raising', s)
  }

  lemma SearchedNone(g: Cfg, head: nat, v: Value, track: bool, path: seq<nat>, tails: set<nat>, raising: set<nat>)
    ensures Searched(g, head, v, track, path, [], {}, tails, tails, raising, raising)
  {
    hide NotedFrom;
    GathersNothing(g, v, track, path, [], false, tails);
    GathersNothing(g, v, track, path, [], true, raising);
  }

  /** One more successor has been searched, and the search got through. */
  lemma SearchedNext(g: Cfg, head: nat, v: Value, track: bool, path: seq<nat>, firsts: seq<nat>, s: nat, region: set<nat>, walked: set<nat>,
                     tails: set<nat>, mid: set<nat>, tails': set<nat>, raising: set<nat>, middle: set<nat>, raising': set<nat>)
    requires Searched(g, head, v, track, path, firsts, region, tails, mid, raising, middle)
    requires Searched(g, head, v, track, path, [s], walked, mid, tails', middle, raising')
    ensures Searched(g, head, v, track, path, firsts + [s], region + walked, tails, tails', raising, raising')
  {
    hide NotedFrom, NotedFromSome, Closed;
    GathersNext(g, v, track, path, firsts, s, false, tails, mid, tails', true);
    GathersNext(g, v, track, path, firsts, s, true, raising, middle, raising', true);
    ClosedGrows(g, head, region, path, mid, middle, walked, tails', raising');
    assert s in [s];
  }

  /** One more has been, and the search gave up there. */
  lemma SearchedPart(g: Cfg, head: nat, v: Value, track: bool, path: seq<nat>, succs: seq<nat>, i: nat, region: set<nat>,
                     tails: set<nat>, mid: set<nat>, tails': set<nat>, raising: set<nat>, middle: set<nat>, raising': set<nat>)
    requires i < |succs| && Searched(g, head, v, track, path, succs[..i], region, tails, mid, raising, middle)
    requires Gathers(g, v, track, path, [succs[i]], false, mid, tails', false)
    requires Gathers(g, v, track, path, [succs[i]], true, middle, raising', false)
    ensures Gathers(g, v, track, path, succs, false, tails, tails', false)
    ensures Gathers(g, v, track, path, succs, true, raising, raising', false)
  {
    hide NotedFrom, NotedFromSome, Gathers, Closed, Reaches;
    GathersNext(g, v, track, path, succs[..i], succs[i], false, tails, mid, tails', false);
    GathersNext(g, v, track, path, succs[..i], succs[i], true, raising, middle, raising', false);
    GathersMore(g, v, track, path, succs[..i] + [succs[i]], succs, false, tails, tails');
    GathersMore(g, v, track, path, succs[..i] + [succs[i]], succs, true, raising, raising');
  }

  lemma SearchedAll(g: Cfg, head: nat, v: Value, track: bool, path: seq<nat>, succs: seq<nat>, region: set<nat>,
                    tails: set<nat>, tails': set<nat>, raising: set<nat>, raising': set<nat>, all: bool)
    requires Searched(g, head, v, track, path, succs, region, tails, tails', raising, raising')
    ensures Gathers(g, v, track, path, succs, false, tails, tails', all)
    ensures Gathers(g, v, track, path, succs, true, raising, raising', all)
    ensures Closed(g, head, region, path, tails', raising')
    ensures forall s :: s in succs ==> Reaches(head, region, path, tails', raising', s)
  {
    hide NotedFrom, NotedFromSome, Closed, Reaches;
  }

  lemma ClosedPop(g: Cfg, head: nat, region: set<nat>, path: seq<nat>, cur: nat, tails: set<nat>, raising: set<nat>)
    requires Closed(g, head, region, path + [cur], tails, raising)
    requires cur < |g.blocks| && cur < |g.succs| && cur != head && NoDec(g.blocks[cur]) && g.succs[cur] != []
    requires forall s :: s in g.succs[cur] ==> Reaches(head, region, path + [cur], tails, raising, s)
    ensures Closed(g, head, region + {cur}, path, tails, raising)
  {
    var region' := region + {cur};
    forall n, s | n in region' && s in g.succs[n] ensures Reaches(head, region', path, tails, raising, s) {
      assert Reaches(head, region, path + [cur], tails, raising, s);
    }
  }

  /** A whole search from the head stays within the limit. */
  ghost predicate InLimit(g: Cfg, head: nat, track: bool, limit: nat) {
    Ample(limit) || (head < |g.succs| && Calls(g, track, [head], g.succs[head]) <= limit)
  }

  class ForwardSearch {
    const g: Cfg
    const head: nat
    const v: Value
    const trackRaising: bool
    const subgraphLimit: nat
    var pathStack: seq<nat>
    var subgraphSize: nat
    var badBlocks: set<nat>
    var decrefBlocks: set<nat>
    var raisingBlocks: set<nat>

    constructor (g: Cfg, head: nat, v: Value, trackRaising: bool, subgraphLimit: nat, badBlocks: set<nat>)
      requires WellFormed(g) && head < |g.blocks|
      ensures Valid() && pathStack == [head] && decrefBlocks == {} && raisingBlocks == {}
      ensures this.g == g && this.head == head && this.v == v && this.trackRaising == trackRaising
      ensures subgraphSize == 0 && !TooBig()
      ensures this.subgraphLimit == subgraphLimit && this.badBlocks == badBlocks
    {
      this.g, this.head, this.v := g, head, v;
      this.trackRaising, this.subgraphLimit := trackRaising, subgraphLimit;
      this.badBlocks := badBlocks;
      pathStack, subgraphSize, decrefBlocks, raisingBlocks := [head], 0, {}, {};
    }

    ghost predicate Valid()
      reads this
    {
      && WellFormed(g) && head < |g.blocks|
      && 0 < |pathStack| <= FANOUT_RECURSE_DEPTH && pathStack[0] == head && Simple(pathStack)
      && subgraphSize < UNSIGNED_RANGE && head !in decrefBlocks
      && (forall b :: b in decrefBlocks ==> b < |g.blocks| && HasRelatedDecref(g.blocks[b], v))
      && raisingBlocks <= Skipped(g, trackRaising)
    }

    /** The limit on the size of the subgraph has been hit. */
    predicate TooBig()
      reads this`subgraphSize
    {
      subgraphSize > subgraphLimit
    }

    /** The counter has counted at most `calls` calls, and all of them if the search
        got through. */
    twostate predicate Counted(calls: nat, all: bool)
      reads this
    {
      !Ample(subgraphLimit) ==>
        subgraphSize <= old(subgraphSize) + calls && (all ==> subgraphSize == old(subgraphSize) + calls)
    }

    /** What a search through `firsts` has added to the two sets of blocks. */
    twostate predicate Gathered(firsts: seq<nat>, all: bool)
      reads this
    {
      && Gathers(g, v, trackRaising, pathStack, firsts, false, old(decrefBlocks), decrefBlocks, all)
      && Gathers(g, v, trackRaising, pathStack, firsts, true, old(raisingBlocks), raisingBlocks, all)
    }

    /** Walks one successor. It succeeds exactly if no walk from there is refused,
        unless the subgraph is too big, and notes the blocks where such walks end.
        On success `region` is closed: whatever the walk entered and did not
        finish at leads only back into the region, to the path above, or to a
        block where the walk stopped. A block met again on the current path counts
        as done, which is what makes this an induction over the recursion. */
    method WalkChildForDecref(cur: nat) returns (found: bool, ghost region: set<nat>)
      requires Valid() && cur < |g.blocks| && !TooBig()
      modifies this
      ensures Valid() && pathStack == old(pathStack) && (found ==> !TooBig())
      ensures Counted(CallsAt(g, trackRaising, pathStack, cur), found)
      ensures old(badBlocks) <= badBlocks <= old(badBlocks) + {head}
      ensures found ==> Free(g, v, trackRaising, pathStack, cur)
      ensures !found ==> TooBig() || !Free(g, v, trackRaising, pathStack, cur)
      ensures found ==> badBlocks == old(badBlocks)
      ensures Gathered([cur], found)
      ensures found ==> Closed(g, head, region, pathStack, decrefBlocks, raisingBlocks)
      ensures found ==> Reaches(head, region, pathStack, decrefBlocks, raisingBlocks, cur)
      decreases FANOUT_RECURSE_DEPTH - |pathStack|, 0
    {
      hide NotedFrom, Free, AllFree, Gathers, Calls;
      region := {};
      GathersNothing(g, v, trackRaising, pathStack, [cur], false, decrefBlocks);
      GathersNothing(g, v, trackRaising, pathStack, [cur], true, raisingBlocks);
      if |pathStack| >= FANOUT_RECURSE_DEPTH {
        StopsHere(g, v, trackRaising, pathStack, cur);
        return false, region;
      }
      subgraphSize := (subgraphSize + 1) % UNSIGNED_RANGE;
      if subgraphSize > subgraphLimit {
        badBlocks := badBlocks + {head};
        return false, region;
      }
      if cur in pathStack {
        StopsHere(g, v, trackRaising, pathStack, cur);
        if cur == pathStack[0] {
          badBlocks := badBlocks + {head};
          return false, region;
        }
        Stopped(cur, decrefBlocks, raisingBlocks);
        return true, region;
      }
      if HasRelatedDecref(g.blocks[cur], v) {
        StopsHere(g, v, trackRaising, pathStack, cur);
        Stopped(cur, decrefBlocks + {cur}, raisingBlocks);
        decrefBlocks := decrefBlocks + {cur};
        return true, region;
      }
      if HasAnyDecref(g.blocks[cur]) {
        StopsHere(g, v, trackRaising, pathStack, cur);
        badBlocks := badBlocks + {head};
        return false, region;
      }
      if trackRaising && IsRaising(g.blocks[cur]) {
        StopsHere(g, v, trackRaising, pathStack, cur);
        Stopped(cur, decrefBlocks, raisingBlocks + {cur});
        raisingBlocks := raisingBlocks + {cur};
        return true, region;
      }
      ghost var above, tails, raising := pathStack, decrefBlocks, raisingBlocks;
      GoesOn(g, v, trackRaising, pathStack, cur);
      pathStack := pathStack + [cur];
      found, region := WalkSuccessors(cur);
      pathStack := pathStack[..|pathStack| - 1];
      assert pathStack == above;
      GathersUp(g, v, trackRaising, pathStack, cur, false, tails, decrefBlocks, found);
      GathersUp(g, v, trackRaising, pathStack, cur, true, raising, raisingBlocks, found);
      if found {
        ClosedPop(g, head, region, pathStack, cur, decrefBlocks, raisingBlocks);
        region := region + {cur};
      }
    }

    /** The blocks noted by a search that stops where it is. */
    lemma Stopped(cur: nat, tails: set<nat>, raising: set<nat>)
      requires Valid() && cur < |g.blocks|
      requires |pathStack| == FANOUT_RECURSE_DEPTH || cur in pathStack || !Through(g, trackRaising, cur)
      requires tails == decrefBlocks + if Noted(g, v, trackRaising, pathStack, cur, false) then {cur} else {}
      requires raising == raisingBlocks + if Noted(g, v, trackRaising, pathStack, cur, true) then {cur} else {}
      ensures Gathers(g, v, trackRaising, pathStack, [cur], false, decrefBlocks, tails, true)
      ensures Gathers(g, v, trackRaising, pathStack, [cur], true, raisingBlocks, raising, true)
    {
      GathersHere(g, v, trackRaising, pathStack, cur, false, decrefBlocks, tails);
      GathersHere(g, v, trackRaising, pathStack, cur, true, raisingBlocks, raising);
    }

    /** The loop over a terminator's successors, which the search of the head's
        successors and the recursive walk share. A block without successors is
        not a success: control would leave the function. */
    method WalkSuccessors(cur: nat) returns (found: bool, ghost region: set<nat>)
      requires Valid() && cur < |g.blocks| && !TooBig()
      modifies this
      ensures Valid() && pathStack == old(pathStack) && (found ==> !TooBig())
      ensures Counted(Calls(g, trackRaising, pathStack, g.succs[cur]), found)
      ensures old(badBlocks) <= badBlocks <= old(badBlocks) + {head}
      ensures found ==> g.succs[cur] != [] && badBlocks == old(badBlocks)
      ensures found ==> AllFree(g, v, trackRaising, pathStack, g.succs[cur])
      ensures !found ==>
        TooBig() || g.succs[cur] == [] || !AllFree(g, v, trackRaising, pathStack, g.succs[cur])
      ensures Gathered(g.succs[cur], found)
      ensures found ==> Closed(g, head, region, pathStack, decrefBlocks, raisingBlocks)
      ensures found ==> forall s :: s in g.succs[cur] ==>
                                      Reaches(head, region, pathStack, decrefBlocks, raisingBlocks, s)
      decreases FANOUT_RECURSE_DEPTH - |pathStack|, 1
    {
      ghost var succs := g.succs[cur];
      SuccsIn(g, cur);
      CallsNone(g, trackRaising, pathStack, succs);
      SearchedNone(g, head, v, trackRaising, pathStack, decrefBlocks, raisingBlocks);
      assert AllFree(g, v, trackRaising, pathStack, []);
      hide NotedFrom, Free, AllFree, Gathers, Calls, CallsAt, Closed, Reaches, Searched, Simple, WellFormed;
      found, region := false, {};
      var i := 0;
      assert succs[..0] == [];
      while i < |g.succs[cur]|
        invariant 0 <= i <= |g.succs[cur]|
        invariant Valid() && pathStack == old(pathStack)
        invariant badBlocks == old(badBlocks) && !TooBig()
        invariant found <==> i > 0
        invariant Counted(Calls(g, trackRaising, pathStack, succs[..i]), true)
        invariant AllFree(g, v, trackRaising, pathStack, succs[..i])
        invariant Searched(g, head, v, trackRaising, pathStack, succs[..i], region,
                           old(decrefBlocks), decrefBlocks, old(raisingBlocks), raisingBlocks)
      {
        ghost var tails, raising, walked := decrefBlocks, raisingBlocks, {};
        CallsNext(g, trackRaising, pathStack, succs, i);
        AllFreeNext(g, v, trackRaising, pathStack, succs, i);
        found, walked := WalkChildForDecref(g.succs[cur][i]);
        if !found {
          CallsGrow(g, trackRaising, pathStack, succs, i + 1);
          SearchedPart(g, head, v, trackRaising, pathStack, succs, i, region,
                       old(decrefBlocks), tails, decrefBlocks, old(raisingBlocks), raising, raisingBlocks);
          return false, region;
        }
        SearchedOne(succs[i], walked, tails, raising);
        SearchedNext(g, head, v, trackRaising, pathStack, succs[..i], succs[i], region, walked,
                     old(decrefBlocks), tails, decrefBlocks, old(raisingBlocks), raising, raisingBlocks);
        assert succs[..i + 1] == succs[..i] + [succs[i]];
        region := region + walked;
        i := i + 1;
      }
      assert succs[..i] == succs;
      SearchedAll(g, head, v, trackRaising, pathStack, succs, region,
                  old(decrefBlocks), decrefBlocks, old(raisingBlocks), raisingBlocks, found);
    }

    lemma SearchedOne(s: nat, walked: set<nat>, tails: set<nat>, raising: set<nat>)
      requires Gathers(g, v, trackRaising, pathStack, [s], false, tails, decrefBlocks, true)
      requires Gathers(g, v, trackRaising, pathStack, [s], true, raising, raisingBlocks, true)
      requires Closed(g, head, walked, pathStack, decrefBlocks, raisingBlocks)
      requires Reaches(head, walked, pathStack, decrefBlocks, raisingBlocks, s)
      ensures Searched(g, head, v, trackRaising, pathStack, [s], walked, tails, decrefBlocks, raising, raisingBlocks)
    {
      hide NotedFrom, NotedFromSome, Gathers, Closed, Reaches;
    }

    /** The search from the incref's block. The region found has the head
        outside, so no path returns to it before a decref block. */
    method FindFanoutDecrefCandidates() returns (found: bool, ghost region: set<nat>)
      requires Valid() && pathStack == [head] && decrefBlocks == {} && raisingBlocks == {} && subgraphSize == 0
      requires !TooBig()
      modifies this
      ensures Valid()
      ensures old(badBlocks) <= badBlocks <= old(badBlocks) + {head}
      ensures found <==> Admitted(g, head, v, trackRaising) && InLimit(g, head, trackRaising, subgraphLimit)
      ensures found ==> badBlocks == old(badBlocks)
      ensures found ==> forall b :: b in decrefBlocks <==> IsNoted(g, head, v, trackRaising, b, false)
      ensures found ==> forall b :: b in raisingBlocks <==> IsNoted(g, head, v, trackRaising, b, true)
      ensures found ==> Encloses(g, head, decrefBlocks, Skipped(g, trackRaising), region)
      ensures found && !trackRaising ==> raisingBlocks == {}
    {
      hide NotedFrom, Free, AllFree, NotedFromSome;
      found, region := WalkSuccessors(head);
      if found {
        EnclosesWhenClosed(region);
      }
    }

    lemma EnclosesWhenClosed(region: set<nat>)
      requires Valid() && pathStack == [head] && g.succs[head] != []
      requires Closed(g, head, region, pathStack, decrefBlocks, raisingBlocks)
      requires forall s :: s in g.succs[head] ==> Reaches(head, region, pathStack, decrefBlocks, raisingBlocks, s)
      ensures Encloses(g, head, decrefBlocks, Skipped(g, trackRaising), region)
    {
    }
  }
}
