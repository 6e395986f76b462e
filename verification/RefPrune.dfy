/** The pruning pass: four sub-passes, repeated until none changes anything. */
module RefPrune {
  import opened RefCounts
  import opened ControlFlow
  import opened Pairing
  import opened Subgraph
  import opened Diamond
  import opened RefNormalize
  import opened BlockPrune
  import opened GraphSearch
  import opened FanoutSearch
  import opened FanoutWalks
  import opened PruneSteps
  import opened UseCounts
  import opened Wrappers

  datatype Subpasses = Subpasses(perBasicBlock: bool, diamond: bool, fanout: bool, fanoutRaise: bool)

  /** Each entry still stands in the function, and none is listed twice. */
  ghost predicate Live(g: Cfg, list: seq<Option<RefOp>>, incs: bool) {
    && (forall k :: 0 <= k < |list| && list[k].Some? ==>
          Present(g, list[k].value) && (if incs then list[k].value.ins.op.Inc? else list[k].value.ins.op.Dec?))
    && (forall j, k :: 0 <= j < k < |list| && list[j].Some? ==> list[j] != list[k])
  }

  lemma LiveAt(g: Cfg, list: seq<Option<RefOp>>, incs: bool, k: nat)
    requires Live(g, list, incs) && k < |list| && list[k].Some?
    ensures Listed(g, list[k].value, incs) && list[k].value.block < |g.blocks|
  {
  }

  lemma LiveErase(g: Cfg, list: seq<Option<RefOp>>, incs: bool, r: RefOp)
    requires WellFormed(g) && Present(g, r) && Live(g, list, incs) && Some(r) !in list
    ensures Live(EraseOp(g, r), list, incs)
  {
    forall k | 0 <= k < |list| && list[k].Some? ensures Present(EraseOp(g, r), list[k].value) {
      assert list[k] in list;
      EraseOpPresent(g, r, list[k].value);
    }
  }

  lemma LiveDrop(g: Cfg, list: seq<Option<RefOp>>, incs: bool, k: nat)
    requires Live(g, list, incs) && k < |list| && list[k].Some?
    ensures Live(g, list[k := None], incs) && list[k] !in list[k := None]
  {
    var rest := list[k := None];
    forall j | 0 <= j < |rest| ensures rest[j] != list[k] {
    }
  }

  ghost predicate Listed(g: Cfg, x: RefOp, incs: bool) {
    Present(g, x) && if incs then x.ins.op.Inc? else x.ins.op.Dec?
  }

  method ListOps(s: Body, incs: bool) returns (ops: Body)
    requires Distinct(s)
    ensures Distinct(ops)
    ensures forall x :: x in ops <==> x in s && if incs then x.op.Inc? else x.op.Dec?
  {
    ops := [];
    var i := 0;
    while i < |s|
      invariant 0 <= i <= |s| && Distinct(ops)
      invariant forall x :: x in ops <==> x in s[..i] && if incs then x.op.Inc? else x.op.Dec?
    {
      assert s[i] !in s[..i];
      assert s[..i + 1] == s[..i] + [s[i]];
      if (if incs then s[i].op.Inc? else s[i].op.Dec?) {
        ops := ops + [s[i]];
      }
      i := i + 1;
    }
    assert s[..i] == s;
  }

  /** The refops of one block, in order. */
  method ListInBlock(g: Cfg, b: nat, incs: bool) returns (list: seq<Option<RefOp>>)
    requires WellFormed(g) && b < |g.blocks|
    ensures Live(g, list, incs) && forall k :: 0 <= k < |list| ==> list[k].Some? && list[k].value.block == b
    ensures forall x :: Listed(g, x, incs) && x.block == b ==> Some(x) in list
  {
    var ops := ListOps(g.blocks[b], incs);
    list := seq(|ops|, k requires 0 <= k < |ops| => Some(RefOp(b, ops[k])));
    forall k | 0 <= k < |list| ensures Listed(g, list[k].value, incs) {
      assert ops[k] in ops;
    }
    forall x | Listed(g, x, incs) && x.block == b ensures Some(x) in list {
      assert x.ins in ops;
      var k :| 0 <= k < |ops| && ops[k] == x.ins;
      assert list[k] == Some(x);
    }
  }

  lemma LiveConcat(g: Cfg, list: seq<Option<RefOp>>, more: seq<Option<RefOp>>, incs: bool)
    requires Live(g, list, incs) && Live(g, more, incs) && forall x :: x in list && x.Some? ==> x !in more
    ensures Live(g, list + more, incs)
  {
    var all := list + more;
    forall k | 0 <= k < |all| && all[k].Some? ensures Listed(g, all[k].value, incs) {
      assert if k < |list| then all[k] == list[k] else all[k] == more[k - |list|];
    }
    forall j, k | 0 <= j < k < |all| && all[j].Some? ensures all[j] != all[k] {
      if j < |list| <= k {
        assert all[j] == list[j] && all[j] in list && all[k] == more[k - |list|] && all[k] in more;
      }
    }
  }

  method ListRefOps(g: Cfg, incs: bool) returns (list: seq<Option<RefOp>>)
    requires WellFormed(g)
    ensures Live(g, list, incs) && forall k :: 0 <= k < |list| ==> list[k].Some?
    ensures forall x :: Listed(g, x, incs) ==> Some(x) in list
  {
    list := [];
    var b := 0;
    while b < |g.blocks|
      invariant 0 <= b <= |g.blocks|
      invariant Live(g, list, incs)
      invariant forall k :: 0 <= k < |list| ==> list[k].Some? && list[k].value.block < b
      invariant forall x :: Listed(g, x, incs) && x.block < b ==> Some(x) in list
    {
      var more := ListInBlock(g, b, incs);
      assert forall x :: x in list && x.Some? ==> x.value.block < b;
      LiveConcat(g, list, more, incs);
      list := list + more;
      b := b + 1;
    }
  }

  class Pruner {
    const f: IrFunction
    const dom: Pairs
    const pdom: Pairs
    const flags: Subpasses
    const subgraphLimit: nat

    constructor (f: IrFunction, dom: Pairs, pdom: Pairs, flags: Subpasses, subgraphLimit: nat)
      ensures this.f == f && this.dom == dom && this.pdom == pdom
      ensures this.flags == flags && this.subgraphLimit == subgraphLimit
    {
      this.f, this.dom, this.pdom, this.flags, this.subgraphLimit := f, dom, pdom, flags, subgraphLimit;
    }

    /** What a sub-pass does to the function from `g`: it keeps the promise, and
        it reports a change exactly when it erased something. */
    twostate predicate Pass(mutated: bool, avoid: set<nat>, safe: bool)
      reads f
    {
      && SameShape(old(f.body), f.body) && WellFormed(f.body)
      && (if mutated then RefOpCount(f.body.blocks) < RefOpCount(old(f.body).blocks) else f.body == old(f.body))
      && (safe ==> Keeps(old(f.body), f.body, avoid))
    }

    method RunPerBasicBlockPrune() returns (mutated: bool)
      requires WellFormed(f.body)
      modifies f
      ensures Pass(mutated, {}, true) && AllClean(f.body)
    {
      hide RefOpCount, BlockKeeps, Clean, Distinct;
      mutated := false;
      ghost var g := f.body;
      var b := 0;
      while b < |f.body.blocks|
        invariant 0 <= b <= |f.body.blocks| == |g.blocks|
        invariant f.body.succs == g.succs && f.body.defs == g.defs
        invariant forall c :: 0 <= c < b ==>
                                BlockKeeps(g.blocks[c], f.body.blocks[c]) && Clean(f.body.blocks[c])
        invariant forall c :: b <= c < |g.blocks| ==> f.body.blocks[c] == g.blocks[c]
        invariant if mutated then RefOpCount(f.body.blocks) < RefOpCount(g.blocks) else f.body == g
      {
        var s, changed := PruneBlock(f.body.blocks[b]);
        RefOpCountReplace(f.body.blocks, b, s);
        f.body := Replace(f.body, b, s);
        mutated := mutated || changed;
        b := b + 1;
      }
      BlocksKeep(g, f.body);
      SameShapeKeeps(g, f.body);
    }

    /** The checks made on one pair of refops before a diamond prune. */
    method DiamondApplies(incref: RefOp, decref: RefOp) returns (ok: bool, ghost region: set<nat>, ghost behind: set<nat>)
      requires WellFormed(f.body) && AnalysesSound(f.body, dom, pdom)
      requires Present(f.body, incref) && Present(f.body, decref) && incref.ins.op.Inc? && decref.ins.op.Dec?
      ensures ok ==> IsRelatedDecref(incref.ins, decref.ins)
      ensures ok ==> (incref.block, decref.block) in dom && (decref.block, incref.block) in pdom
      ensures ok ==> Accepted(f.body, incref.block, decref.block, region, behind)
      ensures !ok ==> DiamondSpent(f.body, incref, decref)
    {
      ok, region, behind := false, {}, {};
      if incref.block == decref.block {
        return;
      }
      if !IsRelatedDecref(incref.ins, decref.ins) {
        return;
      }
      if (incref.block, decref.block) in dom && (decref.block, incref.block) in pdom {
        var once, between;
        once, behind := VerifyFanoutBackward(f.body, incref.block, {decref.block}, false);
        assert Skipped(f.body, false) == {};
        if !once {
          forall r, b ensures !Accepted(f.body, incref.block, decref.block, r, b) {
            assert !OnlyFromHead(f.body, incref.block, {decref.block}, {}, b);
          }
          return;
        }
        between, region := HasDecrefBetweenGraph(f.body, incref.block, decref.block);
        ok := !between;
      }
    }

    method ErasePair(x: RefOp, y: RefOp)
      requires x.block < |f.body.blocks| && y.block < |f.body.blocks|
      modifies f
      ensures y.block < |EraseOp(old(f.body), x).blocks| && f.body == EraseOp(EraseOp(old(f.body), x), y)
    {
      f.body := EraseOp(f.body, x);
      f.body := EraseOp(f.body, y);
    }

    method RunDiamondPrune() returns (mutated: bool)
      requires WellFormed(f.body) && AnalysesSound(f.body, dom, pdom)
      modifies f
      ensures Pass(mutated, {}, DiamondsSafe(old(f.body), dom, pdom))
      ensures !mutated ==> Undiamonded(f.body)
    {
      hide WellFormed, SameShape, AnalysesSound, DiamondsSafe, RefOpCount, Accepted, Related, DiamondSpent, Live, Present, EraseOp;
      mutated := false;
      ghost var g := f.body;
      var increfs := ListRefOps(f.body, true);
      var decrefs := ListRefOps(f.body, false);
      KeepsRefl(g, {});
      ghost var n, all, others := |increfs|, increfs, decrefs;
      var i := 0;
      while i < |increfs|
        invariant 0 <= i <= |increfs| == n
        invariant DiamondState(g, f.body, mutated)
        invariant Live(f.body, increfs, true) && Live(f.body, decrefs, false)
        invariant !mutated ==> increfs == all && decrefs == others
        invariant !mutated ==> forall k, l :: 0 <= k < i && 0 <= l < |others| ==>
                                 DiamondSpent(g, all[k].value, others[l].value)
        decreases n - i
      {
        var j := 0;
        while increfs[i].Some? && j < |decrefs|
          invariant 0 <= j <= |decrefs| && i < |increfs| == n
          invariant DiamondState(g, f.body, mutated)
          invariant Live(f.body, increfs, true) && Live(f.body, decrefs, false)
          invariant !mutated ==> increfs == all && decrefs == others
          invariant !mutated ==> forall k, l :: 0 <= k < i && 0 <= l < |others| ==>
                                   DiamondSpent(g, all[k].value, others[l].value)
          invariant !mutated ==> forall l :: 0 <= l < j ==> DiamondSpent(g, all[i].value, others[l].value)
          decreases |decrefs| - j
        {
          if decrefs[j].Some? {
            LiveAt(f.body, increfs, true, i);
            LiveAt(f.body, decrefs, false, j);
            var ok, region, behind := DiamondApplies(increfs[i].value, decrefs[j].value);
            if ok {
              var x, y := increfs[i].value, decrefs[j].value;
              DiamondStep(g, f.body, mutated, x, y, region, behind);
              LiveAfterPair(f.body, increfs, decrefs, i, j);
              ErasePair(x, y);
              increfs := increfs[i := None];
              decrefs := decrefs[j := None];
              mutated := true;
            }
          }
          j := j + 1;
        }
        i := i + 1;
      }
    }

    /** No pair of refops is left that the diamond prune would take. */
    ghost predicate Undiamonded(g: Cfg) {
      forall x, y :: Listed(g, x, true) && Listed(g, y, false) ==> DiamondSpent(g, x, y)
    }

    ghost predicate DiamondSpent(g: Cfg, x: RefOp, y: RefOp) {
      || x.block == y.block
      || (x.ins.op.Inc? && !IsRelatedDecref(x.ins, y.ins))
      || (x.block, y.block) !in dom || (y.block, x.block) !in pdom
      || forall r, b :: !Accepted(g, x.block, y.block, r, b)
    }

    ghost predicate DiamondState(g: Cfg, h: Cfg, mutated: bool) {
      && WellFormed(g) && WellFormed(h) && AnalysesSound(g, dom, pdom) && AnalysesSound(h, dom, pdom)
      && SameShape(g, h)
      && (if mutated then RefOpCount(h.blocks) < RefOpCount(g.blocks) else h == g)
      && (DiamondsSafe(g, dom, pdom) ==> Keeps(g, h, {}))
    }

    lemma DiamondStep(g: Cfg, h: Cfg, mutated: bool, x: RefOp, y: RefOp, region: set<nat>, behind: set<nat>)
      requires DiamondState(g, h, mutated)
      requires Present(h, x) && Present(h, y) && x.ins.op.Inc? && IsRelatedDecref(x.ins, y.ins)
      requires (x.block, y.block) in dom && (y.block, x.block) in pdom
      requires Accepted(h, x.block, y.block, region, behind)
      ensures DiamondState(g, EraseOp(EraseOp(h, x), y), true)
    {
      var h' := EraseOp(EraseOp(h, x), y);
      EraseOpShape(h, x);
      EraseOpPresent(h, x, y);
      EraseOpShape(EraseOp(h, x), y);
      EraseOpCount(h, x);
      EraseOpCount(EraseOp(h, x), y);
      DiamondKeeps(h, x, y, region, behind);
      SameShapeTrans(g, h, h');
      AnalysesStaySound(g, h', dom, pdom);
      if DiamondsSafe(g, dom, pdom) {
        DiamondsStaySafe(g, h, dom, pdom);
        assert Related(h, x.block, y.block);
        assert NoCycleAvoiding(h, x.block, y.block);
        KeepsTrans(g, h, h', {});
      }
    }

    lemma LiveAfterPair(h: Cfg, increfs: seq<Option<RefOp>>, decrefs: seq<Option<RefOp>>, i: nat, j: nat)
      requires WellFormed(h) && Live(h, increfs, true) && Live(h, decrefs, false)
      requires i < |increfs| && j < |decrefs| && increfs[i].Some? && decrefs[j].Some?
      ensures Live(EraseOp(EraseOp(h, increfs[i].value), decrefs[j].value), increfs[i := None], true)
      ensures Live(EraseOp(EraseOp(h, increfs[i].value), decrefs[j].value), decrefs[j := None], false)
    {
      var x, y := increfs[i].value, decrefs[j].value;
      LiveDrop(h, increfs, true, i);
      LiveDrop(h, decrefs, false, j);
      EraseOpShape(h, x);
      EraseOpPresent(h, x, y);
      LiveErase(h, increfs[i := None], true, x);
      LiveErase(h, decrefs[j := None], false, x);
      LiveErase(EraseOp(h, x), increfs[i := None], true, y);
      LiveErase(EraseOp(h, x), decrefs[j := None], false, y);
    }

    /** No search of the function hits the limit on the size of a subgraph. */
    ghost predicate Roomy(g: Cfg, pruneRaise: bool) {
      forall b: nat :: b < |g.blocks| ==> InLimit(g, b, pruneRaise, subgraphLimit)
    }

    /** Accepts exactly the fan-outs that can be made without the search hitting the
        limit, and then with both certificates in hand. */
    method FindFanout(incref: RefOp, badBlocks: set<nat>, pruneRaise: bool)
      returns (found: bool, bad: set<nat>, decrefBlocks: set<nat>, ghost region: set<nat>, ghost behind: set<nat>)
      requires WellFormed(f.body) && Present(f.body, incref) && incref.ins.op.Inc?
      ensures badBlocks <= bad <= badBlocks + {incref.block}
      ensures bad != badBlocks && InLimit(f.body, incref.block, pruneRaise, subgraphLimit) ==>
                !Admitted(f.body, incref.block, incref.ins.op.arg, pruneRaise)
      ensures found <==> CanFan(f.body, incref.block, incref.ins.op.arg, pruneRaise)
                         && InLimit(f.body, incref.block, pruneRaise, subgraphLimit)
      ensures found ==> forall b :: b in decrefBlocks <==>
                                      IsNoted(f.body, incref.block, incref.ins.op.arg, pruneRaise, b, false)
      ensures found ==> decrefBlocks != {}
      ensures found ==> forall b :: b in decrefBlocks ==>
                                      b < |f.body.blocks| && HasRelatedDecref(f.body.blocks[b], incref.ins.op.arg)
      ensures found ==> Encloses(f.body, incref.block, decrefBlocks, Skipped(f.body, pruneRaise), region)
      ensures found ==> OnlyFromHead(f.body, incref.block, decrefBlocks, Skipped(f.body, pruneRaise), behind)
    {
      hide IsNoted, Admitted, Encloses, OnlyFromHead, FansTo, CanFan, NotedFrom, InLimit;
      behind := {};
      ghost var g, head, v := f.body, incref.block, incref.ins.op.arg;
      var search := new ForwardSearch(f.body, incref.block, incref.ins.op.arg, pruneRaise, subgraphLimit, badBlocks);
      found, region := search.FindFanoutDecrefCandidates();
      bad, decrefBlocks := search.badBlocks, search.decrefBlocks;
      if !found {
        CannotFan(g, head, v, pruneRaise);
        return;
      }
      FansExactly(g, head, v, pruneRaise, decrefBlocks, search.raisingBlocks);
      if decrefBlocks == {} {
        found := false;
        return;
      }
      if pruneRaise {
        if search.raisingBlocks == {} {
          found := false;
          return;
        }
        found, behind := VerifyFanoutBackward(f.body, incref.block, search.raisingBlocks + decrefBlocks, pruneRaise);
        if found {
          FewerTails(g, head, search.raisingBlocks, decrefBlocks, Skipped(g, pruneRaise), behind);
        }
      } else {
        assert search.raisingBlocks + decrefBlocks == decrefBlocks;
        found, behind := VerifyFanoutBackward(f.body, incref.block, decrefBlocks, pruneRaise);
      }
    }

    lemma FewerTails(g: Cfg, head: nat, raising: set<nat>, tails: set<nat>, avoid: set<nat>, behind: set<nat>)
      requires OnlyFromHead(g, head, raising + tails, avoid, behind)
      ensures OnlyFromHead(g, head, tails, avoid, behind)
    {
    }

    lemma CannotFan(g: Cfg, head: nat, v: Value, pruneRaise: bool)
      ensures !Admitted(g, head, v, pruneRaise) ==> !CanFan(g, head, v, pruneRaise)
    {
      hide Admitted, IsNoted, OnlyFromHead;
    }

    /** The noted blocks are the only ones an incref could be fanned out to. */
    lemma FansExactly(g: Cfg, head: nat, v: Value, pruneRaise: bool, tails: set<nat>, raising: set<nat>)
      requires Admitted(g, head, v, pruneRaise)
      requires forall b :: b in tails <==> IsNoted(g, head, v, pruneRaise, b, false)
      requires forall b :: b in raising <==> IsNoted(g, head, v, pruneRaise, b, true)
      ensures CanFan(g, head, v, pruneRaise) <==>
        && tails != {} && (pruneRaise ==> raising != {})
        && exists behind :: OnlyFromHead(g, head, raising + tails, Skipped(g, pruneRaise), behind)
    {
      hide Admitted, IsNoted, OnlyFromHead;
      if CanFan(g, head, v, pruneRaise) {
        var t, r :| FansTo(g, head, v, pruneRaise, t, r);
        assert t == tails && r == raising;
      }
      if tails != {} && (pruneRaise ==> raising != {})
         && exists behind :: OnlyFromHead(g, head, raising + tails, Skipped(g, pruneRaise), behind) {
        assert FansTo(g, head, v, pruneRaise, tails, raising);
      }
    }

    /** Nothing is left for the fan-out prune: where an incref could still be
        fanned out, the search for another incref of its block does not get
        through. The pass gives up the whole block for that. */
    ghost predicate FannedOut(g: Cfg, pruneRaise: bool) {
      forall x :: Listed(g, x, true) ==> FanSpent(g, x, pruneRaise)
    }

    ghost predicate FanSpent(g: Cfg, x: RefOp, pruneRaise: bool)
      requires Present(g, x)
    {
      || HasAnyDecref(g.blocks[x.block])
      || (x.ins.op.Inc? && !CanFan(g, x.block, x.ins.op.arg, pruneRaise))
      || GivenUp(g, x.block, pruneRaise)
    }

    /** Increfs of the block are released in the same blocks. */
    ghost predicate SharesReleases(g: Cfg, b: nat) {
      forall x, y :: Listed(g, x, true) && Listed(g, y, true) && x.block == y.block == b
        ==> ReleasedWith(g, x.ins.op.arg, y.ins.op.arg)
    }

    /** No incref that could be fanned out is left in such blocks. */
    ghost predicate NothingLost(g: Cfg, pruneRaise: bool) {
      forall x :: Listed(g, x, true) && !HasAnyDecref(g.blocks[x.block]) && SharesReleases(g, x.block)
        ==> !CanFan(g, x.block, x.ins.op.arg, pruneRaise)
    }

    /** Giving up a block loses nothing if its increfs are released in the same blocks. */
    lemma GivenUpLosesNothing(g: Cfg, pruneRaise: bool)
      requires FannedOut(g, pruneRaise)
      ensures NothingLost(g, pruneRaise)
    {
      hide CanFan, Admitted, ReleasedWith;
      forall x | Listed(g, x, true) && !HasAnyDecref(g.blocks[x.block]) && SharesReleases(g, x.block)
        ensures !CanFan(g, x.block, x.ins.op.arg, pruneRaise)
      {
        assert FanSpent(g, x, pruneRaise);
        if GivenUp(g, x.block, pruneRaise) {
          var y :| Listed(g, y, true) && y.block == x.block && !Admitted(g, x.block, y.ins.op.arg, pruneRaise);
          FailsToo(g, x.block, y.ins.op.arg, x.ins.op.arg, pruneRaise);
          CannotFan(g, x.block, x.ins.op.arg, pruneRaise);
        }
      }
    }

    ghost predicate GivenUp(g: Cfg, b: nat, pruneRaise: bool) {
      exists y :: Listed(g, y, true) && y.block == b && !Admitted(g, b, y.ins.op.arg, pruneRaise)
    }

    method FirstRelated(s: Body, v: Value) returns (i: nat)
      requires HasRelatedDecref(s, v)
      ensures IsRelatedAt(s, i, v) && forall k :: 0 <= k < i ==> s[k].op != Dec(v)
    {
      i := 0;
      while s[i].op != Dec(v)
        invariant i < |s| && forall k :: 0 <= k < i ==> s[k].op != Dec(v)
        decreases |s| - i
      {
        i := i + 1;
      }
    }

    /** The function `h` part way through one fan-out prune: the blocks in `done`
        have lost their decref. */
    ghost predicate Partly(g: Cfg, h: Cfg, v: Value, tails: set<nat>, done: map<nat, nat>) {
      && h.succs == g.succs && h.defs == g.defs && |h.blocks| == |g.blocks|
      && done.Keys <= tails
      && (forall t :: t in done ==> t < |g.blocks| && IsRelatedAt(g.blocks[t], done[t], v)
                                    && h.blocks[t] == RemoveAt(g.blocks[t], done[t]))
      && (forall b :: 0 <= b < |g.blocks| && b !in done ==> h.blocks[b] == g.blocks[b])
    }

    lemma PartlyNext(g: Cfg, h: Cfg, v: Value, tails: set<nat>, done: map<nat, nat>, each: nat, i: nat)
      returns (h': Cfg)
      requires WellFormed(h) && SameShape(g, h) && Partly(g, h, v, tails, done)
      requires each in tails && each !in done && each < |g.blocks| && IsRelatedAt(h.blocks[each], i, v)
      ensures h' == EraseOp(h, RefOp(each, h.blocks[each][i]))
      ensures Partly(g, h', v, tails, done[each := i])
      ensures WellFormed(h') && SameShape(g, h') && RefOpCount(h'.blocks) < RefOpCount(h.blocks)
    {
      var r := RefOp(each, h.blocks[each][i]);
      h' := EraseOp(h, r);
      PartlyGrows(g, h, v, tails, done, each, i);
      EraseOpShape(h, r);
      EraseOpCount(h, r);
      SameShapeTrans(g, h, h');
    }

    lemma PartlyGrows(g: Cfg, h: Cfg, v: Value, tails: set<nat>, done: map<nat, nat>, each: nat, i: nat)
      requires WellFormed(h) && Partly(g, h, v, tails, done)
      requires each in tails && each !in done && each < |g.blocks| && IsRelatedAt(h.blocks[each], i, v)
      ensures Partly(g, EraseOp(h, RefOp(each, h.blocks[each][i])), v, tails, done[each := i])
    {
      EraseIsRemoveAt(h.blocks[each], i);
    }

    /** Erases the first decref of the value in each of the blocks. */
    method EraseDecrefs(v: Value, decrefBlocks: set<nat>) returns (ghost done: map<nat, nat>)
      requires WellFormed(f.body)
      requires forall b :: b in decrefBlocks ==> b < |f.body.blocks| && HasRelatedDecref(f.body.blocks[b], v)
      modifies f
      ensures Partly(old(f.body), f.body, v, decrefBlocks, done) && done.Keys == decrefBlocks
      ensures forall t :: t in done ==> forall k :: 0 <= k < done[t] ==> old(f.body).blocks[t][k].op != Dec(v)
      ensures RefOpCount(f.body.blocks) <= RefOpCount(old(f.body).blocks)
      ensures WellFormed(f.body) && SameShape(old(f.body), f.body)
    {
      hide Erase, Erased, Others, WellFormed, RefOpCount, Distinct, IncsFirst;
      ghost var g := f.body;
      done := map[];
      SameShapeRefl(g);
      var rest := decrefBlocks;
      while rest != {}
        invariant rest <= decrefBlocks && done.Keys == decrefBlocks - rest
        invariant Partly(g, f.body, v, decrefBlocks, done)
        invariant forall t :: t in done ==> forall k :: 0 <= k < done[t] ==> g.blocks[t][k].op != Dec(v)
        invariant RefOpCount(f.body.blocks) <= RefOpCount(g.blocks)
        invariant WellFormed(f.body) && SameShape(g, f.body)
        decreases rest
      {
        var each :| each in rest;
        assert each !in done && f.body.blocks[each] == g.blocks[each];
        var i := FirstRelated(f.body.blocks[each], v);
        ghost var next := PartlyNext(g, f.body, v, decrefBlocks, done, each, i);
        f.body := EraseOp(f.body, RefOp(each, f.body.blocks[each][i]));
        done := done[each := i];
        rest := rest - {each};
      }
    }

    lemma AllSpent(g: Cfg, increfs: seq<Option<RefOp>>, pruneRaise: bool)
      requires forall x :: Listed(g, x, true) ==> Some(x) in increfs
      requires forall k :: 0 <= k < |increfs| ==>
                 increfs[k].Some? && Present(g, increfs[k].value) && FanSpent(g, increfs[k].value, pruneRaise)
      ensures FannedOut(g, pruneRaise)
    {
    }

    method RunFanoutPrune(pruneRaise: bool) returns (mutated: bool)
      requires WellFormed(f.body)
      modifies f
      ensures Pass(mutated, Skipped(old(f.body), pruneRaise), true)
      ensures !mutated && Roomy(f.body, pruneRaise) ==> FannedOut(f.body, pruneRaise) && NothingLost(f.body, pruneRaise)
    {
      hide WellFormed, SameShape, Keeps, RefOpCount, Encloses, OnlyFromHead, CanFan, Admitted, IsNoted, InLimit;
      mutated := false;
      ghost var g := f.body;
      var increfs := ListRefOps(f.body, true);
      var badBlocks: set<nat> := {};
      KeepsRefl(g, Skipped(g, pruneRaise));
      var i := 0;
      while i < |increfs|
        invariant 0 <= i <= |increfs|
        invariant FanoutState(g, f.body, mutated, pruneRaise)
        invariant Live(f.body, increfs[i..], true)
        invariant forall k :: 0 <= k < |increfs| ==> increfs[k].Some?
        invariant !mutated && Roomy(g, pruneRaise) ==> forall b :: b in badBlocks ==> GivenUp(g, b, pruneRaise)
        invariant !mutated && Roomy(g, pruneRaise) ==> forall k :: 0 <= k < i ==>
                    Present(g, increfs[k].value) && FanSpent(g, increfs[k].value, pruneRaise)
      {
        var incref := increfs[i].value;
        assert increfs[i..][0] == increfs[i] && increfs[i..][1..] == increfs[i + 1..];
        LiveTail(f.body, increfs[i..]);
        i := i + 1;
        if incref.block in badBlocks {
          continue;
        }
        if HasAnyDecref(f.body.blocks[incref.block]) {
          continue;
        }
        var found, bad, decrefBlocks, region, behind := FindFanout(incref, badBlocks, pruneRaise);
        badBlocks := bad;
        if found {
          ghost var before := f.body;
          ghost var done := EraseDecrefs(incref.ins.op.arg, decrefBlocks);
          IncrefSurvives(before, f.body, incref, decrefBlocks, done);
          IncrefsSurvive(before, f.body, increfs[i..], incref.ins.op.arg, decrefBlocks, done);
          ghost var middle := f.body;
          f.body := EraseOp(f.body, incref);
          FanoutStep(g, before, middle, mutated, pruneRaise, incref, done, region, behind);
          LiveErase(middle, increfs[i..], true, incref);
          mutated := true;
        }
      }
      if !mutated && Roomy(g, pruneRaise) {
        AllSpent(f.body, increfs, pruneRaise);
        GivenUpLosesNothing(f.body, pruneRaise);
      }
    }

    lemma LiveTail(h: Cfg, list: seq<Option<RefOp>>)
      requires |list| > 0 && list[0].Some? && Live(h, list, true)
      ensures Present(h, list[0].value) && list[0].value.ins.op.Inc?
      ensures Live(h, list[1..], true) && list[0] !in list[1..]
    {
    }

    ghost predicate FanoutState(g: Cfg, h: Cfg, mutated: bool, pruneRaise: bool) {
      && WellFormed(g) && WellFormed(h) && SameShape(g, h)
      && (if mutated then RefOpCount(h.blocks) < RefOpCount(g.blocks) else h == g)
      && Keeps(g, h, Skipped(g, pruneRaise))
    }

    lemma IncrefSurvives(g: Cfg, h: Cfg, x: RefOp, tails: set<nat>, done: map<nat, nat>)
      requires WellFormed(g) && Present(g, x) && x.ins.op.Inc?
      requires Partly(g, h, x.ins.op.arg, tails, done)
      ensures Present(h, x)
    {
      PartlyKeepsIncs(g, h, x, x.ins.op.arg, tails, done);
    }

    lemma PartlyKeepsIncs(g: Cfg, h: Cfg, x: RefOp, v: Value, tails: set<nat>, done: map<nat, nat>)
      requires WellFormed(g) && Present(g, x) && x.ins.op.Inc?
      requires Partly(g, h, v, tails, done)
      ensures Present(h, x)
    {
      if x.block in done {
        RemoveMembers(g.blocks[x.block], done[x.block]);
      }
    }

    lemma IncrefsSurvive(g: Cfg, h: Cfg, list: seq<Option<RefOp>>, v: Value, tails: set<nat>, done: map<nat, nat>)
      requires WellFormed(g) && Live(g, list, true) && Partly(g, h, v, tails, done)
      ensures Live(h, list, true)
    {
      forall k | 0 <= k < |list| && list[k].Some? ensures Present(h, list[k].value) {
        PartlyKeepsIncs(g, h, list[k].value, v, tails, done);
      }
    }

    lemma FanoutStep(g: Cfg, h: Cfg, middle: Cfg, mutated: bool, pruneRaise: bool, x: RefOp,
                     done: map<nat, nat>, region: set<nat>, behind: set<nat>)
      requires FanoutState(g, h, mutated, pruneRaise)
      requires Present(h, x) && x.ins.op.Inc? && !HasAnyDecref(h.blocks[x.block])
      requires Partly(h, middle, x.ins.op.arg, done.Keys, done)
      requires WellFormed(middle) && SameShape(h, middle) && Present(middle, x)
      requires RefOpCount(middle.blocks) <= RefOpCount(h.blocks)
      requires Encloses(h, x.block, done.Keys, Skipped(h, pruneRaise), region)
      requires OnlyFromHead(h, x.block, done.Keys, Skipped(h, pruneRaise), behind)
      ensures FanoutState(g, EraseOp(middle, x), true, pruneRaise)
    {
      hide Others, RefOpCount, Keeps, Encloses, OnlyFromHead, Erased, Distinct, IncsFirst, Normal, DefsDominate;
      var h' := EraseOp(middle, x);
      EraseOpShape(middle, x);
      EraseOpCount(middle, x);
      SameShapeTrans(h, middle, h');
      SameShapeTrans(g, h, h');
      SameRaising(g, h);
      var i :| 0 <= i < |h.blocks[x.block]| && h.blocks[x.block][i] == x.ins;
      EraseIsRemoveAt(h.blocks[x.block], i);
      FanoutKeeps(h, h', x.block, i, done, Skipped(h, pruneRaise), region, behind);
      KeepsTrans(g, h, h', Skipped(g, pruneRaise));
    }

    /** `h` is what the rounds so far have made of `g`. */
    ghost predicate RoundState(g: Cfg, h: Cfg, mutated: bool, avoid: set<nat>) {
      && WellFormed(g) && WellFormed(h) && SameShape(g, h) && AnalysesSound(h, dom, pdom)
      && avoid == Skipped(g, flags.fanoutRaise)
      && (if mutated then RefOpCount(h.blocks) < RefOpCount(g.blocks) else h == g)
      && ((flags.diamond ==> DiamondsSafe(g, dom, pdom)) ==> Keeps(g, h, avoid))
    }

    lemma RoundStep(g: Cfg, h: Cfg, h': Cfg, mutated: bool, m: bool, avoid: set<nat>, only: set<nat>)
      requires RoundState(g, h, mutated, avoid) && only <= avoid
      requires SameShape(h, h') && WellFormed(h')
      requires if m then RefOpCount(h'.blocks) < RefOpCount(h.blocks) else h' == h
      requires (flags.diamond ==> DiamondsSafe(g, dom, pdom)) ==> Keeps(h, h', only)
      ensures RoundState(g, h', mutated || m, avoid)
    {
      SameShapeTrans(g, h, h');
      AnalysesStaySound(h, h', dom, pdom);
      if flags.diamond ==> DiamondsSafe(g, dom, pdom) {
        KeepsWeaken(h, h', only, avoid);
        KeepsTrans(g, h, h', avoid);
      }
    }

    ghost predicate AllClean(g: Cfg) {
      forall b :: 0 <= b < |g.blocks| ==> Clean(g.blocks[b])
    }

    /** Every enabled sub-pass has nothing left to do. */
    ghost predicate Finished(g: Cfg) {
      && (flags.perBasicBlock ==> AllClean(g))
      && (flags.diamond ==> Undiamonded(g))
      && (flags.fanout && Roomy(g, false) ==> FannedOut(g, false))
      && (flags.fanoutRaise && Roomy(g, true) ==> FannedOut(g, true))
    }

    /** The per-block and diamond sub-passes of one round. */
    method FirstHalf(ghost g: Cfg, ghost was: bool, ghost avoid: set<nat>) returns (m: bool)
      requires RoundState(g, f.body, was, avoid)
      modifies f
      ensures RoundState(g, f.body, was || m, avoid)
      ensures if m then RefOpCount(f.body.blocks) < RefOpCount(old(f.body).blocks) else f.body == old(f.body)
      ensures !m && flags.perBasicBlock ==> AllClean(f.body)
      ensures !m && flags.diamond ==> Undiamonded(f.body)
    {
      hide WellFormed, AnalysesSound, DiamondsSafe, RefOpCount, Keeps, Clean, Normal, Undiamonded;
      m := false;
      if flags.perBasicBlock {
        m := RunPerBasicBlockPrune();
        RoundStep(g, old(f.body), f.body, was, m, avoid, {});
      }
      if flags.diamond {
        ghost var h := f.body;
        var d := RunDiamondPrune();
        if DiamondsSafe(g, dom, pdom) {
          DiamondsStaySafe(g, h, dom, pdom);
        }
        RoundStep(g, h, f.body, was || m, d, avoid, {});
        m := m || d;
      }
    }

    /** The two fan-out sub-passes of one round. */
    method SecondHalf(ghost g: Cfg, ghost was: bool, ghost avoid: set<nat>) returns (m: bool)
      requires RoundState(g, f.body, was, avoid)
      modifies f
      ensures RoundState(g, f.body, was || m, avoid)
      ensures if m then RefOpCount(f.body.blocks) < RefOpCount(old(f.body).blocks) else f.body == old(f.body)
      ensures !m && flags.fanout && Roomy(f.body, false) ==> FannedOut(f.body, false)
      ensures !m && flags.fanoutRaise && Roomy(f.body, true) ==> FannedOut(f.body, true)
    {
      hide WellFormed, AnalysesSound, DiamondsSafe, RefOpCount, Keeps, Normal, Raising, FannedOut, Roomy;
      m := false;
      if flags.fanout {
        m := RunFanoutPrune(false);
        RoundStep(g, old(f.body), f.body, was, m, avoid, {});
      }
      if flags.fanoutRaise {
        ghost var h := f.body;
        var d := RunFanoutPrune(true);
        SameRaising(g, h);
        RoundStep(g, h, f.body, was || m, d, avoid, avoid);
        m := m || d;
      }
    }

    /** The whole pass: the sub-passes run in turn until a round changes nothing.
        It terminates, since every round that changes something erases a refop,
        and then none of the enabled sub-passes has anything left to do.
        On every complete execution each object ends with the count it had and
        was never lower. With the raise fan-out enabled this is claimed for
        executions that do not enter a raising block, and with the diamond prune
        enabled for functions in which no accepted incref block can repeat before
        its decref block. */
    method RunOnFunction() returns (mutated: bool)
      requires WellFormed(f.body) && AnalysesSound(f.body, dom, pdom)
      modifies f
      ensures Pass(mutated, Skipped(old(f.body), flags.fanoutRaise),
                   flags.diamond ==> DiamondsSafe(old(f.body), dom, pdom))
      ensures Finished(f.body)
    {
      hide WellFormed, AnalysesSound, DiamondsSafe, RefOpCount, Keeps, AllClean, Normal, Raising, Undiamonded, FannedOut, Roomy;
      ghost var g := f.body;
      ghost var avoid := Skipped(g, flags.fanoutRaise);
      KeepsRefl(g, avoid);
      mutated := false;
      var localMutated := true;
      while localMutated
        invariant RoundState(g, f.body, mutated, avoid)
        invariant !localMutated ==> Finished(f.body)
        decreases RefOpCount(f.body.blocks), localMutated
      {
        var first := FirstHalf(g, mutated, avoid);
        var second := SecondHalf(g, mutated || first, avoid);
        localMutated := first || second;
        mutated := mutated || localMutated;
      }
    }
  }

  /** Sorting blocks changes neither the analyses nor the two side conditions. */
  lemma NormalizeKeepsConditions(g: Cfg, h: Cfg, dom: Pairs, pdom: Pairs)
    requires WellFormed(g) && NormalizedTo(g, h)
    ensures AnalysesSound(g, dom, pdom) ==> AnalysesSound(h, dom, pdom)
    ensures DiamondsSafe(g, dom, pdom) ==> DiamondsSafe(h, dom, pdom)
    ensures Raising(h) == Raising(g)
  {
    assert forall p :: IsPath(g, p) <==> IsPath(h, p);
    assert forall w :: IsWalk(g, w) <==> IsWalk(h, w);
    forall b, x | 0 <= b < |g.blocks| ensures x in h.blocks[b] <==> x in g.blocks[b] {
      SortedProperties(g.blocks[b], v => 0, 0);
      assert x in multiset(h.blocks[b]) <==> x in multiset(g.blocks[b]);
    }
    forall b: nat | b < |g.blocks| ensures IsRaising(h.blocks[b]) <==> IsRaising(g.blocks[b]) {
      SortedProperties(g.blocks[b], v => 0, 0);
      RaiseInOthers(g.blocks[b]);
      RaiseInOthers(h.blocks[b]);
    }
    if AnalysesSound(g, dom, pdom) {
      forall a, b | (a, b) in pdom ensures PostDominates(h, a, b) {
        assert PostDominates(g, a, b);
      }
      forall a, b | (a, b) in dom ensures Dominates(h, a, b) {
        assert Dominates(g, a, b);
      }
    }
    if DiamondsSafe(g, dom, pdom) {
      forall a, b | (a, b) in dom && (b, a) in pdom && a != b && a < |h.blocks| && b < |h.blocks| && Related(h, a, b)
        ensures NoCycleAvoiding(h, a, b)
      {
        var x, y :| x in h.blocks[a] && y in h.blocks[b] && x.op.Inc? && IsRelatedDecref(x, y);
        assert x in g.blocks[a] && y in g.blocks[b];
        forall w ensures !CycleAvoiding(h, w, a, b) {
          assert !CycleAvoiding(g, w, a, b);
        }
      }
    }
  }

  /** Counts are as they were at the end of complete executions, and never lower. */
  ghost predicate CountsKept(g: Cfg, h: Cfg, avoid: set<nat>) {
    && |h.blocks| == |g.blocks|
    && forall p, envs, o :: Complete(g, p) && Execution(g, p, envs) && Avoids(p, avoid) ==>
         && PathNet(h, p, envs, |p|, o) == PathNet(g, p, envs, |p|, o)
         && PathLow(h, p, envs, |p|, o) >= PathLow(g, p, envs, |p|, o)
  }

  /** At no use has any count been lower than it had been before, on any execution. */
  ghost predicate UsesKept(g: Cfg, h: Cfg, avoid: set<nat>) {
    && |h.blocks| == |g.blocks|
    && forall p, envs, o :: Execution(g, p, envs) && Avoids(p, avoid) ==> UsesNoLower(g, h, p, envs, o)
  }

  /** A block that normalising leaves alone has no use between two decrefs. */
  ghost predicate ReleasesTogether(g: Cfg) {
    forall b :: 0 <= b < |g.blocks| && NoInc(g.blocks[b]) ==> DecsTogether(g.blocks[b])
  }

  lemma SortedTidy(g: Cfg, h: Cfg)
    requires WellFormed(g) && NormalizedTo(g, h) && ReleasesTogether(g)
    ensures Tidy(h)
  {
    NormalizeKeeps(g, h);
    hide UsesFirst, Sorted, NoInc, DecsTogether, Normal;
    forall b | 0 <= b < |h.blocks| ensures UsesFirst(h.blocks[b]) {
      SortedUsesFirst(g.blocks[b]);
    }
  }

  lemma NormalizedThenPruned(g: Cfg, h: Cfg, k: Cfg, avoid: set<nat>)
    requires WellFormed(g) && NormalizedTo(g, h) && Keeps(h, k, avoid)
    ensures CountsKept(g, k, avoid)
    ensures ReleasesTogether(g) ==> UsesKept(g, k, avoid)
    ensures QuietExits(g, avoid) ==> NeverHigher(g, k)
  {
    NormalizeKeeps(g, h);
    hide Net, Low, PathNet, PathLow, Sorted, Erased, UsesNoLower, Distinct, Normal, AllUsesFirst, NoInc, DecsTogether;
    forall p, envs, o | Complete(g, p) && Execution(g, p, envs) && Avoids(p, avoid)
      ensures PathNet(k, p, envs, |p|, o) == PathNet(g, p, envs, |p|, o)
      ensures PathLow(k, p, envs, |p|, o) >= PathLow(g, p, envs, |p|, o)
    {
      NormalizePreserves(g, h, p, envs, |p|, o);
      assert IsPath(h, p) && Complete(h, p) && Execution(h, p, envs);
      assert CountsAgree(h, k, p, envs, o);
    }
    if ReleasesTogether(g) {
      SortedTidy(g, h);
      ErasedMembers(h, k);
      forall p, envs, o | Execution(g, p, envs) && Avoids(p, avoid) ensures UsesNoLower(g, k, p, envs, o) {
        assert IsPath(h, p) && Execution(h, p, envs);
        NormalizeUses(g, h, p, envs, o);
        UsesNoLowerTrans(g, h, k, p, envs, o);
      }
    }
    if QuietExits(g, avoid) {
      SortedQuiet(g, h, avoid);
      forall p, envs, o | Complete(g, p) && Execution(g, p, envs)
        ensures PathNet(k, p, envs, |p|, o) <= PathNet(g, p, envs, |p|, o)
      {
        NormalizePreserves(g, h, p, envs, |p|, o);
        assert IsPath(h, p) && Complete(h, p) && Execution(h, p, envs);
      }
    }
  }

  lemma SortedQuiet(g: Cfg, h: Cfg, avoid: set<nat>)
    requires NormalizedTo(g, h) && QuietExits(g, avoid)
    ensures QuietExits(h, avoid)
  {
    forall b | b in avoid && b < |h.blocks| ensures NoDec(h.blocks[b]) {
      SortedProperties(g.blocks[b], v => 0, 0);
      forall k | 0 <= k < |h.blocks[b]| ensures !h.blocks[b][k].op.Dec? {
        assert h.blocks[b][k] in multiset(h.blocks[b]);
        assert h.blocks[b][k] in g.blocks[b];
      }
    }
  }

  /** Both passes, in the order they are registered: on every complete execution
      of the function as it was given, each object ends with the count it had and
      was never lower than it had been; and if no use stood between two decrefs of a
      block without increfs, no count has been lower by any use of any execution. With
      the raise fan-out both are said of executions that enter no raising block; the
      others end with no count higher, if raising blocks are exits without decrefs. */
  method NormalizeAndPrune(f: IrFunction, dom: Pairs, pdom: Pairs, flags: Subpasses, subgraphLimit: nat)
    requires WellFormed(f.body) && AnalysesSound(f.body, dom, pdom)
    modifies f
    ensures |f.body.blocks| == |old(f.body).blocks| && f.body.succs == old(f.body).succs
    ensures Normal(f.body)
    ensures (flags.diamond ==> DiamondsSafe(old(f.body), dom, pdom)) ==>
              CountsKept(old(f.body), f.body, Skipped(old(f.body), flags.fanoutRaise))
    ensures (flags.diamond ==> DiamondsSafe(old(f.body), dom, pdom)) && ReleasesTogether(old(f.body)) ==>
              UsesKept(old(f.body), f.body, Skipped(old(f.body), flags.fanoutRaise))
    ensures (flags.diamond ==> DiamondsSafe(old(f.body), dom, pdom))
              && QuietExits(old(f.body), Skipped(old(f.body), flags.fanoutRaise))
            ==> NeverHigher(old(f.body), f.body)
  {
    hide Net, Low, PathNet, PathLow, RefOpCount, DiamondsSafe, Erased, Clean, Raising, Sorted, Distinct, UsesNoLower;
    ghost var g := f.body;
    var normalized := RunOnFunction(f);
    ghost var h := f.body;
    NormalizeKeeps(g, h);
    NormalizeKeepsConditions(g, h, dom, pdom);
    var pruner := new Pruner(f, dom, pdom, flags, subgraphLimit);
    var pruned := pruner.RunOnFunction();
    SameShapeKeeps(h, f.body);
    if flags.diamond ==> DiamondsSafe(g, dom, pdom) {
      NormalizedThenPruned(g, h, f.body, Skipped(g, flags.fanoutRaise));
    }
  }
}
