/** What the pruning pass promises about a whole function, and why each of its
    single steps keeps the promise. */
module PruneSteps {
  import opened RefCounts
  import opened ControlFlow
  import opened Pairing
  import opened Subgraph
  import opened Diamond
  import opened BlockPrune
  import opened FanoutWalks
  import opened GraphSearch
  import opened RaisePaths
  import opened UseCounts

  /** A refop and the block it stands in. */
  datatype RefOp = RefOp(block: nat, ins: Instr)

  ghost predicate Present(g: Cfg, r: RefOp) {
    r.block < |g.blocks| && r.ins in g.blocks[r.block] && IsRefOp(r.ins)
  }

  function EraseOp(g: Cfg, r: RefOp): Cfg
    requires r.block < |g.blocks|
  {
    Replace(g, r.block, Erase(g.blocks[r.block], r.ins))
  }

  ghost predicate CountsAgree(g: Cfg, h: Cfg, p: Path, envs: seq<Env>, o: Obj)
    requires IsPath(g, p) && |envs| == |p| && |h.blocks| == |g.blocks|
  {
    && PathNet(h, p, envs, |p|, o) == PathNet(g, p, envs, |p|, o)
    && (Normal(g) ==> PathLow(h, p, envs, |p|, o) == PathLow(g, p, envs, |p|, o))
  }

  /** Blocks in which no release can move ahead of a use. */
  ghost predicate Tidy(g: Cfg) {
    Normal(g) && AllUsesFirst(g)
  }

  /** The promise: only refops were erased, and on every complete execution that
      stays out of `avoid` each object ends with the count it had, having been
      no lower on the way. In a tidy function it has been no lower by any use, on
      every execution that stays out of `avoid`, complete or not. */
  ghost predicate Keeps(g: Cfg, h: Cfg, avoid: set<nat>) {
    && SameShape(g, h)
    && (forall p, envs, o ::
          Complete(g, p) && Execution(g, p, envs) && Avoids(p, avoid) ==> CountsAgree(g, h, p, envs, o))
    && (Tidy(g) ==> forall p, envs, o ::
          Execution(g, p, envs) && Avoids(p, avoid) ==> UsesNoLower(g, h, p, envs, o))
    && (QuietExits(g, avoid) ==> NeverHigher(g, h))
  }

  /** The blocks to avoid leave the function and release nothing. */
  ghost predicate QuietExits(g: Cfg, avoid: set<nat>) {
    AreExits(g, avoid) && forall b :: b in avoid && b < |g.blocks| ==> NoDec(g.blocks[b])
  }

  /** No complete execution, whatever blocks it enters, ends with a count higher than
      it had. */
  ghost predicate NeverHigher(g: Cfg, h: Cfg) {
    && |h.blocks| == |g.blocks|
    && forall p, envs, o :: Complete(g, p) && Execution(g, p, envs) ==>
         PathNet(h, p, envs, |p|, o) <= PathNet(g, p, envs, |p|, o)
  }

  /** A step that keeps its promise on all executions. */
  lemma KeepsAll(g: Cfg, h: Cfg)
    requires SameShape(g, h) && |h.blocks| == |g.blocks|
    requires forall p, envs, o :: Complete(g, p) && Execution(g, p, envs) ==> CountsAgree(g, h, p, envs, o)
    requires Tidy(g) ==> forall p, envs, o :: Execution(g, p, envs) ==> UsesNoLower(g, h, p, envs, o)
    ensures Keeps(g, h, {})
  {
    hide Tidy, UsesNoLower, Erased;
    forall p, envs, o | Complete(g, p) && Execution(g, p, envs)
      ensures PathNet(h, p, envs, |p|, o) <= PathNet(g, p, envs, |p|, o)
    {
      assert CountsAgree(g, h, p, envs, o);
    }
  }

  lemma NeverHigherTrans(f: Cfg, g: Cfg, h: Cfg)
    requires WellFormed(f) && SameShape(f, g) && NeverHigher(f, g) && NeverHigher(g, h)
    ensures NeverHigher(f, h)
  {
    SameShapeKeeps(f, g);
    hide PathNet, Erased;
    forall p, envs, o | Complete(f, p) && Execution(f, p, envs)
      ensures PathNet(h, p, envs, |p|, o) <= PathNet(f, p, envs, |p|, o)
    {
      assert IsPath(g, p) && Complete(g, p) && Execution(g, p, envs);
    }
  }

  lemma QuietExitsKept(f: Cfg, g: Cfg, avoid: set<nat>)
    requires SameShape(f, g) && QuietExits(f, avoid)
    ensures QuietExits(g, avoid)
  {
    ErasedMembers(f, g);
  }

  lemma KeepsRefl(g: Cfg, avoid: set<nat>)
    requires WellFormed(g)
    ensures Keeps(g, g, avoid)
  {
    SameShapeRefl(g);
    forall p, envs, o | Execution(g, p, envs) ensures UsesNoLower(g, g, p, envs, o) {
    }
  }

  lemma KeepsTrans(f: Cfg, g: Cfg, h: Cfg, avoid: set<nat>)
    requires WellFormed(f) && Keeps(f, g, avoid) && Keeps(g, h, avoid)
    ensures Keeps(f, h, avoid)
  {
    hide UsesNoLower, UsesFirst, Normal, AllUsesFirst, NeverHigher, QuietExits;
    SameShapeTrans(f, g, h);
    SameShapeKeeps(f, g);
    if QuietExits(f, avoid) {
      QuietExitsKept(f, g, avoid);
      NeverHigherTrans(f, g, h);
    }
    forall p, envs, o | Complete(f, p) && Execution(f, p, envs) && Avoids(p, avoid)
      ensures CountsAgree(f, h, p, envs, o)
    {
      assert IsPath(g, p) && Complete(g, p) && Execution(g, p, envs);
      assert CountsAgree(f, g, p, envs, o) && CountsAgree(g, h, p, envs, o);
    }
    if Tidy(f) {
      forall p, envs, o | Execution(f, p, envs) && Avoids(p, avoid) ensures UsesNoLower(f, h, p, envs, o) {
        assert IsPath(g, p) && Execution(g, p, envs);
        ErasedMembers(g, h);
        UsesNoLowerTrans(f, g, h, p, envs, o);
      }
    }
  }

  lemma ErasedMembers(g: Cfg, h: Cfg)
    requires SameShape(g, h)
    ensures |h.blocks| == |g.blocks|
    ensures forall b, x :: 0 <= b < |h.blocks| && x in h.blocks[b] ==> x in g.blocks[b]
  {
    forall b, x | 0 <= b < |h.blocks| && x in h.blocks[b] ensures x in g.blocks[b] {
      assert Erased(g.blocks[b], h.blocks[b]);
    }
  }

  lemma KeepsWeaken(g: Cfg, h: Cfg, avoid: set<nat>, avoid': set<nat>)
    requires Keeps(g, h, avoid) && avoid <= avoid'
    ensures Keeps(g, h, avoid')
  {
  }

  // ---- Per-block steps ----

  lemma {:induction false} BlocksKeepPath(g: Cfg, h: Cfg, p: Path, envs: seq<Env>, k: nat, o: Obj)
    requires |h.blocks| == |g.blocks| && IsPath(g, p) && |envs| == |p| && k <= |p|
    requires forall b :: 0 <= b < |g.blocks| ==> BlockKeeps(g.blocks[b], h.blocks[b])
    ensures PathNet(h, p, envs, k, o) == PathNet(g, p, envs, k, o)
    ensures Normal(g) ==> PathLow(h, p, envs, k, o) == PathLow(g, p, envs, k, o)
  {
    if k > 0 {
      BlocksKeepPath(g, h, p, envs, k - 1, o);
      var b := p[k - 1];
      assert BlockKeeps(g.blocks[b], h.blocks[b]);
      if Normal(g) {
        BlockKeepsLow(g.blocks[b], h.blocks[b], envs[k - 1], o);
      }
    }
  }

  lemma BlocksKeep(g: Cfg, h: Cfg)
    requires h.succs == g.succs && h.defs == g.defs && |h.blocks| == |g.blocks|
    requires forall b :: 0 <= b < |g.blocks| ==> BlockKeeps(g.blocks[b], h.blocks[b])
    ensures Keeps(g, h, {})
  {
    forall b | 0 <= b < |g.blocks| ensures Erased(g.blocks[b], h.blocks[b]) {
      assert BlockKeeps(g.blocks[b], h.blocks[b]);
    }
    forall p, envs, o | Complete(g, p) && Execution(g, p, envs) ensures CountsAgree(g, h, p, envs, o) {
      BlocksKeepPath(g, h, p, envs, |p|, o);
    }
    if Tidy(g) {
      forall p, envs, o | Execution(g, p, envs) ensures UsesNoLower(g, h, p, envs, o) {
        BlocksKeepUses(g, h, p, envs, o);
      }
    }
    KeepsAll(g, h);
  }

  lemma BlocksKeepUses(g: Cfg, h: Cfg, p: Path, envs: seq<Env>, o: Obj)
    requires |h.blocks| == |g.blocks| && IsPath(g, p) && |envs| == |p| && Tidy(g)
    requires forall b :: 0 <= b < |g.blocks| ==> BlockKeeps(g.blocks[b], h.blocks[b])
    ensures UsesNoLower(g, h, p, envs, o)
  {
    hide UsesFirst, IncsFirst;
    forall k: nat, i: nat, j: nat | k < |p| && SameUse(g.blocks[p[k]], i, h.blocks[p[k]], j)
      ensures UseNoLower(g, h, p, envs, o, k, i, j)
    {
      BlocksKeepPath(g, h, p, envs, k, o);
      assert UsesFirst(g.blocks[p[k]]) && UsesKeepLow(g.blocks[p[k]], h.blocks[p[k]]);
    }
  }

  // ---- Fan-out steps ----

  /** If no use stands between a decref and the erased one in any decref block, the
      step leaves every use covered, on every execution. */
  lemma FanoutKeepsUses(g: Cfg, h: Cfg, head: nat, i: nat, tails: map<nat, nat>, avoid: set<nat>,
                        region: set<nat>, behind: set<nat>, p: Path, envs: seq<Env>, o: Obj)
    requires WellFormed(g) && Pruned(g, h, head, i, tails)
    requires NoDec(g.blocks[head])
    requires Encloses(g, head, tails.Keys, avoid, region)
    requires OnlyFromHead(g, head, tails.Keys, avoid, behind)
    requires Normal(g) && forall t :: t in tails && t < |g.blocks| ==> ReleasedRight(g.blocks[t], tails[t])
    requires Execution(g, p, envs) && Avoids(p, avoid)
    ensures UsesNoLower(g, h, p, envs, o)
  {
    FanoutPairsUp(g, h, head, i, tails, avoid, region, behind, p, envs);
    StepUses(g, h, head, i, tails, p, envs, o);
  }

  lemma FanoutKeeps(g: Cfg, h: Cfg, head: nat, i: nat, tails: map<nat, nat>, avoid: set<nat>,
                    region: set<nat>, behind: set<nat>)
    requires WellFormed(g) && Pruned(g, h, head, i, tails)
    requires NoDec(g.blocks[head])
    requires Encloses(g, head, tails.Keys, avoid, region)
    requires OnlyFromHead(g, head, tails.Keys, avoid, behind)
    ensures Keeps(g, h, avoid)
  {
    PrunedShape(g, h, head, i, tails);
    if QuietExits(g, avoid) {
      FanoutNeverHigher(g, h, head, i, tails, avoid, region, behind);
    }
    forall p, envs, o | Complete(g, p) && Execution(g, p, envs) && Avoids(p, avoid)
      ensures CountsAgree(g, h, p, envs, o)
    {
      FanoutPreserves(g, h, head, i, tails, avoid, region, behind, p, envs, o);
    }
    if Tidy(g) {
      TidyReleases(g, h, head, i, tails);
      forall p, envs, o | Execution(g, p, envs) && Avoids(p, avoid) ensures UsesNoLower(g, h, p, envs, o) {
        FanoutKeepsUses(g, h, head, i, tails, avoid, region, behind, p, envs, o);
      }
    }
  }

  /** On the paths into quiet exits a fan-out prune only drops the pending incref. */
  lemma FanoutNeverHigher(g: Cfg, h: Cfg, head: nat, i: nat, tails: map<nat, nat>, avoid: set<nat>,
                          region: set<nat>, behind: set<nat>)
    requires FannedFrom(g, h, head, i, tails, avoid, region, behind) && QuietExits(g, avoid)
    ensures NeverHigher(g, h)
  {
    assert avoid !! tails.Keys;
    forall p, envs, o | Complete(g, p) && Execution(g, p, envs)
      ensures PathNet(h, p, envs, |p|, o) <= PathNet(g, p, envs, |p|, o)
    {
      ExitOwes(g, h, head, i, tails, avoid, region, behind, p, envs, o);
      hide FannedFrom, PathNet, Execution, Complete, QuietExits;
    }
  }

  lemma TidyReleases(g: Cfg, h: Cfg, head: nat, i: nat, tails: map<nat, nat>)
    requires Pruned(g, h, head, i, tails) && Tidy(g)
    ensures forall t :: t in tails && t < |g.blocks| ==> ReleasedRight(g.blocks[t], tails[t])
  {
    forall t | t in tails && t < |g.blocks| ensures ReleasedRight(g.blocks[t], tails[t]) {
      assert IsRelatedAt(g.blocks[t], tails[t], g.blocks[head][i].op.arg);
      UsesFirstReleases(g.blocks[t], tails[t]);
    }
  }

  // ---- The smallest fan-out, for every decref block ----

  /** One incref, and the block that releases it. */
  function TwoBlocks(x: Instr, s: Body): Cfg {
    Cfg([[x], s], [[1], []], [{}, {}])
  }

  ghost predicate KeepsUses(g: Cfg, h: Cfg) {
    && |h.blocks| == |g.blocks|
    && forall p, envs, o :: Execution(g, p, envs) ==> UsesNoLower(g, h, p, envs, o)
  }

  function TwoBlocksPruned(x: Instr, s: Body, j: nat): Cfg
    requires j < |s|
  {
    Cfg([[], RemoveAt(s, j)], [[1], []], [{}, {}])
  }

  lemma TwoBlocksFan(x: Instr, s: Body, j: nat)
    requires j < |s| && s[j].op.Dec? && x.op == Inc(s[j].op.arg)
    ensures CanFan(TwoBlocks(x, s), 0, s[j].op.arg, false)
  {
    var g, v := TwoBlocks(x, s), s[j].op.arg;
    assert g.blocks[1] == s && s[j].op == Dec(v);
    hide Free, Visits, NotedFrom;
    StopsHere(g, v, false, [0], 1);
    assert 1 in g.succs[0];
    assert OnlyFromHead(g, 0, {} + {1}, Skipped(g, false), {1});
    assert FansTo(g, 0, v, false, {1}, {});
  }

  lemma TwoBlocksShape(x: Instr, s: Body, j: nat)
    requires Distinct(s) && j < |s| && s[j].op.Dec? && x.op == Inc(s[j].op.arg)
    ensures var g := TwoBlocks(x, s);
            && WellFormed(g) && Pruned(g, TwoBlocksPruned(x, s, j), 0, 0, map[1 := j])
            && NoDec(g.blocks[0]) && map[1 := j].Keys == {1}
            && Encloses(g, 0, {1}, {}, {}) && OnlyFromHead(g, 0, {1}, {}, {1})
  {
    var g := TwoBlocks(x, s);
    assert g.blocks[0] == [x] && g.blocks[1] == s;
    assert RemoveAt([x], 0) == [];
    assert IsRelatedAt(g.blocks[1], j, s[j].op.arg);
  }

  /** Where a use stands between a decref and the one erased, and the two values are
      aliases, the count at the use is lower than it had ever been by then. */
  lemma ReleaseMovesAheadOfUse(x: Instr, s: Body, j: nat, d: nat, i: nat)
    requires Clean(s) && d < i < j < |s| && s[d].op.Dec? && s[j].op.Dec? && !IsRefOp(s[i])
    requires x.op == Inc(s[j].op.arg) && forall k :: 0 <= k < j ==> s[k].op != s[j].op
    ensures var g := TwoBlocks(x, s);
            !KeepsUses(g, TwoBlocksPruned(x, s, j))
  {
    var g := TwoBlocks(x, s);
    var h := TwoBlocksPruned(x, s, j);
    var env := Aliased(s[d].op.arg, s[j].op.arg);
    var p, envs := [0, 1], [env, env];
    assert IsPath(g, p) && Fixed(envs);
    ReleasedAhead(s, j, d, i);
    RemoveBehind(s, j, i);
    assert g.blocks[1] == s && h.blocks[1] == RemoveAt(s, j);
    assert SameUse(g.blocks[p[1]], i, h.blocks[p[1]], i);
    assert s[j] in s;
    TwoBlockEntry(x, s, j, env);
    assert UseLow(h, p, envs, 1, i, 1) < UseLow(g, p, envs, 1, i, 1);
    assert !UseNoLower(g, h, p, envs, 1, 1, i, i);
    assert Execution(g, p, envs) && !UsesNoLower(g, h, p, envs, 1);
  }

  lemma TwoBlockEntry(x: Instr, s: Body, j: nat, env: Env)
    requires j < |s| && s[j].op.Dec? && x.op == Inc(s[j].op.arg) && Delta(s[j], env, 1) == -1
    ensures var g, p, envs := TwoBlocks(x, s), [0, 1], [env, env];
            var h := TwoBlocksPruned(x, s, j);
            && PathNet(g, p, envs, 1, 1) == 1 && PathLow(g, p, envs, 1, 1) == 0
            && PathNet(h, p, envs, 1, 1) == 0 && PathLow(h, p, envs, 1, 1) == 0
  {
    var g, p, envs := TwoBlocks(x, s), [0, 1], [env, env];
    var h := TwoBlocksPruned(x, s, j);
    assert g.blocks[p[0]] == [x] && h.blocks[p[0]] == [];
    SingleCounts(x, env, 1);
  }

  /** For every decref block: the smallest fan-out into it is accepted, and leaves all
      uses of all executions covered if and only if no use stands between a decref
      and the one erased. */
  lemma TwoBlocksExact(x: Instr, s: Body, j: nat)
    requires Distinct(s) && IncsFirst(s) && Clean(s) && j < |s| && s[j].op.Dec?
    requires x.op == Inc(s[j].op.arg) && forall k :: 0 <= k < j ==> s[k].op != s[j].op
    ensures var g := TwoBlocks(x, s);
            && CanFan(g, 0, s[j].op.arg, false)
            && (KeepsUses(g, TwoBlocksPruned(x, s, j)) <==> ReleasedRight(s, j))
  {
    var g := TwoBlocks(x, s);
    var h := TwoBlocksPruned(x, s, j);
    TwoBlocksFan(x, s, j);
    TwoBlocksShape(x, s, j);
    assert g.blocks[0] == [x] && g.blocks[1] == s && Normal(g);
    if ReleasedRight(s, j) {
      hide ReleasedRight, Clean, IncsFirst, Distinct, CanFan, Pruned, Encloses, OnlyFromHead, UsesNoLower, WellFormed;
      forall p, envs, o | Execution(g, p, envs) ensures UsesNoLower(g, h, p, envs, o) {
        FanoutKeepsUses(g, h, 0, 0, map[1 := j], {}, {}, {1}, p, envs, o);
      }
    } else {
      var d, i :| 0 <= d < i < j && i < |s| && s[d].op.Dec? && !IsRefOp(s[i]);
      ReleaseMovesAheadOfUse(x, s, j, d, i);
    }
  }

  // ---- Diamond steps ----

  ghost predicate Related(g: Cfg, head: nat, tail: nat)
    requires head < |g.blocks| && tail < |g.blocks|
  {
    exists x, y :: x in g.blocks[head] && y in g.blocks[tail] && x.op.Inc? && IsRelatedDecref(x, y)
  }

  type Pairs = set<(nat, nat)>

  /** The check the diamond pass leaves out: no incref block with a matching
      decref block that it dominates and that postdominates it can be run again
      before that decref block. */
  ghost predicate DiamondsSafe(g: Cfg, dom: Pairs, pdom: Pairs) {
    forall a, b ::
      (a, b) in dom && (b, a) in pdom && a != b && a < |g.blocks| && b < |g.blocks| && Related(g, a, b)
      ==> NoCycleAvoiding(g, a, b)
  }

  /** The dominator analyses report nothing that is not so. */
  ghost predicate AnalysesSound(g: Cfg, dom: Pairs, pdom: Pairs) {
    && (forall a, b :: (a, b) in dom ==> Dominates(g, a, b))
    && (forall a, b :: (a, b) in pdom ==> PostDominates(g, a, b))
  }

  lemma SameWalks(g: Cfg, h: Cfg)
    requires SameShape(g, h)
    ensures forall w :: IsWalk(g, w) <==> IsWalk(h, w)
    ensures forall p :: IsPath(g, p) <==> IsPath(h, p)
  {
  }

  lemma AnalysesStaySound(g: Cfg, h: Cfg, dom: Pairs, pdom: Pairs)
    requires SameShape(g, h) && AnalysesSound(g, dom, pdom)
    ensures AnalysesSound(h, dom, pdom)
  {
    SameWalks(g, h);
    forall a, b | (a, b) in pdom ensures PostDominates(h, a, b) {
      assert PostDominates(g, a, b);
    }
    forall a, b | (a, b) in dom ensures Dominates(h, a, b) {
      assert Dominates(g, a, b);
    }
  }

  lemma DiamondsStaySafe(g: Cfg, h: Cfg, dom: Pairs, pdom: Pairs)
    requires SameShape(g, h) && DiamondsSafe(g, dom, pdom)
    ensures DiamondsSafe(h, dom, pdom)
  {
    SameWalks(g, h);
    forall a, b | (a, b) in dom && (b, a) in pdom && a != b && a < |h.blocks| && b < |h.blocks| && Related(h, a, b)
      ensures NoCycleAvoiding(h, a, b)
    {
      var x, y :| x in h.blocks[a] && y in h.blocks[b] && x.op.Inc? && IsRelatedDecref(x, y);
      assert Erased(g.blocks[a], h.blocks[a]) && Erased(g.blocks[b], h.blocks[b]);
      assert x in g.blocks[a] && y in g.blocks[b];
      assert NoCycleAvoiding(g, a, b);
      forall w ensures !CycleAvoiding(h, w, a, b) {
        assert !CycleAvoiding(g, w, a, b);
      }
    }
  }

  lemma ErasePair(g: Cfg, x: RefOp, y: RefOp) returns (i: nat, j: nat)
    requires WellFormed(g) && Present(g, x) && Present(g, y) && x.block != y.block
    requires x.ins.op.Inc? && IsRelatedDecref(x.ins, y.ins)
    ensures Pruned(g, EraseOp(EraseOp(g, x), y), x.block, i, map[y.block := j])
    ensures g.blocks[x.block][i] == x.ins && g.blocks[y.block][j] == y.ins
  {
    i :| 0 <= i < |g.blocks[x.block]| && g.blocks[x.block][i] == x.ins;
    j :| 0 <= j < |g.blocks[y.block]| && g.blocks[y.block][j] == y.ins;
    EraseIsRemoveAt(g.blocks[x.block], i);
    EraseIsRemoveAt(g.blocks[y.block], j);
  }

  lemma DiamondKeeps(g: Cfg, x: RefOp, y: RefOp, region: set<nat>, behind: set<nat>)
    requires WellFormed(g) && Present(g, x) && Present(g, y)
    requires x.ins.op.Inc? && IsRelatedDecref(x.ins, y.ins)
    requires Accepted(g, x.block, y.block, region, behind)
    ensures SameShape(g, EraseOp(EraseOp(g, x), y))
    ensures NoCycleAvoiding(g, x.block, y.block) ==> Keeps(g, EraseOp(EraseOp(g, x), y), {})
  {
    var h := EraseOp(EraseOp(g, x), y);
    var i, j := ErasePair(g, x, y);
    PrunedShape(g, h, x.block, i, map[y.block := j]);
    if NoCycleAvoiding(g, x.block, y.block) {
      DiamondStepKeeps(g, h, x.block, i, y.block, j, region, behind);
    }
  }

  lemma DiamondStepKeeps(g: Cfg, h: Cfg, head: nat, i: nat, tail: nat, j: nat, region: set<nat>, behind: set<nat>)
    requires WellFormed(g) && Pruned(g, h, head, i, map[tail := j])
    requires Accepted(g, head, tail, region, behind) && NoCycleAvoiding(g, head, tail)
    ensures Keeps(g, h, {})
  {
    PrunedShape(g, h, head, i, map[tail := j]);
    DiamondCounts(g, h, head, i, tail, j, region, behind);
    if Tidy(g) {
      DiamondTidyUses(g, h, head, i, tail, j, region, behind);
    }
    hide Accepted, NoCycleAvoiding, Pruned, WellFormed, SameShape, CountsAgree, Tidy, UsesNoLower;
    KeepsAll(g, h);
  }

  lemma DiamondTidyUses(g: Cfg, h: Cfg, head: nat, i: nat, tail: nat, j: nat, region: set<nat>, behind: set<nat>)
    requires WellFormed(g) && Pruned(g, h, head, i, map[tail := j]) && Tidy(g)
    requires Accepted(g, head, tail, region, behind) && NoCycleAvoiding(g, head, tail)
    ensures |h.blocks| == |g.blocks|
    ensures forall p, envs, o :: Execution(g, p, envs) ==> UsesNoLower(g, h, p, envs, o)
  {
    TidyReleases(g, h, head, i, map[tail := j]);
    assert tail in map[tail := j] && tail < |g.blocks|;
    hide Accepted, NoCycleAvoiding, UsesNoLower, WellFormed, ReleasedRight, Pruned, Normal, AllUsesFirst;
    forall p, envs, o | Execution(g, p, envs) ensures UsesNoLower(g, h, p, envs, o) {
      DiamondKeepsUses(g, h, head, i, tail, j, region, behind, p, envs, o);
    }
  }

  lemma DiamondCounts(g: Cfg, h: Cfg, head: nat, i: nat, tail: nat, j: nat, region: set<nat>, behind: set<nat>)
    requires WellFormed(g) && Pruned(g, h, head, i, map[tail := j])
    requires Accepted(g, head, tail, region, behind) && NoCycleAvoiding(g, head, tail)
    ensures |h.blocks| == |g.blocks|
    ensures forall p, envs, o :: Complete(g, p) && Execution(g, p, envs) ==> CountsAgree(g, h, p, envs, o)
  {
    hide Accepted, NoCycleAvoiding, PathNet, PathLow, WellFormed;
    forall p, envs, o | Complete(g, p) && Execution(g, p, envs) ensures CountsAgree(g, h, p, envs, o) {
      DiamondPreserves(g, h, head, i, tail, j, region, behind, p, envs, o);
    }
  }

  /** The same for an accepted diamond whose head does not repeat before its tail. */
  lemma DiamondKeepsUses(g: Cfg, h: Cfg, head: nat, i: nat, tail: nat, j: nat,
                         region: set<nat>, behind: set<nat>, p: Path, envs: seq<Env>, o: Obj)
    requires WellFormed(g) && Pruned(g, h, head, i, map[tail := j])
    requires Accepted(g, head, tail, region, behind) && NoCycleAvoiding(g, head, tail)
    requires Normal(g) && tail < |g.blocks| && ReleasedRight(g.blocks[tail], j)
    requires Execution(g, p, envs)
    ensures UsesNoLower(g, h, p, envs, o)
  {
    DiamondPairsUp(g, h, head, i, tail, j, region, behind, p, envs);
    StepUses(g, h, head, i, map[tail := j], p, envs, o);
  }

  // ---- Counting refops, for termination ----

  function RefOpCount(blocks: seq<Body>): nat {
    if blocks == [] then 0 else RefOpsIn(blocks[0]) + RefOpCount(blocks[1..])
  }

  lemma {:induction false} RefOpCountReplace(blocks: seq<Body>, b: nat, s: Body)
    requires b < |blocks|
    ensures RefOpCount(blocks[b := s]) == RefOpCount(blocks) - RefOpsIn(blocks[b]) + RefOpsIn(s)
  {
    if b == 0 {
      assert blocks[b := s][1..] == blocks[1..];
    } else {
      RefOpCountReplace(blocks[1..], b - 1, s);
      assert blocks[b := s][1..] == blocks[1..][b - 1 := s];
    }
  }

  lemma EraseOpCount(g: Cfg, r: RefOp)
    requires Present(g, r)
    ensures RefOpCount(EraseOp(g, r).blocks) == RefOpCount(g.blocks) - 1
  {
    EraseRefOps(g.blocks[r.block], r.ins);
    RefOpCountReplace(g.blocks, r.block, Erase(g.blocks[r.block], r.ins));
  }

  lemma EraseOpPresent(g: Cfg, r: RefOp, x: RefOp)
    requires WellFormed(g) && Present(g, r) && Present(g, x) && x != r
    ensures Present(EraseOp(g, r), x)
  {
    EraseProperties(g.blocks[r.block], r.ins);
  }

  lemma EraseOpShape(g: Cfg, r: RefOp)
    requires WellFormed(g) && Present(g, r)
    ensures SameShape(g, EraseOp(g, r)) && WellFormed(EraseOp(g, r))
  {
    EraseErased(g.blocks[r.block], r.ins);
    SameShapeReplace(g, r.block, Erase(g.blocks[r.block], r.ins));
    SameShapeKeeps(g, EraseOp(g, r));
  }

  // ---- Raising blocks are untouched ----

  lemma {:induction false} RaiseInOthers(s: Body)
    ensures IsRaising(s) <==> IsRaising(Others(s))
  {
    if s != [] {
      var t, x := s[..|s| - 1], s[|s| - 1];
      RaiseInOthers(t);
      assert s == t + [x];
      if IsRaising(t) {
        var i :| 0 <= i < |t| && t[i].op.Raise?;
        assert s[i].op.Raise?;
        var k :| 0 <= k < |Others(t)| && Others(t)[k].op.Raise?;
        assert Others(s)[k].op.Raise?;
      } else if x.op.Raise? {
        assert Others(s)[|Others(t)|].op.Raise?;
      }
    }
  }

  lemma SameRaising(g: Cfg, h: Cfg)
    requires SameShape(g, h)
    ensures Raising(g) == Raising(h)
  {
    forall b: nat | b < |g.blocks| ensures IsRaising(g.blocks[b]) <==> IsRaising(h.blocks[b]) {
      assert Erased(g.blocks[b], h.blocks[b]);
      RaiseInOthers(g.blocks[b]);
      RaiseInOthers(h.blocks[b]);
    }
  }
}
