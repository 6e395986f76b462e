/** The diamond prune: when it keeps the counts right, and when it does not. */
module Diamond {
  import opened RefCounts
  import opened ControlFlow
  import opened Pairing
  import opened Subgraph

  /** A walk along edges, from any block. */
  ghost predicate IsWalk(g: Cfg, w: Path) {
    && |w| > 0
    && (forall k :: 0 <= k < |w| ==> w[k] < |g.blocks|)
    && (forall k :: 0 < k < |w| ==> Edge(g, w[k - 1], w[k]))
  }

  /** Every path from entry to `b` passes `a`. */
  ghost predicate Dominates(g: Cfg, a: nat, b: nat) {
    forall p :: IsPath(g, p) && p[|p| - 1] == b ==> a in p
  }

  /** Every walk from `b` to an exit passes `a`. */
  ghost predicate PostDominates(g: Cfg, a: nat, b: nat) {
    forall w :: IsWalk(g, w) && w[0] == b && w[|w| - 1] < |g.succs| && g.succs[w[|w| - 1]] == [] ==> a in w
  }

  /** A walk that comes back to `head` without passing `tail`. */
  ghost predicate CycleAvoiding(g: Cfg, w: Path, head: nat, tail: nat) {
    IsWalk(g, w) && |w| > 1 && w[0] == head && w[|w| - 1] == head && tail !in w
  }

  ghost predicate NoCycleAvoiding(g: Cfg, head: nat, tail: nat) {
    forall w :: !CycleAvoiding(g, w, head, tail)
  }

  /** What the diamond search has checked when it prunes. */
  ghost predicate Accepted(g: Cfg, head: nat, tail: nat, region: set<nat>, behind: set<nat>) {
    && head != tail
    && PostDominates(g, tail, head)
    && QuietUntil(g, head, tail, region)
    && OnlyFromHead(g, head, {tail}, {}, behind)
  }

  lemma NoCycleNeverRepeats(g: Cfg, head: nat, tail: nat, p: Path)
    requires IsPath(g, p) && head != tail && NoCycleAvoiding(g, head, tail)
    ensures NeverRepeats(p, head, {tail})
  {
    forall k | 0 <= k < |p| && p[k] == head ensures !Open(p, k, head, {tail}) {
      if Open(p, k, head, {tail}) {
        var q := LastHead(p, k, head, {tail});
        var w := p[q..k + 1];
        forall j | 0 <= j < |w| ensures w[j] != tail {
          assert w[j] == p[q + j];
        }
        assert CycleAvoiding(g, w, head, tail);
        assert false;
      }
    }
  }

  lemma TailAhead(g: Cfg, head: nat, tail: nat, p: Path, q: nat) returns (x: nat)
    requires WellFormed(g) && Complete(g, p) && PostDominates(g, tail, head)
    requires q < |p| && p[q] == head
    ensures q <= x < |p| && p[x] == tail
  {
    var w := p[q..];
    assert IsWalk(g, w) && w[|w| - 1] == p[|p| - 1];
    var y :| 0 <= y < |w| && w[y] == tail;
    x := q + y;
  }

  lemma EndsClosed(g: Cfg, head: nat, tail: nat, p: Path)
    requires WellFormed(g) && Complete(g, p) && PostDominates(g, tail, head) && head != tail
    ensures !Open(p, |p|, head, {tail})
  {
    if Open(p, |p|, head, {tail}) {
      var x := TailAhead(g, head, tail, p, LastHead(p, |p|, head, {tail}));
    }
  }

  lemma DiamondPairsUp(g: Cfg, h: Cfg, head: nat, i: nat, tail: nat, j: nat,
                       region: set<nat>, behind: set<nat>, p: Path, envs: seq<Env>)
    requires WellFormed(g) && Pruned(g, h, head, i, map[tail := j])
    requires Accepted(g, head, tail, region, behind) && NoCycleAvoiding(g, head, tail)
    requires Execution(g, p, envs)
    ensures PairsUp(g, h, head, i, map[tail := j], p, envs)
  {
    assert map[tail := j].Keys == {tail};
    NoCycleNeverRepeats(g, head, tail, p);
    DiamondAlternates(g, head, tail, region, behind, p);
    assert UsesIn(g.blocks[head], g.blocks[head][i].op.arg);
    ExecutionSteady(g, head, {tail}, {}, behind, p, envs, g.blocks[head][i].op.arg);
  }

  /** One diamond step: if control cannot come back to the incref without
      passing the decref, every object keeps its final and its lowest count on
      every complete execution. */
  lemma DiamondPreserves(g: Cfg, h: Cfg, head: nat, i: nat, tail: nat, j: nat,
                         region: set<nat>, behind: set<nat>, p: Path, envs: seq<Env>, o: Obj)
    requires WellFormed(g) && Pruned(g, h, head, i, map[tail := j])
    requires Accepted(g, head, tail, region, behind) && NoCycleAvoiding(g, head, tail)
    requires Complete(g, p) && Execution(g, p, envs)
    ensures PathNet(h, p, envs, |p|, o) == PathNet(g, p, envs, |p|, o)
    ensures Normal(g) ==> PathLow(h, p, envs, |p|, o) == PathLow(g, p, envs, |p|, o)
  {
    assert map[tail := j].Keys == {tail};
    DiamondPairsUp(g, h, head, i, tail, j, region, behind, p, envs);
    EndsClosed(g, head, tail, p);
    AlternationPreserves(g, h, head, i, map[tail := j], p, envs, o);
  }

  // ---- The missing check ----

  /** Counting per value: every value is its own object. */
  function PerValue(v: Value): Obj {
    match v case Null => 0 case Ssa(n) => n
  }

  ghost function PerValueEnvs(p: Path): (envs: seq<Env>)
    ensures |envs| == |p| && Fixed(envs)
  {
    seq(|p|, k => PerValue)
  }

  ghost predicate KeepsValueCounts(g: Cfg, h: Cfg) {
    |h.blocks| == |g.blocks| &&
    forall p, o :: Complete(g, p) ==>
                     PathNet(h, p, PerValueEnvs(p), |p|, o) == PathNet(g, p, PerValueEnvs(p), |p|, o)
  }

  ghost predicate OnCompletePath(g: Cfg, b: nat) {
    exists p :: Complete(g, p) && b in p
  }

  /** What one visit of block `b` contributes less in the pruned function. */
  lemma VisitDiffers(g: Cfg, h: Cfg, head: nat, i: nat, tail: nat, j: nat, b: nat, id: nat)
    requires Pruned(g, h, head, i, map[tail := j]) && b < |g.blocks| && g.blocks[head][i].op.arg == Ssa(id)
    ensures Net(h.blocks[b], PerValue, id)
            == Net(g.blocks[b], PerValue, id) - (if b == head then 1 else 0) + (if b == tail then 1 else 0)
  {
    if b == head {
      SplitAt(g.blocks[head], i, PerValue, id);
    } else if b == tail {
      assert tail in map[tail := j] && IsRelatedAt(g.blocks[tail], j, Ssa(id));
      SplitAt(g.blocks[tail], j, PerValue, id);
    } else {
      assert b !in map[tail := j];
    }
  }

  /** A pruned pair changes the count of its value by the difference between
      the visits of the tail and of the head. */
  lemma {:induction false} VisitsDiffer(g: Cfg, h: Cfg, head: nat, i: nat, tail: nat, j: nat,
                                        p: Path, k: nat, id: nat)
    requires WellFormed(g) && Pruned(g, h, head, i, map[tail := j])
    requires IsPath(g, p) && k <= |p| && g.blocks[head][i].op.arg == Ssa(id)
    ensures PathNet(h, p, PerValueEnvs(p), k, id)
            == PathNet(g, p, PerValueEnvs(p), k, id) - multiset(p[..k])[head] + multiset(p[..k])[tail]
  {
    if k > 0 {
      hide Net, Delta;
      VisitsDiffer(g, h, head, i, tail, j, p, k - 1, id);
      assert p[..k] == p[..k - 1] + [p[k - 1]];
      assert PerValueEnvs(p)[k - 1] == PerValue;
      VisitDiffers(g, h, head, i, tail, j, p[k - 1], id);
    }
  }

  lemma KeepsMeansEqualVisits(g: Cfg, h: Cfg, head: nat, i: nat, tail: nat, j: nat, p: Path)
    requires WellFormed(g) && Pruned(g, h, head, i, map[tail := j])
    requires g.blocks[head][i].op.arg != Null
    requires Complete(g, p) && KeepsValueCounts(g, h)
    ensures multiset(p)[head] == multiset(p)[tail]
  {
    VisitsDiffer(g, h, head, i, tail, j, p, |p|, g.blocks[head][i].op.arg.id);
    assert p[..|p|] == p;
  }

  /** Going once more round a cycle through the `k`-th block of a path. */
  function Detour(p: Path, k: nat, w: Path): Path
    requires k < |p| && |w| > 0
  {
    p[..k + 1] + w[1..] + p[k + 1..]
  }

  lemma DetourAt(p: Path, k: nat, w: Path, x: nat)
    requires k < |p| && |w| > 1 && w[0] == p[k] == w[|w| - 1] && x < |Detour(p, k, w)|
    ensures |Detour(p, k, w)| == |p| + |w| - 1
    ensures Detour(p, k, w)[x] == if x <= k then p[x] else if x < k + |w| then w[x - k] else p[x - |w| + 1]
  {
  }

  lemma DetourComplete(g: Cfg, p: Path, k: nat, w: Path, tail: nat)
    requires Complete(g, p) && k < |p| && CycleAvoiding(g, w, p[k], tail)
    ensures Complete(g, Detour(p, k, w))
  {
    var d := Detour(p, k, w);
    DetourAt(p, k, w, |d| - 1);
    forall x | 0 < x < |d| ensures Edge(g, d[x - 1], d[x]) {
      DetourAt(p, k, w, x);
      DetourAt(p, k, w, x - 1);
    }
    forall x | 0 <= x < |d| ensures d[x] < |g.blocks| {
      DetourAt(p, k, w, x);
    }
    DetourAt(p, k, w, 0);
  }

  lemma DetourVisits(g: Cfg, p: Path, k: nat, w: Path, tail: nat)
    requires k < |p| && CycleAvoiding(g, w, p[k], tail)
    ensures multiset(Detour(p, k, w))[p[k]] > multiset(p)[p[k]]
    ensures multiset(Detour(p, k, w))[tail] == multiset(p)[tail]
  {
    var v := w[1..];
    assert p == p[..k + 1] + p[k + 1..];
    assert v[|v| - 1] == p[k];
    assert p[k] in multiset(v);
    forall x | x in v ensures x != tail {
      assert x in w;
    }
    assert multiset(v)[tail] == 0;
  }

  /** The exact condition. After everything the diamond search checks, erasing
      the pair keeps every value's count on every complete path if and only if
      control cannot return to the incref's block without passing the decref's. */
  lemma DiamondExact(g: Cfg, h: Cfg, head: nat, i: nat, tail: nat, j: nat,
                     region: set<nat>, behind: set<nat>)
    requires WellFormed(g) && Pruned(g, h, head, i, map[tail := j])
    requires g.blocks[head][i].op.arg != Null
    requires Accepted(g, head, tail, region, behind) && OnCompletePath(g, head)
    ensures KeepsValueCounts(g, h) <==> NoCycleAvoiding(g, head, tail)
  {
    if NoCycleAvoiding(g, head, tail) {
      forall p, o | Complete(g, p)
        ensures PathNet(h, p, PerValueEnvs(p), |p|, o) == PathNet(g, p, PerValueEnvs(p), |p|, o)
      {
        DiamondPreserves(g, h, head, i, tail, j, region, behind, p, PerValueEnvs(p), o);
      }
    } else if KeepsValueCounts(g, h) {
      var w :| CycleAvoiding(g, w, head, tail);
      var p :| Complete(g, p) && head in p;
      var k :| 0 <= k < |p| && p[k] == head;
      DetourComplete(g, p, k, w, tail);
      DetourVisits(g, p, k, w, tail);
      KeepsMeansEqualVisits(g, h, head, i, tail, j, p);
      KeepsMeansEqualVisits(g, h, head, i, tail, j, Detour(p, k, w));
      assert false;
    }
  }

  /** A self-loop on the incref's block is accepted by every check, and erasing
      the pair changes the count on the path that goes round it once. */
  function LoopingGraph(): Cfg {
    Cfg([[], [Instr(0, Inc(Ssa(7)))], [Instr(1, Dec(Ssa(7)))]],
        [[1], [1, 2], []],
        [{}, {}, {}])
  }

  lemma LoopingGraphPostDominates()
    ensures PostDominates(LoopingGraph(), 2, 1)
  {
    var g := LoopingGraph();
    forall w | IsWalk(g, w) && w[0] == 1 && w[|w| - 1] < |g.succs| && g.succs[w[|w| - 1]] == []
      ensures 2 in w
    {
      assert w[|w| - 1] == 2;
    }
  }

  lemma LoopingGraphAccepted()
    ensures Accepted(LoopingGraph(), 1, 2, {1}, {2}) && Dominates(LoopingGraph(), 1, 2)
  {
    var g := LoopingGraph();
    LoopingGraphPostDominates();
    forall n, m | n in {2} && Edge(g, m, n) ensures m == 1 {
      assert m == 0 || m == 1 || m == 2;
    }
    forall p | IsPath(g, p) && p[|p| - 1] == 2 ensures 1 in p {
      assert Edge(g, p[|p| - 2], p[|p| - 1]);
      assert p[|p| - 2] == 1;
    }
  }

  function LoopingGraphPruned(): Cfg {
    Cfg([[], [], []], [[1], [1, 2], []], [{}, {}, {}])
  }

  lemma LoopingGraphPath()
    ensures Complete(LoopingGraph(), [0, 1, 1, 2])
  {
    var g := LoopingGraph();
    assert g.succs[0] == [1] && g.succs[1] == [1, 2] && g.succs[2] == [];
    assert Edge(g, 0, 1) && Edge(g, 1, 1) && Edge(g, 1, 2);
  }

  lemma LoopingGraphFacts()
    ensures WellFormed(LoopingGraph())
    ensures Pruned(LoopingGraph(), LoopingGraphPruned(), 1, 0, map[2 := 0])
  {
  }

  /** Every check passes, and the count of the value still changes. */
  lemma LoopingGraphMiscounts()
    ensures Pruned(LoopingGraph(), LoopingGraphPruned(), 1, 0, map[2 := 0])
    ensures Accepted(LoopingGraph(), 1, 2, {1}, {2}) && Dominates(LoopingGraph(), 1, 2)
    ensures !KeepsValueCounts(LoopingGraph(), LoopingGraphPruned())
  {
    LoopingGraphAccepted();
    LoopingGraphFacts();
    LoopingGraphPath();
    hide Pruned, Accepted, WellFormed;
    var p := [0, 1, 1, 2];
    assert multiset(p) == multiset{0, 1, 1, 2};
    if KeepsValueCounts(LoopingGraph(), LoopingGraphPruned()) {
      KeepsMeansEqualVisits(LoopingGraph(), LoopingGraphPruned(), 1, 0, 2, 0, p);
    }
  }
}
