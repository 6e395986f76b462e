/** What cannot be left in a function when the pass ends, said on the graph alone. */
module PruneEnds {
  import opened RefCounts
  import opened ControlFlow
  import opened Subgraph
  import opened Diamond
  import opened BlockPrune
  import opened GraphSearch
  import opened FanoutWalks
  import opened FanoutSearch
  import opened FanoutDepth
  import opened PruneSteps
  import opened RefPrune

  // ---- The backward walk in plain terms ----

  /** A walk to a tail that does not touch the head or a forgiven block. */
  ghost predicate BackWalk(g: Cfg, head: nat, tails: set<nat>, avoid: set<nat>, w: Path) {
    && IsWalk(g, w) && w[|w| - 1] in tails && head !in w
    && forall k :: 0 <= k < |w| ==> w[k] !in avoid
  }

  /** It does not start at the entry, and no tail leads into its start. */
  ghost predicate StartsInside(g: Cfg, tails: set<nat>, w: Path)
    requires |w| > 0
  {
    w[0] != 0 && forall m :: Edge(g, m, w[0]) ==> m !in tails
  }

  lemma {:induction false} StartsBehind(g: Cfg, head: nat, tails: set<nat>, avoid: set<nat>, behind: set<nat>, w: Path)
    requires OnlyFromHead(g, head, tails, avoid, behind) && BackWalk(g, head, tails, avoid, w)
    ensures w[0] in behind
    decreases |w|
  {
    if |w| > 1 {
      var t := w[1..];
      assert t[|t| - 1] == w[|w| - 1] && forall k :: 0 <= k < |t| ==> t[k] == w[k + 1];
      assert forall k :: 0 < k < |t| ==> Edge(g, w[k], w[k + 1]);
      StartsBehind(g, head, tails, avoid, behind, t);
      assert Edge(g, w[1 - 1], w[1]);
    }
  }

  ghost predicate ReachesTail(g: Cfg, head: nat, tails: set<nat>, avoid: set<nat>, n: nat) {
    exists w :: BackWalk(g, head, tails, avoid, w) && w[0] == n
  }

  ghost function Behind(g: Cfg, head: nat, tails: set<nat>, avoid: set<nat>): set<nat> {
    set n: nat | n < |g.blocks| && ReachesTail(g, head, tails, avoid, n)
  }

  lemma BackFurther(g: Cfg, head: nat, tails: set<nat>, avoid: set<nat>, m: nat, w: Path)
    requires BackWalk(g, head, tails, avoid, w) && Edge(g, m, w[0]) && m != head && m !in avoid && m < |g.blocks|
    ensures BackWalk(g, head, tails, avoid, [m] + w) && ([m] + w)[0] == m
  {
    var x := [m] + w;
    assert forall k :: 0 < k < |x| ==> x[k] == w[k - 1];
    assert head in x <==> head == m || head in w;
    forall k | 0 < k < |x| ensures Edge(g, x[k - 1], x[k]) {
      assert k > 1 ==> Edge(g, w[k - 2], w[k - 1]);
    }
  }

  ghost predicate AllInside(g: Cfg, head: nat, tails: set<nat>, avoid: set<nat>) {
    forall w :: BackWalk(g, head, tails, avoid, w) ==> StartsInside(g, tails, w)
  }

  /** The backward walk can succeed exactly if no walk to a tail that keeps off the
      head starts at the entry or behind a tail. */
  lemma BackwardExact(g: Cfg, head: nat, tails: set<nat>, avoid: set<nat>)
    requires WellFormed(g) && head !in tails && forall t :: t in tails ==> t < |g.blocks|
    ensures (exists behind :: OnlyFromHead(g, head, tails, avoid, behind)) <==> AllInside(g, head, tails, avoid)
  {
    if behind :| OnlyFromHead(g, head, tails, avoid, behind) {
      forall w | BackWalk(g, head, tails, avoid, w) ensures StartsInside(g, tails, w) {
        StartsBehind(g, head, tails, avoid, behind, w);
      }
    }
    hide OnlyFromHead, AllInside;
    if AllInside(g, head, tails, avoid) {
      BehindWorks(g, head, tails, avoid);
    }
  }

  lemma TailBehind(g: Cfg, head: nat, tails: set<nat>, avoid: set<nat>, t: nat)
    requires t in tails && t !in avoid && t != head && t < |g.blocks|
    ensures t in Behind(g, head, tails, avoid)
  {
    assert [t][0] == t;
    assert BackWalk(g, head, tails, avoid, [t]);
  }

  lemma PredBehind(g: Cfg, head: nat, tails: set<nat>, avoid: set<nat>, n: nat, m: nat)
    requires WellFormed(g) && AllInside(g, head, tails, avoid) && n in Behind(g, head, tails, avoid) && Edge(g, m, n)
    ensures m !in tails && (m == head || m in avoid || m in Behind(g, head, tails, avoid))
  {
    var w :| BackWalk(g, head, tails, avoid, w) && w[0] == n;
    hide BackWalk, WellFormed;
    assert StartsInside(g, tails, w);
    if m != head && m !in avoid {
      EdgeFrom(g, m, n);
      BackFurther(g, head, tails, avoid, m, w);
    }
  }

  lemma EdgeFrom(g: Cfg, m: nat, n: nat)
    requires WellFormed(g) && Edge(g, m, n)
    ensures m < |g.blocks|
  {
  }

  lemma EntryNotBehind(g: Cfg, head: nat, tails: set<nat>, avoid: set<nat>)
    requires AllInside(g, head, tails, avoid)
    ensures 0 !in Behind(g, head, tails, avoid)
  {
    hide BackWalk;
  }

  lemma BehindWorks(g: Cfg, head: nat, tails: set<nat>, avoid: set<nat>)
    requires WellFormed(g) && head !in tails && forall t :: t in tails ==> t < |g.blocks|
    requires AllInside(g, head, tails, avoid)
    ensures OnlyFromHead(g, head, tails, avoid, Behind(g, head, tails, avoid))
  {
    hide WellFormed, AllInside, Behind, Edge;
    var behind := Behind(g, head, tails, avoid);
    EntryNotBehind(g, head, tails, avoid);
    forall t | t in tails && t !in avoid ensures t in behind {
      TailBehind(g, head, tails, avoid, t);
    }
    forall n, m | n in behind && Edge(g, m, n) ensures m !in tails && (m == head || m in behind || m in avoid) {
      PredBehind(g, head, tails, avoid, n, m);
    }
  }

  // ---- The search between ----

  /** A walk out of the head that has not come to the tail. */
  ghost predicate ShortOf(g: Cfg, head: nat, tail: nat, w: Path) {
    IsWalk(g, w) && w[0] == head && forall k :: 0 < k < |w| ==> w[k] != tail
  }

  ghost predicate QuietShortOf(g: Cfg, head: nat, tail: nat) {
    forall w :: ShortOf(g, head, tail, w) ==> ReleasesNothing(g, w[|w| - 1])
  }

  lemma {:induction false} ShortInRegion(g: Cfg, head: nat, tail: nat, region: set<nat>, w: Path)
    requires QuietUntil(g, head, tail, region) && ShortOf(g, head, tail, w)
    ensures w[|w| - 1] in region
    decreases |w|
  {
    if |w| > 1 {
      var t := w[..|w| - 1];
      assert forall k :: 0 < k < |t| ==> Edge(g, w[k - 1], w[k]);
      ShortInRegion(g, head, tail, region, t);
      assert Edge(g, w[|w| - 2], w[|w| - 1]);
    }
  }

  ghost predicate MetShort(g: Cfg, head: nat, tail: nat, n: nat) {
    exists w :: ShortOf(g, head, tail, w) && w[|w| - 1] == n
  }

  ghost function Short(g: Cfg, head: nat, tail: nat): set<nat> {
    set n: nat | n < |g.blocks| && MetShort(g, head, tail, n)
  }

  lemma ShortFurther(g: Cfg, head: nat, tail: nat, w: Path, s: nat)
    requires ShortOf(g, head, tail, w) && Edge(g, w[|w| - 1], s) && s != tail && s < |g.blocks|
    ensures ShortOf(g, head, tail, w + [s]) && (w + [s])[|w|] == s
  {
    var x := w + [s];
    forall k | 0 < k < |x| ensures Edge(g, x[k - 1], x[k]) {
      assert k < |w| ==> Edge(g, w[k - 1], w[k]);
    }
  }

  /** The search between head and tail finds nothing exactly if no walk short of the
      tail comes to a decref. */
  lemma QuietExact(g: Cfg, head: nat, tail: nat)
    requires WellFormed(g) && head < |g.blocks|
    ensures (exists region :: QuietUntil(g, head, tail, region)) <==> QuietShortOf(g, head, tail)
  {
    if region :| QuietUntil(g, head, tail, region) {
      forall w | ShortOf(g, head, tail, w) ensures ReleasesNothing(g, w[|w| - 1]) {
        ShortInRegion(g, head, tail, region, w);
      }
    }
    if QuietShortOf(g, head, tail) {
      var region := Short(g, head, tail);
      assert ShortOf(g, head, tail, [head]) && [head][0] == head;
      forall n | n in region ensures NoDec(g.blocks[n]) {
        var w :| ShortOf(g, head, tail, w) && w[|w| - 1] == n;
        assert ReleasesNothing(g, w[|w| - 1]);
      }
      forall n, s | n in region && Edge(g, n, s) ensures s == tail || s in region {
        var w :| ShortOf(g, head, tail, w) && w[|w| - 1] == n;
        if s != tail {
          ShortFurther(g, head, tail, w, s);
        }
      }
      assert QuietUntil(g, head, tail, region);
    }
  }

  // ---- The end of the pass ----

  /** The incref of `v` in block `a` can be moved out of the way: whatever walk control
      takes stays clear, some related decref is met, some raising block too in the
      raise mode, and all of them lie behind the block alone. */
  ghost predicate Movable(g: Cfg, a: nat, v: Value, raise: bool) {
    && (forall w :: Passes(g, a, raise, w) ==> StaysClear(g, a, v, w))
    && (exists b, w :: Met(g, a, raise, b, w) && Releases(g, b, v))
    && (raise ==> exists b, w :: Met(g, a, raise, b, w) && Raises(g, b) && ReleasesNothing(g, b))
    && AllInside(g, a, EndBlocks(g, a, v, raise), RaisingBlocks(g, raise))
  }

  ghost function EndBlocks(g: Cfg, a: nat, v: Value, raise: bool): set<nat> {
    set b: nat | b < |g.blocks| && Ends(g, a, v, raise, b)
  }

  ghost function RaisingBlocks(g: Cfg, raise: bool): set<nat> {
    set b: nat | b < |g.blocks| && raise && Raises(g, b)
  }

  /** A block at which a walk from the incref ends. */
  ghost predicate Ends(g: Cfg, a: nat, v: Value, raise: bool, b: nat) {
    && (exists w :: Met(g, a, raise, b, w))
    && (Releases(g, b, v) || (raise && Raises(g, b) && ReleasesNothing(g, b)))
  }

  ghost predicate EndsAs(g: Cfg, a: nat, v: Value, raise: bool, b: nat, raises: bool) {
    (exists w :: Met(g, a, raise, b, w)) && Wanted(g, v, raise, b, raises)
  }

  lemma EndsKinds(g: Cfg, a: nat, v: Value, raise: bool, b: nat)
    ensures Ends(g, a, v, raise, b) <==> EndsAs(g, a, v, raise, b, false) || EndsAs(g, a, v, raise, b, true)
  {
  }

  lemma MetInside(g: Cfg, a: nat, raise: bool, b: nat, w: Path)
    requires WellFormed(g) && Met(g, a, raise, b, w)
    ensures b < |g.blocks| && b != a
  {
  }

  ghost function EndSet(g: Cfg, a: nat, v: Value, raise: bool, raises: bool): set<nat> {
    set b: nat | b < |g.blocks| && EndsAs(g, a, v, raise, b, raises)
  }

  lemma EndSetIs(g: Cfg, a: nat, v: Value, raise: bool, raises: bool)
    requires WellFormed(g) && a < |g.blocks|
    ensures forall b :: b in EndSet(g, a, v, raise, raises) <==> IsNoted(g, a, v, raise, b, raises)
    ensures a !in EndSet(g, a, v, raise, raises)
  {
    forall b: nat ensures b in EndSet(g, a, v, raise, raises) <==> IsNoted(g, a, v, raise, b, raises) {
      NotedExact(g, a, v, raise, b, raises);
      if w :| Met(g, a, raise, b, w) {
        MetInside(g, a, raise, b, w);
      }
    }
    forall w ensures !Met(g, a, raise, a, w) {
    }
  }

  lemma SomeEnds(g: Cfg, a: nat, v: Value, raise: bool)
    requires WellFormed(g)
    ensures EndSet(g, a, v, raise, false) != {} <==> exists b, w :: Met(g, a, raise, b, w) && Releases(g, b, v)
    ensures raise ==> (EndSet(g, a, v, raise, true) != {} <==>
                         exists b, w :: Met(g, a, raise, b, w) && Raises(g, b) && ReleasesNothing(g, b))
  {
    forall b, w, raises | Met(g, a, raise, b, w) && Wanted(g, v, raise, b, raises)
      ensures b in EndSet(g, a, v, raise, raises)
    {
      MetInside(g, a, raise, b, w);
      assert EndsAs(g, a, v, raise, b, raises);
    }
    forall b: nat, w | Met(g, a, raise, b, w) && Releases(g, b, v) ensures b in EndSet(g, a, v, raise, false) {
      assert Wanted(g, v, raise, b, false);
    }
    forall b: nat, w | raise && Met(g, a, raise, b, w) && Raises(g, b) && ReleasesNothing(g, b)
      ensures b in EndSet(g, a, v, raise, true)
    {
      assert Wanted(g, v, raise, b, true);
    }
    hide Met;
    if EndSet(g, a, v, raise, false) != {} {
      var b :| b in EndSet(g, a, v, raise, false);
      assert EndsAs(g, a, v, raise, b, false);
    }
    if raise && EndSet(g, a, v, raise, true) != {} {
      var b :| b in EndSet(g, a, v, raise, true);
      assert EndsAs(g, a, v, raise, b, true);
    }
  }

  lemma SameSets(g: Cfg, a: nat, v: Value, raise: bool)
    ensures EndBlocks(g, a, v, raise) == EndSet(g, a, v, raise, true) + EndSet(g, a, v, raise, false)
    ensures RaisingBlocks(g, raise) == Skipped(g, raise)
  {
    hide Met;
    forall b: nat ensures Ends(g, a, v, raise, b) <==> EndsAs(g, a, v, raise, b, false) || EndsAs(g, a, v, raise, b, true) {
      EndsKinds(g, a, v, raise, b);
    }
    hide Ends, EndsAs;
  }

  lemma FansToEnds(g: Cfg, a: nat, v: Value, raise: bool)
    requires forall b :: b in EndSet(g, a, v, raise, false) <==> IsNoted(g, a, v, raise, b, false)
    requires forall b :: b in EndSet(g, a, v, raise, true) <==> IsNoted(g, a, v, raise, b, true)
    ensures CanFan(g, a, v, raise) <==>
      && Admitted(g, a, v, raise) && EndSet(g, a, v, raise, false) != {} && (raise ==> EndSet(g, a, v, raise, true) != {})
      && exists behind :: OnlyFromHead(g, a, EndSet(g, a, v, raise, true) + EndSet(g, a, v, raise, false), Skipped(g, raise), behind)
  {
    var tails, raising := EndSet(g, a, v, raise, false), EndSet(g, a, v, raise, true);
    hide IsNoted, Admitted, OnlyFromHead, EndSet, Skipped;
    if CanFan(g, a, v, raise) {
      var t, r :| FansTo(g, a, v, raise, t, r);
      assert t == tails && r == raising;
    }
    if Admitted(g, a, v, raise) && tails != {} && (raise ==> raising != {})
       && exists behind :: OnlyFromHead(g, a, raising + tails, Skipped(g, raise), behind) {
      assert FansTo(g, a, v, raise, tails, raising);
    }
  }

  /** What the fan-out prune takes, with its two searches and their limits of depth. */
  lemma MovableExact(g: Cfg, a: nat, v: Value, raise: bool)
    requires WellFormed(g) && a < |g.blocks|
    ensures CanFan(g, a, v, raise) <==> Movable(g, a, v, raise)
  {
    EndSetIs(g, a, v, raise, false);
    EndSetIs(g, a, v, raise, true);
    EndSetInside(g, a, v, raise);
    hide IsNoted, Admitted, Passes, StaysClear, Met, OnlyFromHead, AllInside, EndSet, Skipped, CanFan, WellFormed, EndBlocks, RaisingBlocks, Releases, Raises, ReleasesNothing;
    FansToEnds(g, a, v, raise);
    AdmittedExact(g, a, v, raise);
    BackwardExact(g, a, EndSet(g, a, v, raise, true) + EndSet(g, a, v, raise, false), Skipped(g, raise));
    SomeEnds(g, a, v, raise);
    SameSets(g, a, v, raise);
  }

  lemma EndSetInside(g: Cfg, a: nat, v: Value, raise: bool)
    ensures forall raises, b :: b in EndSet(g, a, v, raise, raises) ==> b < |g.blocks|
  {
  }

  /** Increfs of the block are released in the same blocks. */
  ghost predicate ReleasedAlike(g: Cfg, a: nat)
    requires a < |g.blocks|
  {
    forall i, j, b :: 0 <= i < |g.blocks[a]| && 0 <= j < |g.blocks[a]| && g.blocks[a][i].op.Inc? && g.blocks[a][j].op.Inc?
      ==> Releases(g, b, g.blocks[a][i].op.arg) ==> Releases(g, b, g.blocks[a][j].op.arg)
  }

  /** When the pass ends, a block without decrefs, whose increfs are released alike,
      holds no incref that could be moved out of the way. */
  lemma NothingMovable(p: Pruner, g: Cfg, a: nat, i: nat, raise: bool)
    requires WellFormed(g) && p.Finished(g) && (if raise then p.flags.fanoutRaise else p.flags.fanout)
    requires p.subgraphLimit >= 32766 && forall b :: 0 <= b < |g.succs| ==> |g.succs[b]| <= 2
    requires a < |g.blocks| && i < |g.blocks[a]| && g.blocks[a][i].op.Inc?
    requires ReleasesNothing(g, a) && ReleasedAlike(g, a)
    ensures !Movable(g, a, g.blocks[a][i].op.arg, raise)
  {
    var v := g.blocks[a][i].op.arg;
    forall b: nat | b < |g.blocks| ensures InLimit(g, b, raise, p.subgraphLimit) {
      BinaryInLimit(g, b, raise, p.subgraphLimit);
    }
    MovableExact(g, a, v, raise);
    hide Movable, WellFormed, CanFan, InLimit, Admitted;
    assert p.FannedOut(g, raise);
    p.GivenUpLosesNothing(g, raise);
    Alike(p, g, a);
    var x := RefOp(a, g.blocks[a][i]);
    assert Listed(g, x, true);
  }

  lemma Alike(p: Pruner, g: Cfg, a: nat)
    requires a < |g.blocks| && ReleasedAlike(g, a)
    ensures p.SharesReleases(g, a)
  {
    forall x, y | Listed(g, x, true) && Listed(g, y, true) && x.block == y.block == a
      ensures ReleasedWith(g, x.ins.op.arg, y.ins.op.arg)
    {
      var i :| 0 <= i < |g.blocks[a]| && g.blocks[a][i] == x.ins;
      var j :| 0 <= j < |g.blocks[a]| && g.blocks[a][j] == y.ins;
      forall b | 0 <= b < |g.blocks| && HasRelatedDecref(g.blocks[b], x.ins.op.arg)
        ensures HasRelatedDecref(g.blocks[b], y.ins.op.arg)
      {
        assert Releases(g, b, x.ins.op.arg);
        assert Releases(g, b, y.ins.op.arg);
      }
    }
  }

  /** Nor is there an incref with a related decref in another block, each block
      always on the way of the other as far as the analyses know, no decref on a
      walk between them, and no way to the decref that keeps off the incref and
      starts at the entry or behind the decref. */
  lemma NothingBetween(p: Pruner, g: Cfg, a: nat, i: nat, b: nat, j: nat)
    requires WellFormed(g) && p.Finished(g) && p.flags.diamond && AnalysesSound(g, p.dom, p.pdom)
    requires a < |g.blocks| && i < |g.blocks[a]| && b < |g.blocks| && j < |g.blocks[b]| && a != b
    requires g.blocks[a][i].op.Inc? && g.blocks[b][j].op == Dec(g.blocks[a][i].op.arg)
    requires (a, b) in p.dom && (b, a) in p.pdom
    ensures !(QuietShortOf(g, a, b) && AllInside(g, a, {b}, {}))
  {
    QuietExact(g, a, b);
    BackwardExact(g, a, {b}, {});
    hide WellFormed, QuietUntil, OnlyFromHead, QuietShortOf, AllInside, PostDominates;
    var x, y := RefOp(a, g.blocks[a][i]), RefOp(b, g.blocks[b][j]);
    assert Listed(g, x, true) && Listed(g, y, false);
    assert p.Undiamonded(g) && p.DiamondSpent(g, x, y);
    forall region, behind ensures !(QuietUntil(g, a, b, region) && OnlyFromHead(g, a, {b}, {}, behind)) {
      assert !Accepted(g, a, b, region, behind);
    }
  }

  /** Nor a refop on null, nor an incref and a related decref in one block. */
  lemma NothingInBlock(p: Pruner, g: Cfg, b: nat, i: nat, j: nat)
    requires p.Finished(g) && p.flags.perBasicBlock && b < |g.blocks| && i < |g.blocks[b]| && j < |g.blocks[b]|
    ensures g.blocks[b][i].op != Inc(Null) && g.blocks[b][i].op != Dec(Null)
    ensures g.blocks[b][i].op.Inc? ==> g.blocks[b][j].op != Dec(g.blocks[b][i].op.arg)
  {
    assert Clean(g.blocks[b]);
    assert g.blocks[b][i] in g.blocks[b] && g.blocks[b][j] in g.blocks[b];
  }
}
