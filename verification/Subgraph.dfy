/** What the pruner's graph searches establish, and what follows from it on
    every path of the function. */
module Subgraph {
  import opened RefCounts
  import opened ControlFlow
  import opened Pairing

  /** Result of the forward search. `region` holds the blocks between the head
      and its tails. Control that leaves the head stays in the region until it
      enters a tail (or a block in `avoid`); it does not come back to the head,
      it does not exit, and it runs no decref. */
  ghost predicate Encloses(g: Cfg, head: nat, tails: set<nat>, avoid: set<nat>, region: set<nat>) {
    && head !in tails
    && region !! tails
    && (forall n :: n in region ==> n < |g.blocks| && NoDec(g.blocks[n]))
    && (forall n :: n in region + {head} && n < |g.succs| ==>
          && g.succs[n] != []
          && forall s :: s in g.succs[n] ==> s != head && (s in region || s in tails || s in avoid))
  }

  /** Result of the backward walk. `behind` holds the blocks from which a tail
      is reached without passing the head. It does not contain the entry, and no
      tail leads into it. */
  ghost predicate OnlyFromHead(g: Cfg, head: nat, tails: set<nat>, avoid: set<nat>, behind: set<nat>) {
    && 0 !in behind
    && tails <= behind + avoid
    && (forall n, m :: n in behind && Edge(g, m, n)
          ==> m !in tails && (m == head || m in behind || m in avoid))
  }

  /** Result of the between-graph search: leaving the head, control runs no
      decref before it enters the tail. */
  ghost predicate QuietUntil(g: Cfg, head: nat, tail: nat, region: set<nat>) {
    && head in region
    && (forall n :: n in region ==> n < |g.blocks| && NoDec(g.blocks[n]))
    && (forall n, s :: n in region && Edge(g, n, s) ==> s == tail || s in region)
  }

  /** Control never returns to the head without having passed the tail. */
  ghost predicate NeverRepeats(p: Path, head: nat, tails: set<nat>) {
    forall k :: 0 <= k < |p| && p[k] == head ==> !Open(p, k, head, tails)
  }

  /** While no head is pending, control is outside `behind`. So no path reaches
      a tail without passing the head first, and none reaches it twice. */
  lemma {:induction false} ClosedOutside(g: Cfg, head: nat, tails: set<nat>, avoid: set<nat>,
                                         behind: set<nat>, p: Path, k: nat)
    requires IsPath(g, p) && Avoids(p, avoid) && 0 < k <= |p|
    requires OnlyFromHead(g, head, tails, avoid, behind) && head !in tails
    requires !Open(p, k, head, tails)
    ensures p[k - 1] in tails || p[k - 1] !in behind
    ensures p[k - 1] in tails ==> Open(p, k - 1, head, tails)
  {
    var b := p[k - 1];
    if !Open(p, k - 1, head, tails) && k > 1 {
      ClosedOutside(g, head, tails, avoid, behind, p, k - 1);
      assert Edge(g, p[k - 2], b);
      assert p[k - 2] != head;
      assert b !in behind;
    }
    assert b !in avoid;
  }

  lemma TailsNeedHead(g: Cfg, head: nat, tails: set<nat>, avoid: set<nat>, behind: set<nat>, p: Path, k: nat)
    requires IsPath(g, p) && Avoids(p, avoid) && k < |p|
    requires OnlyFromHead(g, head, tails, avoid, behind) && head !in tails
    requires p[k] in tails
    ensures Open(p, k, head, tails)
  {
    ClosedOutside(g, head, tails, avoid, behind, p, k + 1);
  }

  /** While a head is pending, control is at the head or in the region. */
  lemma {:induction false} OpenInside(g: Cfg, head: nat, tails: set<nat>, avoid: set<nat>,
                                      region: set<nat>, p: Path, k: nat)
    requires WellFormed(g) && IsPath(g, p) && Avoids(p, avoid) && k <= |p|
    requires Encloses(g, head, tails, avoid, region)
    requires Open(p, k, head, tails)
    ensures p[k - 1] == head || p[k - 1] in region
    ensures p[k - 1] == head ==> k == 1 || !Open(p, k - 1, head, tails)
  {
    if k > 1 && Open(p, k - 1, head, tails) {
      OpenInside(g, head, tails, avoid, region, p, k - 1);
      assert Edge(g, p[k - 2], p[k - 1]);
      assert p[k - 2] in region + {head};
      assert p[k - 1] !in avoid;
    }
  }

  /** The head and the tails accepted by the fan-out search alternate strictly
      on every path of the function, starting with the head; nothing is released
      between a head and the next tail, and no path ends in between. */
  lemma FanoutAlternates(g: Cfg, head: nat, tails: set<nat>, avoid: set<nat>,
                         region: set<nat>, behind: set<nat>, p: Path)
    requires WellFormed(g) && IsPath(g, p) && Avoids(p, avoid)
    requires head < |g.blocks| && NoDec(g.blocks[head])
    requires Encloses(g, head, tails, avoid, region)
    requires OnlyFromHead(g, head, tails, avoid, behind)
    ensures Alternates(g, p, head, tails)
    ensures Complete(g, p) ==> !Open(p, |p|, head, tails)
  {
    forall k | 0 <= k < |p| && p[k] in tails ensures Open(p, k, head, tails) {
      TailsNeedHead(g, head, tails, avoid, behind, p, k);
    }
    forall k | 0 <= k < |p| && p[k] == head ensures !Open(p, k, head, tails) {
      if Open(p, k, head, tails) {
        OpenInside(g, head, tails, avoid, region, p, k + 1);
      }
    }
    forall k | 0 <= k < |p| && p[k] < |g.blocks| && p[k] !in tails && Open(p, k + 1, head, tails)
      ensures NoDec(g.blocks[p[k]])
    {
      OpenInside(g, head, tails, avoid, region, p, k + 1);
    }
    if Complete(g, p) && Open(p, |p|, head, tails) {
      OpenInside(g, head, tails, avoid, region, p, |p|);
      assert false;
    }
  }

  lemma {:induction false} OpenQuiet(g: Cfg, head: nat, tail: nat, region: set<nat>, p: Path, k: nat)
    requires WellFormed(g) && IsPath(g, p) && k <= |p| && head != tail
    requires QuietUntil(g, head, tail, region)
    requires Open(p, k, head, {tail})
    ensures p[k - 1] in region && p[k - 1] < |g.blocks| && NoDec(g.blocks[p[k - 1]])
  {
    if p[k - 1] != head {
      OpenQuiet(g, head, tail, region, p, k - 1);
      assert Edge(g, p[k - 2], p[k - 1]);
    }
  }

  /** The same for the diamond search, on every path on which the head does not
      repeat without the tail. The search never checks that half. */
  lemma DiamondAlternates(g: Cfg, head: nat, tail: nat, region: set<nat>, behind: set<nat>, p: Path)
    requires WellFormed(g) && IsPath(g, p) && head != tail
    requires QuietUntil(g, head, tail, region)
    requires OnlyFromHead(g, head, {tail}, {}, behind)
    requires NeverRepeats(p, head, {tail})
    ensures Alternates(g, p, head, {tail})
  {
    forall k | 0 <= k < |p| && p[k] in {tail} ensures Open(p, k, head, {tail}) {
      TailsNeedHead(g, head, {tail}, {}, behind, p, k);
    }
    forall k | 0 <= k < |p| && p[k] < |g.blocks| && p[k] !in {tail} && Open(p, k + 1, head, {tail})
      ensures NoDec(g.blocks[p[k]])
    {
      OpenQuiet(g, head, tail, region, p, k + 1);
    }
  }

  // ---- The object a value denotes does not change between head and tail ----

  /** The walk back from a tail to the last head stays in `behind`. */
  lemma {:induction false} BetweenIsBehind(g: Cfg, head: nat, tails: set<nat>, avoid: set<nat>,
                                           behind: set<nat>, p: Path, q: nat, j: nat, k: nat)
    requires IsPath(g, p) && Avoids(p, avoid) && q < j <= k < |p|
    requires OnlyFromHead(g, head, tails, avoid, behind)
    requires p[k] in tails && forall x :: q < x < k ==> p[x] != head
    ensures p[j] in behind
    decreases k - j
  {
    assert p[k] !in avoid;
    if j < k {
      BetweenIsBehind(g, head, tails, avoid, behind, p, q, j + 1, k);
      assert Edge(g, p[j], p[j + 1]) && p[j] !in avoid;
    }
  }

  /** The block that defines the pruned value is the head or lies outside
      `behind`: its definition has already run when the head is first reached. */
  lemma DefinedOutside(g: Cfg, head: nat, tails: set<nat>, avoid: set<nat>, behind: set<nat>,
                       p: Path, q: nat, d: nat, v: Value)
    requires IsPath(g, p) && Avoids(p, avoid) && q < |p| && p[q] == head
    requires OnlyFromHead(g, head, tails, avoid, behind) && head !in tails
    requires DefsDominate(g) && d < |g.defs| && v in g.defs[d] && UsesIn(g.blocks[head], v)
    ensures d == head || d !in behind
  {
    var f := FirstVisit(p, head, q);
    var prefix := p[..f + 1];
    assert IsPath(g, prefix) && prefix[|prefix| - 1] == head;
    assert d in prefix;
    var x :| 0 <= x <= f && p[x] == d;
    if x < f {
      NotOpenBefore(p, x + 1, head, tails);
      NotOpenBefore(p, x, head, tails);
      ClosedOutside(g, head, tails, avoid, behind, p, x + 1);
    }
  }

  lemma FirstVisit(p: Path, head: nat, q: nat) returns (f: nat)
    requires q < |p| && p[q] == head
    ensures f <= q && p[f] == head && forall x :: 0 <= x < f ==> p[x] != head
  {
    f := 0;
    while p[f] != head
      invariant f <= q && forall x :: 0 <= x < f ==> p[x] != head
      decreases q - f
    {
      f := f + 1;
    }
  }

  lemma {:induction false} NotOpenBefore(p: Path, k: nat, head: nat, tails: set<nat>)
    requires k <= |p| && forall x :: 0 <= x < k ==> p[x] != head
    ensures !Open(p, k, head, tails)
  {
    if k > 0 {
      NotOpenBefore(p, k - 1, head, tails);
    }
  }

  /** At every tail the pruned value denotes the object it denoted at the head,
      also when blocks in between rebind other values. */
  lemma ExecutionSteady(g: Cfg, head: nat, tails: set<nat>, avoid: set<nat>, behind: set<nat>,
                        p: Path, envs: seq<Env>, v: Value)
    requires WellFormed(g) && Execution(g, p, envs) && Avoids(p, avoid)
    requires head !in tails && head < |g.blocks| && UsesIn(g.blocks[head], v)
    requires OnlyFromHead(g, head, tails, avoid, behind)
    ensures Steady(p, envs, head, tails, v)
  {
    forall k | 0 <= k < |p| && p[k] in tails && Open(p, k, head, tails)
      ensures envs[k](v) == envs[LastHead(p, k, head, tails)](v)
    {
      if !Fixed(envs) {
        var q := LastHead(p, k, head, tails);
        var j := q;
        while j < k
          invariant q <= j <= k && envs[j](v) == envs[q](v)
        {
          j := j + 1;
          BetweenIsBehind(g, head, tails, avoid, behind, p, q, j, k);
          if v in g.defs[p[j]] {
            DefinedOutside(g, head, tails, avoid, behind, p, q, p[j], v);
            assert false;
          }
        }
      }
    }
  }

  /** With both certificates, incref and decrefs pair up along every execution that
      avoids the forgiven blocks, complete or not. */
  lemma FanoutPairsUp(g: Cfg, h: Cfg, head: nat, i: nat, tails: map<nat, nat>, avoid: set<nat>,
                      region: set<nat>, behind: set<nat>, p: Path, envs: seq<Env>)
    requires WellFormed(g) && Pruned(g, h, head, i, tails)
    requires NoDec(g.blocks[head])
    requires Encloses(g, head, tails.Keys, avoid, region)
    requires OnlyFromHead(g, head, tails.Keys, avoid, behind)
    requires Execution(g, p, envs) && Avoids(p, avoid)
    ensures PairsUp(g, h, head, i, tails, p, envs)
    ensures Complete(g, p) ==> !Open(p, |p|, head, tails.Keys)
  {
    FanoutAlternates(g, head, tails.Keys, avoid, region, behind, p);
    assert UsesIn(g.blocks[head], g.blocks[head][i].op.arg);
    ExecutionSteady(g, head, tails.Keys, avoid, behind, p, envs, g.blocks[head][i].op.arg);
  }

  /** One fan-out step: on every complete execution that avoids the forgiven
      blocks, each object ends with the same count and never dips lower. */
  lemma FanoutPreserves(g: Cfg, h: Cfg, head: nat, i: nat, tails: map<nat, nat>, avoid: set<nat>,
                        region: set<nat>, behind: set<nat>, p: Path, envs: seq<Env>, o: Obj)
    requires WellFormed(g) && Pruned(g, h, head, i, tails)
    requires NoDec(g.blocks[head])
    requires Encloses(g, head, tails.Keys, avoid, region)
    requires OnlyFromHead(g, head, tails.Keys, avoid, behind)
    requires Complete(g, p) && Execution(g, p, envs) && Avoids(p, avoid)
    ensures PathNet(h, p, envs, |p|, o) == PathNet(g, p, envs, |p|, o)
    ensures Normal(g) ==> PathLow(h, p, envs, |p|, o) == PathLow(g, p, envs, |p|, o)
  {
    FanoutPairsUp(g, h, head, i, tails, avoid, region, behind, p, envs);
    AlternationPreserves(g, h, head, i, tails, p, envs, o);
  }
}
