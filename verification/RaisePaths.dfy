/** What a fan-out prune does on executions that enter a forgiven block. In the raise
    mode those are the raising blocks, where the increfed value is left unreleased. */
module RaisePaths {
  import opened RefCounts
  import opened ControlFlow
  import opened Pairing
  import opened Subgraph
  import opened GraphSearch
  import opened FanoutWalks
  import opened Diamond

  // ---- Any path, by its visits ----

  /** How many of the first `k` blocks of a path are in the set. */
  ghost function Count(p: Path, k: nat, some: set<nat>): nat
    requires k <= |p|
  {
    if k == 0 then 0 else Count(p, k - 1, some) + (if p[k - 1] in some then 1 else 0)
  }

  lemma VisitNet(g: Cfg, h: Cfg, head: nat, i: nat, tails: map<nat, nat>, b: nat, env: Env, o: Obj)
    requires Pruned(g, h, head, i, tails) && b < |g.blocks| && g.blocks[head][i].op.arg != Null
    ensures Net(h.blocks[b], env, o) == Net(g.blocks[b], env, o)
              + if env(g.blocks[head][i].op.arg) != o then 0 else if b in tails then 1 else if b == head then -1 else 0
  {
    if b == head {
      SplitAt(g.blocks[head], i, env, o);
    } else if b in tails {
      assert IsRelatedAt(g.blocks[b], tails[b], g.blocks[head][i].op.arg);
      SplitAt(g.blocks[b], tails[b], env, o);
    }
  }

  /** On every path whatever, when values denote what they denote throughout: the
      object of the erased value loses one count a visit of the head and gains one a
      visit of a decref block, and no other object's count changes. */
  lemma {:induction false} VisitsTell(g: Cfg, h: Cfg, head: nat, i: nat, tails: map<nat, nat>,
                                      p: Path, env: Env, envs: seq<Env>, k: nat, o: Obj)
    requires Pruned(g, h, head, i, tails) && g.blocks[head][i].op.arg != Null
    requires IsPath(g, p) && |envs| == |p| && (forall x :: 0 <= x < |envs| ==> envs[x] == env) && k <= |p|
    ensures PathNet(h, p, envs, k, o) == PathNet(g, p, envs, k, o)
              + if env(g.blocks[head][i].op.arg) == o then Count(p, k, tails.Keys) - Count(p, k, {head}) else 0
  {
    if k > 0 {
      VisitsTell(g, h, head, i, tails, p, env, envs, k - 1, o);
      VisitNet(g, h, head, i, tails, p[k - 1], env, o);
    }
  }

  /** A path keeps its counts exactly if it visits head and decref blocks equally often. */
  lemma VisitsExact(g: Cfg, h: Cfg, head: nat, i: nat, tails: map<nat, nat>, p: Path, env: Env, envs: seq<Env>)
    requires Pruned(g, h, head, i, tails) && g.blocks[head][i].op.arg != Null
    requires IsPath(g, p) && |envs| == |p| && (forall x :: 0 <= x < |envs| ==> envs[x] == env)
    ensures (forall o :: PathNet(h, p, envs, |p|, o) == PathNet(g, p, envs, |p|, o))
      <==> Count(p, |p|, {head}) == Count(p, |p|, tails.Keys)
  {
    var v := g.blocks[head][i].op.arg;
    hide Pruned, Count, PathNet;
    forall o ensures PathNet(h, p, envs, |p|, o) == PathNet(g, p, envs, |p|, o)
      + if env(v) == o then Count(p, |p|, tails.Keys) - Count(p, |p|, {head}) else 0
    {
      VisitsTell(g, h, head, i, tails, p, env, envs, |p|, o);
    }
    if Count(p, |p|, {head}) != Count(p, |p|, tails.Keys) {
      assert PathNet(h, p, envs, |p|, env(v)) != PathNet(g, p, envs, |p|, env(v));
    }
  }

  /** Taking turns is counting alike, up to the one that is pending. */
  lemma {:induction false} TurnsCount(g: Cfg, p: Path, head: nat, tails: set<nat>, k: nat)
    requires Alternates(g, p, head, tails) && head !in tails && k <= |p|
    ensures Count(p, k, {head}) == Count(p, k, tails) + if Open(p, k, head, tails) then 1 else 0
  {
    if k > 0 {
      TurnsCount(g, p, head, tails, k - 1);
    }
  }

  // ---- Forgiven blocks that are exits ----

  ghost predicate AreExits(g: Cfg, some: set<nat>) {
    forall b :: b in some ==> b < |g.succs| && g.succs[b] == []
  }

  /** What an accepted fan-out prune has checked. */
  ghost predicate FannedFrom(g: Cfg, h: Cfg, head: nat, i: nat, tails: map<nat, nat>, avoid: set<nat>,
                             region: set<nat>, behind: set<nat>) {
    && WellFormed(g) && Pruned(g, h, head, i, tails) && NoDec(g.blocks[head])
    && Encloses(g, head, tails.Keys, avoid, region)
    && OnlyFromHead(g, head, tails.Keys, avoid, behind)
  }

  /** An exit can only be the last block of a path. */
  lemma ExitsLast(g: Cfg, p: Path, avoid: set<nat>)
    requires IsPath(g, p) && AreExits(g, avoid)
    ensures Avoids(p[..|p| - 1], avoid)
  {
    forall k | 0 <= k < |p| - 1 ensures p[k] !in avoid {
      assert Edge(g, p[k], p[k + 1]);
    }
  }

  lemma {:induction false} CountPrefix(p: Path, n: nat, k: nat, some: set<nat>)
    requires k <= n <= |p|
    ensures Count(p[..n], k, some) == Count(p, k, some)
  {
    if k > 0 {
      CountPrefix(p, n, k - 1, some);
    }
  }

  lemma {:induction false} OpenPrefix(p: Path, n: nat, k: nat, head: nat, tails: set<nat>)
    requires k <= n <= |p|
    ensures Open(p[..n], k, head, tails) <==> Open(p, k, head, tails)
    ensures Open(p, k, head, tails) ==> LastHead(p[..n], k, head, tails) == LastHead(p, k, head, tails)
  {
    if k > 0 {
      OpenPrefix(p, n, k - 1, head, tails);
    }
  }

  lemma {:induction false} NetPrefix(g: Cfg, p: Path, envs: seq<Env>, n: nat, k: nat, o: Obj)
    requires |envs| == |p| && (forall x :: 0 <= x < |p| ==> p[x] < |g.blocks|) && k <= n <= |p|
    ensures PathNet(g, p[..n], envs[..n], k, o) == PathNet(g, p, envs, k, o)
  {
    if k > 0 {
      NetPrefix(g, p, envs, n, k - 1, o);
    }
  }

  /** The end of a path pairs up: a decref block with an incref pending, or any other
      block with none. */
  ghost predicate EndsPaired(p: Path, head: nat, tails: set<nat>)
    requires |p| > 0
  {
    if p[|p| - 1] in tails then Open(p, |p| - 1, head, tails) else !Open(p, |p|, head, tails)
  }

  /** Before its last block a complete path takes turns, and nothing is done at a
      path of one block. */
  lemma TurnsBeforeEnd(g: Cfg, h: Cfg, head: nat, i: nat, tails: map<nat, nat>, avoid: set<nat>,
                       region: set<nat>, behind: set<nat>, p: Path)
    requires FannedFrom(g, h, head, i, tails, avoid, region, behind) && AreExits(g, avoid) && IsPath(g, p)
    ensures Count(p, |p| - 1, {head}) == Count(p, |p| - 1, tails.Keys) + if Open(p, |p| - 1, head, tails.Keys) then 1 else 0
  {
    var n := |p| - 1;
    if n > 0 {
      var q := p[..n];
      ExitsLast(g, p, avoid);
      assert IsPath(g, q);
      FanoutAlternates(g, head, tails.Keys, avoid, region, behind, q);
      TurnsCount(g, q, head, tails.Keys, n);
      CountPrefix(p, n, n, {head});
      CountPrefix(p, n, n, tails.Keys);
      OpenPrefix(p, n, n, head, tails.Keys);
    }
  }

  /** Where forgiven blocks are exits: on a complete path the counts are kept, whatever
      the values denote throughout it, if and only if its end pairs up. */
  lemma ExitPathExact(g: Cfg, h: Cfg, head: nat, i: nat, tails: map<nat, nat>, avoid: set<nat>,
                      region: set<nat>, behind: set<nat>, p: Path, env: Env, envs: seq<Env>)
    requires FannedFrom(g, h, head, i, tails, avoid, region, behind) && AreExits(g, avoid)
    requires Complete(g, p) && |envs| == |p| && (forall x :: 0 <= x < |envs| ==> envs[x] == env)
    requires g.blocks[head][i].op.arg != Null
    ensures (forall o :: PathNet(h, p, envs, |p|, o) == PathNet(g, p, envs, |p|, o)) <==> EndsPaired(p, head, tails.Keys)
  {
    TurnsBeforeEnd(g, h, head, i, tails, avoid, region, behind, p);
    HeadGoesOn(g, h, head, i, tails, avoid, region, behind, p);
    VisitsExact(g, h, head, i, tails, p, env, envs);
  }

  /** The head is neither an exit nor a tail. */
  lemma HeadGoesOn(g: Cfg, h: Cfg, head: nat, i: nat, tails: map<nat, nat>, avoid: set<nat>,
                   region: set<nat>, behind: set<nat>, p: Path)
    requires FannedFrom(g, h, head, i, tails, avoid, region, behind) && Complete(g, p)
    ensures p[|p| - 1] != head && head !in tails && WellFormed(g) && Pruned(g, h, head, i, tails) && IsPath(g, p)
  {
    assert head in region + {head};
  }

  /** On every complete execution, aliases and redefinitions included, the pruned
      function owes exactly what is pending at the end, if no forgiven block is a
      decref block. */
  lemma ExitOwes(g: Cfg, h: Cfg, head: nat, i: nat, tails: map<nat, nat>, avoid: set<nat>,
                 region: set<nat>, behind: set<nat>, p: Path, envs: seq<Env>, o: Obj)
    requires FannedFrom(g, h, head, i, tails, avoid, region, behind) && AreExits(g, avoid) && avoid !! tails.Keys
    requires Complete(g, p) && Execution(g, p, envs)
    ensures |h.blocks| == |g.blocks| && head < |g.blocks| && i < |g.blocks[head]|
    ensures PathNet(g, p, envs, |p|, o) == PathNet(h, p, envs, |p|, o) + Owed(g, p, envs, |p|, o, head, i, tails.Keys)
  {
    HeadGoesOn(g, h, head, i, tails, avoid, region, behind, p);
    ExitsLast(g, p, avoid);
    var n := |p| - 1;
    if p[n] !in avoid {
      assert Avoids(p, avoid);
      FanoutPairsUp(g, h, head, i, tails, avoid, region, behind, p, envs);
      CountsTrack(g, h, head, i, tails, p, envs, |p|, o);
    } else {
      OwesBefore(g, h, head, i, tails, avoid, region, behind, p, envs, o);
      hide Net, Delta, FannedFrom, Complete, Execution;
      assert h.blocks[p[n]] == g.blocks[p[n]];
    }
  }

  lemma OwesBefore(g: Cfg, h: Cfg, head: nat, i: nat, tails: map<nat, nat>, avoid: set<nat>,
                   region: set<nat>, behind: set<nat>, p: Path, envs: seq<Env>, o: Obj)
    requires FannedFrom(g, h, head, i, tails, avoid, region, behind) && AreExits(g, avoid)
    requires IsPath(g, p) && Execution(g, p, envs)
    ensures |h.blocks| == |g.blocks| && head < |g.blocks| && i < |g.blocks[head]|
    ensures PathNet(g, p, envs, |p| - 1, o)
            == PathNet(h, p, envs, |p| - 1, o) + Owed(g, p, envs, |p| - 1, o, head, i, tails.Keys)
  {
    var n := |p| - 1;
    if n > 0 {
      var q, es := p[..n], envs[..n];
      ExitsLast(g, p, avoid);
      assert IsPath(g, q) && Execution(g, q, es);
      FanoutPairsUp(g, h, head, i, tails, avoid, region, behind, q, es);
      CountsTrack(g, h, head, i, tails, q, es, n, o);
      NetPrefix(g, p, envs, n, n, o);
      NetPrefix(h, p, envs, n, n, o);
      OpenPrefix(p, n, n, head, tails.Keys);
    }
  }

  // ---- Every raise fan-out miscounts somewhere ----

  /** From the head the search has found a raising block, and raising blocks are exits:
      then some complete path leaves the incref pending there, and the count of the
      value changes on it. */
  lemma RaiseFanoutMiscounts(g: Cfg, h: Cfg, head: nat, i: nat, tails: map<nat, nat>,
                             region: set<nat>, behind: set<nat>, q: Path, r: nat) returns (p: Path)
    requires FannedFrom(g, h, head, i, tails, Raising(g), region, behind) && AreExits(g, Raising(g))
    requires g.blocks[head][i].op.arg != Null && IsNoted(g, head, g.blocks[head][i].op.arg, true, r, true)
    requires IsPath(g, q) && q[|q| - 1] == head
    ensures Complete(g, p) && q <= p && !EndsPaired(p, head, tails.Keys)
    ensures !KeepsValueCounts(g, h)
  {
    var w := WalkToRaise(g, h, head, i, tails, region, behind, r);
    p := q + w;
    PendingPath(g, h, head, i, tails, region, behind, q, w, r);
    Miscounts(g, h, head, i, tails, region, behind, p);
  }

  lemma Miscounts(g: Cfg, h: Cfg, head: nat, i: nat, tails: map<nat, nat>, region: set<nat>, behind: set<nat>, p: Path)
    requires FannedFrom(g, h, head, i, tails, Raising(g), region, behind) && AreExits(g, Raising(g))
    requires g.blocks[head][i].op.arg != Null && Complete(g, p) && !EndsPaired(p, head, tails.Keys)
    ensures !KeepsValueCounts(g, h)
  {
    if KeepsValueCounts(g, h) {
      ExitPathExact(g, h, head, i, tails, Raising(g), region, behind, p, PerValue, PerValueEnvs(p));
      assert false;
    }
  }

  lemma WalkToRaise(g: Cfg, h: Cfg, head: nat, i: nat, tails: map<nat, nat>,
                    region: set<nat>, behind: set<nat>, r: nat) returns (w: Path)
    requires FannedFrom(g, h, head, i, tails, Raising(g), region, behind)
    requires IsNoted(g, head, g.blocks[head][i].op.arg, true, r, true)
    ensures Visits(g, true, [head], w) && Edge(g, head, w[0]) && r in Raising(g)
    ensures NotedBy(g, g.blocks[head][i].op.arg, true, [head], w, r, true)
  {
    var v := g.blocks[head][i].op.arg;
    hide Visits, FannedFrom;
    var s :| s in g.succs[head] && NotedFrom(g, v, true, [head], s, r, true);
    w :| Visits(g, true, [head], w) && w[0] == s && NotedBy(g, v, true, [head], w, r, true);
  }

  lemma PendingPath(g: Cfg, h: Cfg, head: nat, i: nat, tails: map<nat, nat>,
                    region: set<nat>, behind: set<nat>, q: Path, w: Path, r: nat)
    requires FannedFrom(g, h, head, i, tails, Raising(g), region, behind) && AreExits(g, Raising(g))
    requires IsPath(g, q) && q[|q| - 1] == head && r in Raising(g)
    requires Visits(g, true, [head], w) && Edge(g, head, w[0])
    requires NotedBy(g, g.blocks[head][i].op.arg, true, [head], w, r, true)
    ensures Complete(g, q + w) && q <= q + w && !EndsPaired(q + w, head, tails.Keys)
  {
    JoinedPath(g, q, w, head);
    StaysPending(g, h, head, i, tails, q, w, r);
    hide FannedFrom, Visits, Open, Raising;
    assert (q + w)[|q + w| - 1] == w[|w| - 1];
  }

  lemma JoinedPath(g: Cfg, q: Path, w: Path, head: nat)
    requires IsPath(g, q) && q[|q| - 1] == head && Visits(g, true, [head], w) && Edge(g, head, w[0])
    ensures IsPath(g, q + w)
  {
    var p := q + w;
    forall k | 0 <= k < |p| ensures p[k] < |g.blocks| {
      assert k >= |q| ==> p[k] == w[k - |q|];
    }
    forall k | 0 < k < |p| ensures Edge(g, p[k - 1], p[k]) {
      if k > |q| {
        assert p[k] == w[k - |q|] && p[k - 1] == w[k - |q| - 1];
      }
    }
  }

  lemma StaysPending(g: Cfg, h: Cfg, head: nat, i: nat, tails: map<nat, nat>, q: Path, w: Path, r: nat)
    requires Pruned(g, h, head, i, tails) && |q| > 0 && q[|q| - 1] == head
    requires Visits(g, true, [head], w) && NotedBy(g, g.blocks[head][i].op.arg, true, [head], w, r, true)
    ensures Open(q + w, |q + w|, head, tails.Keys) && r !in tails
  {
    var p := q + w;
    forall j | |q| - 1 < j < |p| ensures p[j] !in tails {
      assert p[j] == w[j - |q|];
      if p[j] in tails {
        assert IsRelatedAt(g.blocks[p[j]], tails[p[j]], g.blocks[head][i].op.arg);
        assert g.blocks[p[j]][tails[p[j]]].op.Dec?;
        assert HasAnyDecref(g.blocks[p[j]]);
      }
    }
    OpenAfter(p, |q| - 1, |p|, head, tails.Keys);
    assert p[|p| - 1] == r;
  }
}
