/** When is it right to erase one incref and a decref of the same value from
    each of several other blocks? It is enough that along the path the incref's
    block and the decref blocks take turns, and nothing is released in between. */
module Pairing {
  import opened RefCounts
  import opened ControlFlow
  import opened Numbers

  /** `h` is `g` without the incref at position `i` of block `head` and without
      the decref at position `tails[t]` of each block `t` in `tails`. */
  ghost predicate Pruned(g: Cfg, h: Cfg, head: nat, i: nat, tails: map<nat, nat>) {
    && head < |g.blocks| == |h.blocks| && h.succs == g.succs && h.defs == g.defs
    && head !in tails
    && i < |g.blocks[head]| && g.blocks[head][i].op.Inc?
    && (forall t :: t in tails ==> t < |g.blocks| && IsRelatedAt(g.blocks[t], tails[t], g.blocks[head][i].op.arg))
    && h.blocks[head] == RemoveAt(g.blocks[head], i)
    && (forall t :: t in tails ==> h.blocks[t] == RemoveAt(g.blocks[t], tails[t]))
    && (forall b :: 0 <= b < |g.blocks| && b != head && b !in tails ==> h.blocks[b] == g.blocks[b])
  }

  predicate IsRelatedAt(s: Body, i: nat, v: Value) {
    i < |s| && s[i].op == Dec(v)
  }

  lemma PrunedShape(g: Cfg, h: Cfg, head: nat, i: nat, tails: map<nat, nat>)
    requires Pruned(g, h, head, i, tails)
    ensures SameShape(g, h)
  {
    forall b | 0 <= b < |g.blocks| ensures Erased(g.blocks[b], h.blocks[b]) {
      if b == head {
        RemoveErased(g.blocks[b], i);
      } else if b in tails {
        RemoveErased(g.blocks[b], tails[b]);
      }
    }
  }

  /** Of the first `k` blocks of the path, was the head visited more recently
      than any tail? */
  predicate Open(p: Path, k: nat, head: nat, tails: set<nat>)
    requires k <= |p|
  {
    k > 0 && (p[k - 1] == head || (p[k - 1] !in tails && Open(p, k - 1, head, tails)))
  }

  /** The index of that most recent visit of the head. */
  function LastHead(p: Path, k: nat, head: nat, tails: set<nat>): (q: nat)
    requires k <= |p| && Open(p, k, head, tails)
    ensures q < k && p[q] == head
    ensures forall j :: q < j < k ==> p[j] != head && p[j] !in tails
  {
    if p[k - 1] == head then k - 1 else LastHead(p, k - 1, head, tails)
  }

  lemma {:induction false} OpenAfter(p: Path, q: nat, k: nat, head: nat, tails: set<nat>)
    requires q < k <= |p| && p[q] == head
    requires forall j :: q < j < k ==> p[j] !in tails
    ensures Open(p, k, head, tails)
  {
    if k > q + 1 {
      OpenAfter(p, q, k - 1, head, tails);
    }
  }

  /** The head and the tails alternate along `p`, starting with the head, and
      no decref runs from a visit of the head up to the entry of the next tail. */
  ghost predicate Alternates(g: Cfg, p: Path, head: nat, tails: set<nat>) {
    && (forall k :: 0 <= k < |p| && p[k] in tails ==> Open(p, k, head, tails))
    && (forall k :: 0 <= k < |p| && p[k] == head ==> !Open(p, k, head, tails))
    && (forall k ::
          0 <= k < |p| && p[k] < |g.blocks| && p[k] !in tails && Open(p, k + 1, head, tails)
          ==> NoDec(g.blocks[p[k]]))
  }

  /** The value still denotes at each tail the object it denoted at the head. */
  ghost predicate Steady(p: Path, envs: seq<Env>, head: nat, tails: set<nat>, v: Value) {
    forall k :: 0 <= k < |p| && k < |envs| && p[k] in tails && Open(p, k, head, tails)
                ==> envs[k](v) == envs[LastHead(p, k, head, tails)](v)
  }

  /** What the erased incref contributed to `o` and is still owed at index `k`. */
  ghost function Owed(g: Cfg, p: Path, envs: seq<Env>, k: nat, o: Obj,
                      head: nat, i: nat, tails: set<nat>): int
    requires k <= |p| == |envs| && head < |g.blocks| && i < |g.blocks[head]|
  {
    if Open(p, k, head, tails)
    then Delta(g.blocks[head][i], envs[LastHead(p, k, head, tails)], o)
    else 0
  }

  /** The hypotheses under which one pruning step is right along a path. */
  ghost predicate PairsUp(g: Cfg, h: Cfg, head: nat, i: nat, tails: map<nat, nat>, p: Path, envs: seq<Env>) {
    && WellFormed(g) && Pruned(g, h, head, i, tails)
    && IsPath(g, p) && |envs| == |p|
    && Alternates(g, p, head, tails.Keys)
    && Steady(p, envs, head, tails.Keys, g.blocks[head][i].op.arg)
  }

  /** After `k` blocks the pruned function's counts are lower by exactly what
      is owed, and no object has reached a new low. */
  ghost predicate Tracks(g: Cfg, h: Cfg, head: nat, i: nat, tails: map<nat, nat>,
                         p: Path, envs: seq<Env>, k: nat, o: Obj)
    requires PairsUp(g, h, head, i, tails, p, envs) && k <= |p|
  {
    && PathNet(g, p, envs, k, o)
       == PathNet(h, p, envs, k, o) + Owed(g, p, envs, k, o, head, i, tails.Keys)
    && (Normal(g) ==> PathLow(g, p, envs, k, o) == PathLow(h, p, envs, k, o))
  }

  lemma {:induction false} CountsTrack(g: Cfg, h: Cfg, head: nat, i: nat, tails: map<nat, nat>,
                                       p: Path, envs: seq<Env>, k: nat, o: Obj)
    requires PairsUp(g, h, head, i, tails, p, envs) && k <= |p|
    ensures Tracks(g, h, head, i, tails, p, envs, k, o)
  {
    if k > 0 {
      CountsTrack(g, h, head, i, tails, p, envs, k - 1, o);
      if p[k - 1] == head {
        TrackHead(g, h, head, i, tails, p, envs, k - 1, o);
      } else if p[k - 1] in tails {
        TrackTail(g, h, head, i, tails, p, envs, k - 1, o);
      } else {
        TrackBetween(g, h, head, i, tails, p, envs, k - 1, o);
      }
    }
  }

  lemma AtHead(g: Cfg, h: Cfg, head: nat, i: nat, tails: map<nat, nat>,
               p: Path, envs: seq<Env>, k: nat, o: Obj)
    requires PairsUp(g, h, head, i, tails, p, envs) && k < |p| && p[k] == head
    ensures |h.blocks| == |g.blocks|
    ensures i < |g.blocks[head]| && g.blocks[head][i].op.Inc? && NoDec(g.blocks[head])
    ensures h.blocks[head] == RemoveAt(g.blocks[head], i)
    ensures Owed(g, p, envs, k, o, head, i, tails.Keys) == 0
    ensures Owed(g, p, envs, k + 1, o, head, i, tails.Keys) == Delta(g.blocks[head][i], envs[k], o)
  {
    hide Delta;
    assert Open(p, k + 1, head, tails.Keys);
  }

  lemma TrackHead(g: Cfg, h: Cfg, head: nat, i: nat, tails: map<nat, nat>,
                  p: Path, envs: seq<Env>, k: nat, o: Obj)
    requires PairsUp(g, h, head, i, tails, p, envs) && k < |p| && p[k] == head
    requires Tracks(g, h, head, i, tails, p, envs, k, o)
    ensures Tracks(g, h, head, i, tails, p, envs, k + 1, o)
  {
    hide Alternates, Steady, Open, LastHead, Owed, Net, Low, Delta, Pruned, NoDec, WellFormed, IncsFirst, RemoveAt;
    AtHead(g, h, head, i, tails, p, envs, k, o);
    PathLowBounds(h, p, envs, k, o);
    HeadBlock(g.blocks[head], i, envs[k], o, PathLow(h, p, envs, k, o), PathNet(h, p, envs, k, o));
  }

  lemma AtTail(g: Cfg, h: Cfg, head: nat, i: nat, tails: map<nat, nat>,
               p: Path, envs: seq<Env>, k: nat, o: Obj)
    requires PairsUp(g, h, head, i, tails, p, envs) && k < |p| && p[k] in tails
    ensures |h.blocks| == |g.blocks|
    ensures tails[p[k]] < |g.blocks[p[k]]| && g.blocks[p[k]][tails[p[k]]].op.Dec?
    ensures h.blocks[p[k]] == RemoveAt(g.blocks[p[k]], tails[p[k]])
    ensures Owed(g, p, envs, k, o, head, i, tails.Keys) == -Delta(g.blocks[p[k]][tails[p[k]]], envs[k], o)
    ensures Owed(g, p, envs, k + 1, o, head, i, tails.Keys) == 0
  {
    hide Net, Low;
    assert p[k] in tails.Keys;
    assert Open(p, k, head, tails.Keys) && !Open(p, k + 1, head, tails.Keys);
    assert IsRelatedAt(g.blocks[p[k]], tails[p[k]], g.blocks[head][i].op.arg);
  }

  lemma TrackTail(g: Cfg, h: Cfg, head: nat, i: nat, tails: map<nat, nat>,
                  p: Path, envs: seq<Env>, k: nat, o: Obj)
    requires PairsUp(g, h, head, i, tails, p, envs) && k < |p| && p[k] in tails
    requires Tracks(g, h, head, i, tails, p, envs, k, o)
    ensures Tracks(g, h, head, i, tails, p, envs, k + 1, o)
  {
    hide Alternates, Steady, Open, LastHead, Owed, Net, Low, Delta, Pruned, NoDec, WellFormed, IncsFirst, RemoveAt;
    AtTail(g, h, head, i, tails, p, envs, k, o);
    PathLowBounds(h, p, envs, k, o);
    TailBlock(g.blocks[p[k]], tails[p[k]], envs[k], o, PathLow(h, p, envs, k, o), PathNet(h, p, envs, k, o));
  }

  lemma AtBetween(g: Cfg, h: Cfg, head: nat, i: nat, tails: map<nat, nat>,
                  p: Path, envs: seq<Env>, k: nat, o: Obj)
    requires PairsUp(g, h, head, i, tails, p, envs) && k < |p| && p[k] != head && p[k] !in tails
    ensures |h.blocks| == |g.blocks|
    ensures h.blocks[p[k]] == g.blocks[p[k]]
    ensures Owed(g, p, envs, k + 1, o, head, i, tails.Keys) == Owed(g, p, envs, k, o, head, i, tails.Keys)
    ensures Owed(g, p, envs, k, o, head, i, tails.Keys) == 0 || NoDec(g.blocks[p[k]])
  {
    hide Delta, Net, Low;
    assert Open(p, k + 1, head, tails.Keys) <==> Open(p, k, head, tails.Keys);
  }

  lemma TrackBetween(g: Cfg, h: Cfg, head: nat, i: nat, tails: map<nat, nat>,
                     p: Path, envs: seq<Env>, k: nat, o: Obj)
    requires PairsUp(g, h, head, i, tails, p, envs) && k < |p| && p[k] != head && p[k] !in tails
    requires Tracks(g, h, head, i, tails, p, envs, k, o)
    ensures Tracks(g, h, head, i, tails, p, envs, k + 1, o)
  {
    hide Alternates, Steady, Open, LastHead, Owed, Net, Low, Delta, Pruned, NoDec, WellFormed, IncsFirst, RemoveAt;
    AtBetween(g, h, head, i, tails, p, envs, k, o);
    PathLowBounds(h, p, envs, k, o);
    PathLowBounds(g, p, envs, k, o);
    if NoDec(g.blocks[p[k]]) {
      NoDecLow(g.blocks[p[k]], envs[k], o);
    }
  }

  lemma HeadBlock(s: Body, i: nat, env: Env, o: Obj, m: int, c: int)
    requires i < |s| && s[i].op.Inc? && NoDec(s) && m <= c
    ensures Net(s, env, o) == Net(RemoveAt(s, i), env, o) + Delta(s[i], env, o)
    ensures Min(m, c + Low(s, env, o)) == Min(m, c + Low(RemoveAt(s, i), env, o)) == m
  {
    SplitAt(s, i, env, o);
    NoDecLow(s, env, o);
    NoDecLow(RemoveAt(s, i), env, o);
  }

  lemma TailBlock(s: Body, j: nat, env: Env, o: Obj, m: int, c: int)
    requires j < |s| && s[j].op.Dec? && m <= c
    ensures Net(s, env, o) == Net(RemoveAt(s, j), env, o) + Delta(s[j], env, o)
    ensures IncsFirst(s) ==>
              Min(m, c - Delta(s[j], env, o) + Low(s, env, o)) == Min(m, c + Low(RemoveAt(s, j), env, o))
  {
    SplitAt(s, j, env, o);
    if IncsFirst(s) {
      LoweredBlockLow(s, j, env, o, m, c);
    }
  }

  /** Alternation on a complete path that also ends closed: every object ends
      with the count it had, and its count was never lower than before. */
  lemma AlternationPreserves(g: Cfg, h: Cfg, head: nat, i: nat, tails: map<nat, nat>,
                             p: Path, envs: seq<Env>, o: Obj)
    requires PairsUp(g, h, head, i, tails, p, envs)
    requires !Open(p, |p|, head, tails.Keys)
    ensures PathNet(h, p, envs, |p|, o) == PathNet(g, p, envs, |p|, o)
    ensures Normal(g) ==> PathLow(h, p, envs, |p|, o) == PathLow(g, p, envs, |p|, o)
  {
    CountsTrack(g, h, head, i, tails, p, envs, |p|, o);
  }
}
