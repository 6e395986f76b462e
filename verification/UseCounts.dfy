/** Where the objects are used: how low a count has been up to the moment an
    instruction that is no refop runs, and when pruning leaves that alone. */
module UseCounts {
  import opened RefCounts
  import opened ControlFlow
  import opened Pairing
  import opened BlockPrune
  import opened Numbers

  // ---- One decref block ----

  /** No instruction but refops stands between a decref and the one at `j`. */
  ghost predicate ReleasedRight(s: Body, j: nat) {
    forall d, i :: 0 <= d < i < j && i < |s| && s[d].op.Dec? ==> IsRefOp(s[i])
  }

  /** Where the instruction at index `i` is once the one at `j` has been erased. */
  function Shifted(i: nat, j: nat): nat {
    if i <= j then i else i - 1
  }

  /** The block without its `j`-th instruction is entered with the lowered count `c`;
      at the instruction at `i` the count is no lower than the original has been by
      then, when `m` was the lowest before. */
  ghost predicate Covered(s: Body, j: nat, i: nat, env: Env, o: Obj, m: int, c: int)
    requires i < |s| && j < |s| && i != j
  {
    c + Net(RemoveAt(s, j)[..Shifted(i, j)], env, o) >= Min(m, c - Delta(s[j], env, o) + Low(s[..i], env, o))
  }

  ghost predicate UsesCovered(s: Body, j: nat)
    requires j < |s|
  {
    forall i: nat, env, o, m, c ::
      i < |s| && i != j && !IsRefOp(s[i]) && m <= c ==> Covered(s, j, i, env, o, m, c)
  }

  lemma UseCovered(s: Body, j: nat, i: nat, env: Env, o: Obj, m: int, c: int)
    requires j < |s| && s[j].op.Dec? && ReleasedRight(s, j)
    requires i < |s| && i != j && !IsRefOp(s[i]) && m <= c
    ensures Covered(s, j, i, env, o, m, c)
  {
    RemoveBehind(s, j, i);
    if i < j {
      forall d | 0 <= d < i ensures !s[..i][d].op.Dec? {
        assert s[..i][d] == s[d];
      }
      NoDecLow(s[..i], env, o);
    } else {
      assert s[..i][j] == s[j];
      SplitAt(s[..i], j, env, o);
      LowBounds(s[..i], env, o);
    }
  }

  /** An environment in which the two values denote one object, apart from all else. */
  function Aliased(v: Value, w: Value): Env {
    x => if x == v || x == w then 1 else 0
  }

  /** A use after a decref of another value, when no incref balances either value. */
  lemma ReleasedAhead(s: Body, j: nat, d: nat, i: nat)
    requires Clean(s) && d < i < j < |s| && s[d].op.Dec? && s[j].op.Dec? && !IsRefOp(s[i])
    requires forall k :: 0 <= k < j ==> s[k].op != s[j].op
    ensures var env := Aliased(s[d].op.arg, s[j].op.arg);
            && Delta(s[j], env, 1) == -1 && Low(s[..i], env, 1) == Net(s[..i], env, 1) <= -1
            && !Covered(s, j, i, env, 1, 0, 0)
  {
    var v, w := s[d].op.arg, s[j].op.arg;
    var env := Aliased(v, w);
    var a := s[..i];
    assert s[d] in s && s[j] in s;
    forall x | x in a ensures Delta(x, env, 1) <= 0 {
      assert x in s;
    }
    assert a[d] == s[d];
    OnlyFalls(a, env, 1, d);
    RemoveBehind(s, j, i);
  }

  /** Which decref of a pruned block may be erased. With nothing left for the
      per-block sub-pass, erasing the first decref of a value keeps every use's count
      at or above what the original had reached, whatever the values denote, if and
      only if no use stands between some decref and that one. */
  lemma ReleaseExact(s: Body, j: nat)
    requires Clean(s) && j < |s| && s[j].op.Dec? && forall k :: 0 <= k < j ==> s[k].op != s[j].op
    ensures UsesCovered(s, j) <==> ReleasedRight(s, j)
  {
    hide Covered, Clean;
    if ReleasedRight(s, j) {
      forall i: nat, env, o, m, c | i < |s| && i != j && !IsRefOp(s[i]) && m <= c ensures Covered(s, j, i, env, o, m, c) {
        UseCovered(s, j, i, env, o, m, c);
      }
    } else {
      var d, i :| 0 <= d < i < j && i < |s| && s[d].op.Dec? && !IsRefOp(s[i]);
      ReleasedAhead(s, j, d, i);
      assert !Covered(s, j, i, Aliased(s[d].op.arg, s[j].op.arg), 1, 0, 0);
    }
  }

  /** In a block with its uses first, any decref may be erased. */
  lemma UsesFirstReleases(s: Body, j: nat)
    requires UsesFirst(s) && j < |s| && s[j].op.Dec?
    ensures ReleasedRight(s, j)
  {
  }

  // ---- Along a path ----

  /** The lowest count of `o` by the time instruction `i` of the `k`-th block runs. */
  ghost function UseLow(g: Cfg, p: Path, envs: seq<Env>, k: nat, i: nat, o: Obj): int
    requires k < |p| == |envs| && (forall x :: 0 <= x < |p| ==> p[x] < |g.blocks|) && i <= |g.blocks[p[k]]|
  {
    Min(PathLow(g, p, envs, k, o), PathNet(g, p, envs, k, o) + Low(g.blocks[p[k]][..i], envs[k], o))
  }

  /** When an instruction that is no refop runs, the count of `o` has not been lower
      in `h` than it had been in `g`. */
  ghost predicate UsesNoLower(g: Cfg, h: Cfg, p: Path, envs: seq<Env>, o: Obj)
    requires IsPath(g, p) && |envs| == |p| && |h.blocks| == |g.blocks|
  {
    forall k: nat, i: nat, j: nat :: k < |p| && SameUse(g.blocks[p[k]], i, h.blocks[p[k]], j) ==>
      UseNoLower(g, h, p, envs, o, k, i, j)
  }

  ghost predicate UseNoLower(g: Cfg, h: Cfg, p: Path, envs: seq<Env>, o: Obj, k: nat, i: nat, j: nat)
    requires IsPath(g, p) && |envs| == |p| && |h.blocks| == |g.blocks|
    requires k < |p| && i <= |g.blocks[p[k]]| && j <= |h.blocks[p[k]]|
  {
    UseLow(h, p, envs, k, j, o) >= UseLow(g, p, envs, k, i, o)
  }

  lemma UsesNoLowerTrans(f: Cfg, g: Cfg, h: Cfg, p: Path, envs: seq<Env>, o: Obj)
    requires IsPath(f, p) && IsPath(g, p) && |envs| == |p| && |h.blocks| == |g.blocks| == |f.blocks|
    requires UsesNoLower(f, g, p, envs, o) && UsesNoLower(g, h, p, envs, o)
    requires forall b, x :: 0 <= b < |h.blocks| && x in h.blocks[b] ==> x in g.blocks[b]
    ensures UsesNoLower(f, h, p, envs, o)
  {
    hide UseLow;
    forall k: nat, i: nat, j: nat | k < |p| && SameUse(f.blocks[p[k]], i, h.blocks[p[k]], j)
      ensures UseNoLower(f, h, p, envs, o, k, i, j)
    {
      assert h.blocks[p[k]][j] in g.blocks[p[k]];
      var x: nat :| x < |g.blocks[p[k]]| && g.blocks[p[k]][x] == h.blocks[p[k]][j];
      assert SameUse(f.blocks[p[k]], i, g.blocks[p[k]], x) && SameUse(g.blocks[p[k]], x, h.blocks[p[k]], j);
      assert UseNoLower(f, g, p, envs, o, k, i, x) && UseNoLower(g, h, p, envs, o, k, x, j);
    }
  }

  /** Before the pending decref nothing has been released in the block. */
  lemma QuietPrefix(s: Body, i: nat, env: Env, o: Obj)
    requires NoDec(s) && i <= |s|
    ensures Low(s[..i], env, o) == 0
  {
    NoDecLow(s[..i], env, o);
  }

  lemma HeadUse(s: Body, n: nat, i: nat, j: nat, env: Env, o: Obj)
    requires NoDec(s) && n < |s| && i <= |s| && j <= |RemoveAt(s, n)|
    ensures Low(s[..i], env, o) == 0 && Low(RemoveAt(s, n)[..j], env, o) == 0
  {
    QuietPrefix(s, i, env, o);
    forall k | 0 <= k < |RemoveAt(s, n)| ensures !RemoveAt(s, n)[k].op.Dec? {
      assert RemoveAt(s, n)[k] == if k < n then s[k] else s[k + 1];
    }
    QuietPrefix(RemoveAt(s, n), j, env, o);
  }

  lemma WhereUse(s: Body, n: nat, i: nat, j: nat)
    requires Distinct(s) && n < |s| && IsRefOp(s[n]) && SameUse(s, i, RemoveAt(s, n), j)
    ensures i != n && j == Shifted(i, n)
  {
    assert RemoveAt(s, n)[j] == if j < n then s[j] else s[j + 1];
  }

  lemma PrefixForms(s: Body, i: nat)
    requires i <= |s|
    ensures IncsFirst(s) ==> IncsFirst(s[..i])
    ensures forall n :: 0 <= n < i ==> s[..i][n] == s[n]
  {
  }

  /** A tail block entered one lower: by every use, the count has been as low. */
  lemma TailUse(s: Body, n: nat, i: nat, j: nat, env: Env, o: Obj, m: int, c: int)
    requires IncsFirst(s) && Distinct(s) && n < |s| && s[n].op.Dec? && ReleasedRight(s, n)
    requires SameUse(s, i, RemoveAt(s, n), j) && m <= c
    ensures Min(m, c + Low(RemoveAt(s, n)[..j], env, o)) == Min(m, c - Delta(s[n], env, o) + Low(s[..i], env, o))
  {
    WhereUse(s, n, i, j);
    PrefixForms(s, i);
    RemoveBehind(s, n, i);
    if i < n {
      assert NoDec(s[..i]);
      NoDecLow(s[..i], env, o);
      DecDelta(s[n], env, o);
    } else {
      hide IncsFirst, Distinct, RemoveAt, Low, Delta, ReleasedRight;
      LoweredBlockLow(s[..i], n, env, o, m, c);
    }
  }

  lemma FormsAt(g: Cfg, b: nat)
    requires WellFormed(g) && Normal(g) && b < |g.blocks|
    ensures Distinct(g.blocks[b]) && IncsFirst(g.blocks[b])
  {
  }

  lemma UseAt(g: Cfg, h: Cfg, head: nat, n: nat, tails: map<nat, nat>, p: Path, envs: seq<Env>, o: Obj,
              k: nat, i: nat, j: nat)
    requires PairsUp(g, h, head, n, tails, p, envs) && Normal(g)
    requires forall t :: t in tails && t < |g.blocks| ==> ReleasedRight(g.blocks[t], tails[t])
    requires |h.blocks| == |g.blocks| && k < |p| && SameUse(g.blocks[p[k]], i, h.blocks[p[k]], j)
    ensures UseNoLower(g, h, p, envs, o, k, i, j)
  {
    CountsTrack(g, h, head, n, tails, p, envs, k, o);
    PairedSize(g, h, head, n, tails, p, envs);
    hide PairsUp, Tracks, Normal, UseNoLower, ReleasedRight, EntersTail;
    if p[k] == head {
      UseAtHead(g, h, head, n, tails, p, envs, o, k, i, j);
    } else if p[k] in tails {
      AtEntry(g, h, head, n, tails, p, envs, o, k);
      UseAtTail(g, h, p, envs, o, k, tails[p[k]], i, j);
    } else {
      UseBetween(g, h, head, n, tails, p, envs, o, k, i, j);
    }
  }

  lemma UseAtHead(g: Cfg, h: Cfg, head: nat, n: nat, tails: map<nat, nat>, p: Path, envs: seq<Env>, o: Obj,
                  k: nat, i: nat, j: nat)
    requires PairsUp(g, h, head, n, tails, p, envs) && Normal(g) && |h.blocks| == |g.blocks|
    requires k < |p| && p[k] == head && SameUse(g.blocks[p[k]], i, h.blocks[p[k]], j)
    requires Tracks(g, h, head, n, tails, p, envs, k, o)
    ensures UseNoLower(g, h, p, envs, o, k, i, j)
  {
    PathLowBounds(h, p, envs, k, o);
    PathLowBounds(g, p, envs, k, o);
    hide Alternates, Steady, Open, LastHead, Owed, Delta, Net, Low, Pruned, NoDec, WellFormed, Normal, IncsFirst, Distinct,
      RemoveAt;
    AtHead(g, h, head, n, tails, p, envs, k, o);
    HeadUse(g.blocks[head], n, i, j, envs[k], o);
  }

  /** The state in which a path enters a tail block. */
  ghost predicate EntersTail(g: Cfg, h: Cfg, p: Path, envs: seq<Env>, o: Obj, k: nat, n: nat)
    requires IsPath(g, p) && |envs| == |p| && |h.blocks| == |g.blocks| && k < |p|
  {
    var s := g.blocks[p[k]];
    && IncsFirst(s) && Distinct(s) && n < |s| && s[n].op.Dec? && h.blocks[p[k]] == RemoveAt(s, n)
    && PathLow(g, p, envs, k, o) == PathLow(h, p, envs, k, o) <= PathNet(h, p, envs, k, o)
    && PathNet(g, p, envs, k, o) == PathNet(h, p, envs, k, o) - Delta(s[n], envs[k], o)
  }

  lemma AtEntry(g: Cfg, h: Cfg, head: nat, n: nat, tails: map<nat, nat>, p: Path, envs: seq<Env>, o: Obj, k: nat)
    requires PairsUp(g, h, head, n, tails, p, envs) && Normal(g) && |h.blocks| == |g.blocks|
    requires k < |p| && p[k] in tails && Tracks(g, h, head, n, tails, p, envs, k, o)
    ensures EntersTail(g, h, p, envs, o, k, tails[p[k]])
  {
    PathLowBounds(h, p, envs, k, o);
    FormsAt(g, p[k]);
    hide Alternates, Steady, Open, LastHead, Owed, Delta, Net, Low, Pruned, NoDec, WellFormed, Normal, IncsFirst, Distinct,
      RemoveAt;
    AtTail(g, h, head, n, tails, p, envs, k, o);
  }

  lemma UseAtTail(g: Cfg, h: Cfg, p: Path, envs: seq<Env>, o: Obj, k: nat, n: nat, i: nat, j: nat)
    requires IsPath(g, p) && |envs| == |p| && |h.blocks| == |g.blocks| && k < |p|
    requires EntersTail(g, h, p, envs, o, k, n) && ReleasedRight(g.blocks[p[k]], n)
    requires SameUse(g.blocks[p[k]], i, h.blocks[p[k]], j)
    ensures UseNoLower(g, h, p, envs, o, k, i, j)
  {
    hide IncsFirst, Distinct, ReleasedRight, RemoveAt, Low, Net, Delta;
    TailBy(g.blocks[p[k]], h.blocks[p[k]], n, i, j, envs[k], o, PathLow(h, p, envs, k, o), PathNet(h, p, envs, k, o));
  }

  lemma TailBy(s: Body, t: Body, n: nat, i: nat, j: nat, env: Env, o: Obj, m: int, c: int)
    requires IncsFirst(s) && Distinct(s) && n < |s| && s[n].op.Dec? && ReleasedRight(s, n)
    requires t == RemoveAt(s, n) && SameUse(s, i, t, j) && m <= c
    ensures Min(m, c + Low(t[..j], env, o)) >= Min(m, c - Delta(s[n], env, o) + Low(s[..i], env, o))
  {
    TailUse(s, n, i, j, env, o, m, c);
  }

  lemma SameIndex(s: Body, i: nat, j: nat)
    requires Distinct(s) && SameUse(s, i, s, j)
    ensures i == j
  {
  }

  lemma UseBetween(g: Cfg, h: Cfg, head: nat, n: nat, tails: map<nat, nat>, p: Path, envs: seq<Env>, o: Obj,
                   k: nat, i: nat, j: nat)
    requires PairsUp(g, h, head, n, tails, p, envs) && Normal(g) && |h.blocks| == |g.blocks|
    requires k < |p| && p[k] != head && p[k] !in tails && SameUse(g.blocks[p[k]], i, h.blocks[p[k]], j)
    requires Tracks(g, h, head, n, tails, p, envs, k, o)
    ensures UseNoLower(g, h, p, envs, o, k, i, j)
  {
    PathLowBounds(h, p, envs, k, o);
    PathLowBounds(g, p, envs, k, o);
    FormsAt(g, p[k]);
    hide Alternates, Steady, Open, LastHead, Owed, Delta, Net, Low, Pruned, NoDec, WellFormed, Normal, IncsFirst, Distinct;
    AtBetween(g, h, head, n, tails, p, envs, k, o);
    SameIndex(g.blocks[p[k]], i, j);
    if NoDec(g.blocks[p[k]]) {
      QuietPrefix(g.blocks[p[k]], i, envs[k], o);
    }
  }

  /** A pruned pair leaves all uses covered along the path: an object that had not
      been released when it was used has not been released there now. */
  lemma StepUses(g: Cfg, h: Cfg, head: nat, n: nat, tails: map<nat, nat>, p: Path, envs: seq<Env>, o: Obj)
    requires PairsUp(g, h, head, n, tails, p, envs) && Normal(g)
    requires forall t :: t in tails && t < |g.blocks| ==> ReleasedRight(g.blocks[t], tails[t])
    ensures |h.blocks| == |g.blocks| && UsesNoLower(g, h, p, envs, o)
  {
    PairedSize(g, h, head, n, tails, p, envs);
    hide PairsUp, Normal, UseNoLower, ReleasedRight;
    forall k: nat, i: nat, j: nat | k < |p| && SameUse(g.blocks[p[k]], i, h.blocks[p[k]], j)
      ensures UseNoLower(g, h, p, envs, o, k, i, j)
    {
      UseAt(g, h, head, n, tails, p, envs, o, k, i, j);
    }
  }

  lemma PairedSize(g: Cfg, h: Cfg, head: nat, n: nat, tails: map<nat, nat>, p: Path, envs: seq<Env>)
    requires PairsUp(g, h, head, n, tails, p, envs)
    ensures |h.blocks| == |g.blocks| && IsPath(g, p) && |envs| == |p| && WellFormed(g)
  {
  }
}
