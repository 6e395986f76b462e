/** The normalising pass: in every block that has an incref, the decrefs are
    moved, in order, to just before the terminator. */
module RefNormalize {
  import opened RefCounts
  import opened ControlFlow
  import opened UseCounts

  /** A function whose blocks the passes rewrite in place. */
  class IrFunction {
    var body: Cfg

    constructor (g: Cfg)
      ensures body == g
    {
      body := g;
    }
  }

  function Decs(s: Body): Body {
    if s == [] then []
    else if s[|s| - 1].op.Dec? then Decs(s[..|s| - 1]) + [s[|s| - 1]]
    else Decs(s[..|s| - 1])
  }

  function NonDecs(s: Body): Body {
    if s == [] then []
    else if s[|s| - 1].op.Dec? then NonDecs(s[..|s| - 1])
    else NonDecs(s[..|s| - 1]) + [s[|s| - 1]]
  }

  /** The block that the pass leaves. */
  ghost function Sorted(s: Body): Body {
    if NoInc(s) then s else NonDecs(s) + Decs(s)
  }

  // ---- What normalising keeps ----

  lemma {:induction false} PartsProperties(s: Body)
    ensures NoDec(NonDecs(s)) && NoInc(Decs(s))
    ensures multiset(s) == multiset(NonDecs(s)) + multiset(Decs(s))
  {
    if s != [] {
      PartsProperties(s[..|s| - 1]);
      assert s == s[..|s| - 1] + [s[|s| - 1]];
    }
  }

  lemma {:induction false} PartsOthers(s: Body)
    ensures Others(NonDecs(s)) == Others(s) && Others(Decs(s)) == []
  {
    if s != [] {
      var t, x := s[..|s| - 1], s[|s| - 1];
      PartsOthers(t);
      if x.op.Dec? {
        assert Decs(s)[..|Decs(s)| - 1] == Decs(t);
      } else {
        assert NonDecs(s)[..|NonDecs(s)| - 1] == NonDecs(t);
      }
    }
  }

  lemma NetSnoc(s: Body, x: Instr, env: Env, o: Obj)
    ensures Net(s + [x], env, o) == Net(s, env, o) + Delta(x, env, o)
  {
    assert (s + [x])[..|s|] == s;
  }

  lemma {:induction false} PartsNet(s: Body, env: Env, o: Obj)
    ensures Net(s, env, o) == Net(NonDecs(s), env, o) + Net(Decs(s), env, o)
    ensures Net(Decs(s), env, o) <= 0
  {
    if s != [] {
      var t, x := s[..|s| - 1], s[|s| - 1];
      PartsNet(t, env, o);
      NetSnoc(if x.op.Dec? then Decs(t) else NonDecs(t), x, env, o);
    }
  }

  /** The sorted block has its increfs first, consists of the same instructions
      with the non-refops in their old order, changes every count as before and
      never takes a count lower than before. */
  lemma SortedProperties(s: Body, env: Env, o: Obj)
    ensures IncsFirst(Sorted(s)) && multiset(Sorted(s)) == multiset(s) && Others(Sorted(s)) == Others(s)
    ensures Net(Sorted(s), env, o) == Net(s, env, o)
    ensures Low(Sorted(s), env, o) >= Low(s, env, o)
  {
    PartsProperties(s);
    PartsOthers(s);
    OthersConcat(NonDecs(s), Decs(s));
    PartsNet(s, env, o);
    NetConcat(NonDecs(s), Decs(s), env, o);
    if !NoInc(s) {
      var t := Sorted(s);
      forall i, j | 0 <= i < j < |t| && t[i].op.Dec? ensures !t[j].op.Inc? {
        assert i >= |NonDecs(s)|;
      }
      IncsFirstLow(t, env, o);
      LowBounds(s, env, o);
    }
  }

  lemma {:induction false} NonDecsPrefix(s: Body, i: nat)
    requires i < |s| && !s[i].op.Dec?
    ensures |NonDecs(s[..i])| < |NonDecs(s)|
    ensures NonDecs(s)[|NonDecs(s[..i])|] == s[i]
    ensures NonDecs(s)[..|NonDecs(s[..i])|] == NonDecs(s[..i])
  {
    var t := s[..|s| - 1];
    if i < |s| - 1 {
      assert t[..i] == s[..i];
      NonDecsPrefix(t, i);
    }
  }

  /** Where a non-refop instruction runs, no count is lower than before. */
  lemma NeverLowerAtUse(s: Body, i: nat, env: Env, o: Obj) returns (j: nat)
    requires i < |s| && !IsRefOp(s[i])
    ensures j < |Sorted(s)| && Sorted(s)[j] == s[i]
    ensures Net(Sorted(s)[..j], env, o) >= Net(s[..i], env, o)
  {
    if NoInc(s) {
      j := i;
    } else {
      j := |NonDecs(s[..i])|;
      NonDecsPrefix(s, i);
      assert Sorted(s)[..j] == NonDecs(s)[..j];
      PartsNet(s[..i], env, o);
    }
  }

  lemma {:induction false} DecsPrefix(s: Body, i: nat)
    requires i < |s| && s[i].op.Dec?
    ensures |Decs(s[..i])| < |Decs(s)| && Decs(s)[|Decs(s[..i])|] == s[i]
  {
    var t := s[..|s| - 1];
    if i < |s| - 1 {
      assert t[..i] == s[..i];
      DecsPrefix(t, i);
    }
  }

  /** Where an instruction goes. */
  ghost function Place(s: Body, i: nat): (k: nat)
    requires i < |s| && !NoInc(s)
    ensures k < |Sorted(s)| && Sorted(s)[k] == s[i]
  {
    if s[i].op.Dec? then
      DecsPrefix(s, i);
      |NonDecs(s)| + |Decs(s[..i])|
    else
      NonDecsPrefix(s, i);
      |NonDecs(s[..i])|
  }

  lemma PlaceOrder(s: Body, i: nat, j: nat)
    requires i < j < |s| && !NoInc(s)
    ensures Place(s, i) < Place(s, j) <==> !(s[i].op.Dec? && !s[j].op.Dec?)
  {
    assert s[..j][..i] == s[..i] && s[..j][i] == s[i];
    if s[i].op.Dec? {
      DecsPrefix(s[..j], i);
    } else {
      NonDecsPrefix(s[..j], i);
    }
    if !s[i].op.Dec? {
      NonDecsPrefix(s, i);
    }
    if !s[j].op.Dec? {
      NonDecsPrefix(s, j);
    }
  }

  /** A block without increfs is left alone. In any other, two instructions change their
      order exactly if the first is a decref and the second is not. */
  lemma SortedOrder(s: Body, i: nat, j: nat, a: nat, b: nat)
    requires Distinct(s) && i < j < |s|
    ensures (forall x :: x in s ==> !x.op.Inc?) ==> Sorted(s) == s
    ensures |Sorted(s)| == |s|
    ensures (exists x :: x in s && x.op.Inc?) && a < |s| && b < |s| && Sorted(s)[a] == s[i] && Sorted(s)[b] == s[j] ==>
              (a < b <==> !(s[i].op.Dec? && !s[j].op.Dec?))
  {
    PartsProperties(s);
    if !NoInc(s) {
      var t := Sorted(s);
      assert multiset(t) == multiset(s);
      assert |t| == |s| by { assert |multiset(t)| == |multiset(s)|; }
      DistinctMultiset(s);
      MultisetDistinct(t);
      PlaceOrder(s, i, j);
      if a < |s| && b < |s| && t[a] == s[i] && t[b] == s[j] {
        assert t[Place(s, i)] == t[a] && t[Place(s, j)] == t[b];
      }
    } else {
      assert forall x :: x in s ==> !x.op.Inc?;
    }
  }

  /** The blocks of `h` are the sorted blocks of `g`. */
  ghost predicate NormalizedTo(g: Cfg, h: Cfg) {
    && h.succs == g.succs && h.defs == g.defs && |h.blocks| == |g.blocks|
    && (forall b :: 0 <= b < |g.blocks| ==> h.blocks[b] == Sorted(g.blocks[b]))
  }

  lemma SortedDistinct(s: Body)
    requires Distinct(s)
    ensures Distinct(Sorted(s))
  {
    SortedProperties(s, v => 0, 0);
    DistinctMultiset(s);
    MultisetDistinct(Sorted(s));
  }

  lemma {:induction false} DistinctMultiset(s: Body)
    requires Distinct(s)
    ensures forall x :: multiset(s)[x] <= 1
  {
    if s != [] {
      DistinctMultiset(s[..|s| - 1]);
      assert s == s[..|s| - 1] + [s[|s| - 1]];
      assert s[|s| - 1] !in s[..|s| - 1];
    }
  }

  lemma MultisetDistinct(s: Body)
    requires forall x :: multiset(s)[x] <= 1
    ensures Distinct(s)
  {
    forall i, j | 0 <= i < j < |s| ensures s[i] != s[j] {
      assert s == s[..j] + [s[j]] + s[j + 1..];
      assert s[i] == s[..j][i];
      assert multiset(s[..j])[s[i]] >= 1;
      assert multiset(s)[s[j]] >= multiset(s[..j])[s[j]] + 1;
    }
  }

  lemma SortedUses(s: Body, v: Value)
    ensures UsesIn(Sorted(s), v) <==> UsesIn(s, v)
  {
    SortedProperties(s, w => 0, 0);
    var t := Sorted(s);
    if UsesIn(t, v) {
      var i :| 0 <= i < |t| && IsRefOp(t[i]) && t[i].op.arg == v;
      assert t[i] in multiset(s);
      assert t[i] in s;
    }
    if UsesIn(s, v) {
      var i :| 0 <= i < |s| && IsRefOp(s[i]) && s[i].op.arg == v;
      assert s[i] in multiset(t);
      assert s[i] in t;
    }
  }

  lemma NormalizeKeeps(g: Cfg, h: Cfg)
    requires WellFormed(g) && NormalizedTo(g, h)
    ensures WellFormed(h) && Normal(h)
    ensures forall p :: IsPath(g, p) <==> IsPath(h, p)
    ensures DefsDominate(g) ==> DefsDominate(h)
  {
    forall b | 0 <= b < |h.blocks| ensures IncsFirst(h.blocks[b]) && Distinct(h.blocks[b]) {
      SortedProperties(g.blocks[b], v => 0, 0);
      SortedDistinct(g.blocks[b]);
    }
    assert forall p :: IsPath(g, p) <==> IsPath(h, p);
    if DefsDominate(g) {
      forall p, d, v | IsPath(h, p) && 0 <= d < |h.defs| && v in h.defs[d] && UsesIn(h.blocks[p[|p| - 1]], v)
        ensures d in p
      {
        SortedUses(g.blocks[p[|p| - 1]], v);
        assert IsPath(g, p);
      }
    }
  }

  /** Along every path, complete or not, every count is as before, and its
      lowest point is no lower. */
  lemma {:induction false} NormalizePreserves(g: Cfg, h: Cfg, p: Path, envs: seq<Env>, k: nat, o: Obj)
    requires NormalizedTo(g, h) && IsPath(g, p) && |envs| == |p| && k <= |p|
    ensures PathNet(h, p, envs, k, o) == PathNet(g, p, envs, k, o)
    ensures PathLow(h, p, envs, k, o) >= PathLow(g, p, envs, k, o)
  {
    if k > 0 {
      NormalizePreserves(g, h, p, envs, k - 1, o);
      SortedProperties(g.blocks[p[k - 1]], envs[k - 1], o);
    }
  }

  // ---- The pass ----

  lemma SortedUse(s: Body, i: nat, j: nat, env: Env, o: Obj)
    requires Distinct(s) && SameUse(s, i, Sorted(s), j)
    ensures Low(Sorted(s)[..j], env, o) >= Low(s[..i], env, o)
  {
    if NoInc(s) {
      assert i == j;
    } else {
      PartsProperties(s);
      DecsOnly(s);
      assert j < |NonDecs(s)| && Sorted(s)[..j] == NonDecs(s)[..j];
      NoDecLow(Sorted(s)[..j], env, o);
      LowBounds(s[..i], env, o);
    }
  }

  lemma {:induction false} DecsOnly(s: Body)
    ensures forall k :: 0 <= k < |Decs(s)| ==> Decs(s)[k].op.Dec?
  {
    if s != [] {
      DecsOnly(s[..|s| - 1]);
    }
  }

  /** At every use the normalised function has been no lower than the original. */
  lemma NormalizeUses(g: Cfg, h: Cfg, p: Path, envs: seq<Env>, o: Obj)
    requires WellFormed(g) && NormalizedTo(g, h) && IsPath(g, p) && |envs| == |p|
    ensures UsesNoLower(g, h, p, envs, o)
  {
    forall k: nat, i: nat, j: nat | k < |p| && SameUse(g.blocks[p[k]], i, h.blocks[p[k]], j)
      ensures UseNoLower(g, h, p, envs, o, k, i, j)
    {
      NormalizePreserves(g, h, p, envs, k, o);
      SortedUse(g.blocks[p[k]], i, j, envs[k], o);
    }
  }

  /** A sorted block has its uses first, if its decrefs stood together wherever it has
      no incref and is left alone. */
  lemma SortedUsesFirst(s: Body)
    requires NoInc(s) ==> DecsTogether(s)
    ensures UsesFirst(Sorted(s))
  {
    PartsProperties(s);
    DecsOnly(s);
  }

  /** The state of the block after the decrefs among the first `n` instructions
      have been moved. */
  ghost function Moved(s: Body, n: nat): Body
    requires n <= |s|
  {
    NonDecs(s[..n]) + s[n..] + Decs(s[..n])
  }

  lemma MovedDistinct(s: Body, n: nat)
    requires n <= |s| && Distinct(s)
    ensures Distinct(Moved(s, n))
  {
    PartsProperties(s[..n]);
    assert s == s[..n] + s[n..];
    assert multiset(Moved(s, n)) == multiset(s);
    DistinctMultiset(s);
    MultisetDistinct(Moved(s, n));
  }

  lemma MoveNext(s: Body, n: nat)
    requires n < |s| && Distinct(s)
    ensures s[n].op.Dec? ==> Erase(Moved(s, n), s[n]) + [s[n]] == Moved(s, n + 1)
    ensures !s[n].op.Dec? ==> Moved(s, n + 1) == Moved(s, n)
  {
    assert s[..n + 1][..n] == s[..n];
    if s[n].op.Dec? {
      var m, i := Moved(s, n), |NonDecs(s[..n])|;
      assert m[i] == s[n];
      MovedDistinct(s, n);
      EraseIsRemoveAt(m, i);
      assert RemoveAt(m, i) == NonDecs(s[..n]) + s[n + 1..] + Decs(s[..n]);
    }
  }

  lemma {:induction false} DecsMonotone(s: Body, n: nat)
    requires n <= |s|
    ensures Decs(s[..n]) <= Decs(s)
  {
    if n < |s| {
      assert s[..|s| - 1][..n] == s[..n];
      DecsMonotone(s[..|s| - 1], n);
    } else {
      assert s[..n] == s;
    }
  }

  lemma {:induction false} MovedAll(s: Body, n: nat)
    requires n <= |s| && Distinct(s) && !NoInc(s) && |Decs(s[..n])| == |Decs(s)|
    ensures Moved(s, n) == Sorted(s)
    decreases |s| - n
  {
    if n == |s| {
      assert s[..n] == s;
      assert Moved(s, n) == NonDecs(s) + Decs(s);
    } else {
      DecsMonotone(s, n + 1);
      assert s[..n + 1][..n] == s[..n];
      MoveNext(s, n);
      MovedAll(s, n + 1);
    }
  }

  /** The pass moves something in the block. */
  ghost predicate Unsettled(s: Body) {
    !NoInc(s) && Decs(s) != []
  }

  method NormalizeBlock(s: Body) returns (t: Body, mutated: bool)
    requires Distinct(s)
    ensures t == Sorted(s)
    ensures mutated <==> Unsettled(s)
    ensures !mutated ==> t == s
  {
    t, mutated := s, false;
    var hasIncref, i := false, 0;
    while i < |s| && !hasIncref
      invariant 0 <= i <= |s|
      invariant hasIncref <==> !NoInc(s[..i])
    {
      assert s[..i + 1] == s[..i] + [s[i]];
      hasIncref := s[i].op.Inc?;
      i := i + 1;
    }
    if hasIncref {
      assert !NoInc(s);
      var toBeMoved: Body := [];
      i := 0;
      while i < |s|
        invariant 0 <= i <= |s| && toBeMoved == Decs(s[..i])
      {
        assert s[..i + 1][..i] == s[..i];
        if s[i].op.Dec? {
          toBeMoved := toBeMoved + [s[i]];
        }
        i := i + 1;
      }
      assert s[..|s|] == s;
      var k := 0;
      ghost var n := 0;
      assert Moved(s, 0) == s;
      while k < |toBeMoved|
        invariant 0 <= k <= |toBeMoved| && n <= |s|
        invariant k == |Decs(s[..n])| && t == Moved(s, n)
        invariant (mutated <==> k > 0) && (!mutated ==> t == s)
      {
        n := NextDec(s, n);
        t := Erase(t, toBeMoved[k]) + [toBeMoved[k]];
        mutated := true;
        k := k + 1;
      }
      MovedAll(s, n);
    } else {
      assert s[..i] == s;
    }
  }

  /** Skips to just behind the next decref, which is the next one to move. */
  lemma NextDec(s: Body, n: nat) returns (m: nat)
    requires n <= |s| && Distinct(s) && !NoInc(s) && |Decs(s[..n])| < |Decs(s)|
    ensures n < m <= |s| && |Decs(s[..m])| == |Decs(s[..n])| + 1
    ensures Moved(s, m) == Erase(Moved(s, n), Decs(s)[|Decs(s[..n])|]) + [Decs(s)[|Decs(s[..n])|]]
    decreases |s| - n
  {
    assert s[..|s|] == s;
    assert s[..n + 1][..n] == s[..n];
    MoveNext(s, n);
    if s[n].op.Dec? {
      m := n + 1;
      DecsMonotone(s, m);
      assert Decs(s)[..|Decs(s[..m])|] == Decs(s[..m]);
    } else {
      m := NextDec(s, n + 1);
    }
  }

  method RunOnFunction(f: IrFunction) returns (mutated: bool)
    requires WellFormed(f.body)
    modifies f
    ensures NormalizedTo(old(f.body), f.body)
    ensures WellFormed(f.body) && Normal(f.body)
    ensures mutated <==> exists b :: 0 <= b < |old(f.body).blocks| && Unsettled(old(f.body).blocks[b])
    ensures !mutated ==> f.body == old(f.body)
  {
    mutated := false;
    var b := 0;
    while b < |f.body.blocks|
      invariant 0 <= b <= |f.body.blocks| == |old(f.body).blocks|
      invariant f.body.succs == old(f.body).succs && f.body.defs == old(f.body).defs
      invariant forall c :: 0 <= c < b ==> f.body.blocks[c] == Sorted(old(f.body).blocks[c])
      invariant forall c :: b <= c < |f.body.blocks| ==> f.body.blocks[c] == old(f.body).blocks[c]
      invariant mutated <==> exists c :: 0 <= c < b && Unsettled(old(f.body).blocks[c])
      invariant !mutated ==> f.body == old(f.body)
    {
      var s, moved := NormalizeBlock(f.body.blocks[b]);
      f.body := Replace(f.body, b, s);
      mutated := mutated || moved;
      b := b + 1;
    }
    NormalizeKeeps(old(f.body), f.body);
  }
}
