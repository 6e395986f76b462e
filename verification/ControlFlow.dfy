/** Functions as control-flow graphs, their paths, and the count of an object
    along a path. Block 0 is the entry block. */
module ControlFlow {
  import opened RefCounts
  import opened Numbers

  /** `succs[b]` lists the successors of block `b`'s terminator and `defs[b]`
      the SSA values that block `b` defines. */
  datatype Cfg = Cfg(blocks: seq<Body>, succs: seq<seq<nat>>, defs: seq<set<Value>>)

  type Path = seq<nat>

  ghost predicate WellFormed(g: Cfg) {
    && |g.blocks| > 0
    && |g.succs| == |g.blocks| == |g.defs|
    && (forall b, i :: 0 <= b < |g.succs| && 0 <= i < |g.succs[b]| ==> g.succs[b][i] < |g.blocks|)
    && (forall b :: 0 <= b < |g.blocks| ==> Distinct(g.blocks[b]))
  }

  ghost predicate Normal(g: Cfg) {
    forall b :: 0 <= b < |g.blocks| ==> IncsFirst(g.blocks[b])
  }

  ghost predicate AllUsesFirst(g: Cfg) {
    forall b :: 0 <= b < |g.blocks| ==> UsesFirst(g.blocks[b])
  }

  predicate Edge(g: Cfg, b: nat, c: nat) {
    b < |g.succs| && c in g.succs[b]
  }

  /** A path that control can take from the start of the function. */
  ghost predicate IsPath(g: Cfg, p: Path) {
    && |p| > 0
    && p[0] == 0
    && (forall k :: 0 <= k < |p| ==> p[k] < |g.blocks|)
    && (forall k :: 0 < k < |p| ==> Edge(g, p[k - 1], p[k]))
  }

  /** A path that runs from entry to an exit. */
  ghost predicate Complete(g: Cfg, p: Path) {
    IsPath(g, p) && p[|p| - 1] < |g.succs| && g.succs[p[|p| - 1]] == []
  }

  ghost predicate Avoids(p: Path, bad: set<nat>) {
    forall k :: 0 <= k < |p| ==> p[k] !in bad
  }

  ghost predicate UsesIn(s: Body, v: Value) {
    exists i :: 0 <= i < |s| && IsRefOp(s[i]) && s[i].op.arg == v
  }

  /** The SSA rule, for the uses that matter here: a value has one defining
      block, and every path to a refop on the value has visited that block. */
  ghost predicate DefsDominate(g: Cfg) {
    && |g.defs| == |g.blocks|
    && (forall d, e, v :: 0 <= d < |g.defs| && 0 <= e < |g.defs| && v in g.defs[d] && v in g.defs[e] ==> d == e)
    && (forall p, d, v ::
          IsPath(g, p) && 0 <= d < |g.defs| && v in g.defs[d] && UsesIn(g.blocks[p[|p| - 1]], v)
          ==> d in p)
  }

  /** A value keeps denoting the same object until its block defines it again. */
  ghost predicate Flows(g: Cfg, p: Path, envs: seq<Env>) {
    forall k, v ::
      0 < k < |p| && k < |envs| && p[k] < |g.defs| && v !in g.defs[p[k]] ==> envs[k](v) == envs[k - 1](v)
  }

  ghost predicate Fixed(envs: seq<Env>) {
    forall j, k, v :: 0 <= j < |envs| && 0 <= k < |envs| ==> envs[j](v) == envs[k](v)
  }

  /** An execution: the path taken and what each value denotes at each visit.
      Either the function obeys the SSA rule, or counts are kept per value
      rather than per object, so that nothing is ever rebound. */
  ghost predicate Execution(g: Cfg, p: Path, envs: seq<Env>) {
    && IsPath(g, p)
    && |envs| == |p|
    && (Fixed(envs) || (DefsDominate(g) && Flows(g, p, envs)))
  }

  /** The change of the count of `o` over the first `k` blocks of a path. */
  ghost function PathNet(g: Cfg, p: Path, envs: seq<Env>, k: nat, o: Obj): int
    requires k <= |p| && |p| == |envs|
    requires forall i :: 0 <= i < |p| ==> p[i] < |g.blocks|
  {
    if k == 0 then 0
    else PathNet(g, p, envs, k - 1, o) + Net(g.blocks[p[k - 1]], envs[k - 1], o)
  }

  /** The lowest count of `o` over the first `k` blocks of a path. */
  ghost function PathLow(g: Cfg, p: Path, envs: seq<Env>, k: nat, o: Obj): int
    requires k <= |p| && |p| == |envs|
    requires forall i :: 0 <= i < |p| ==> p[i] < |g.blocks|
  {
    if k == 0 then 0
    else Min(PathLow(g, p, envs, k - 1, o),
             PathNet(g, p, envs, k - 1, o) + Low(g.blocks[p[k - 1]], envs[k - 1], o))
  }

  lemma {:induction false} PathLowBounds(g: Cfg, p: Path, envs: seq<Env>, k: nat, o: Obj)
    requires k <= |p| && |p| == |envs|
    requires forall i :: 0 <= i < |p| ==> p[i] < |g.blocks|
    ensures PathLow(g, p, envs, k, o) <= 0
    ensures PathLow(g, p, envs, k, o) <= PathNet(g, p, envs, k, o)
  {
    if k > 0 {
      PathLowBounds(g, p, envs, k - 1, o);
      LowBounds(g.blocks[p[k - 1]], envs[k - 1], o);
    }
  }

  function Replace(g: Cfg, b: nat, s: Body): Cfg
    requires b < |g.blocks|
  {
    g.(blocks := g.blocks[b := s])
  }

  /** `h` differs from `g` only by refops that were erased. */
  ghost predicate SameShape(g: Cfg, h: Cfg) {
    && h.succs == g.succs && h.defs == g.defs && |h.blocks| == |g.blocks|
    && (forall b :: 0 <= b < |g.blocks| ==> Erased(g.blocks[b], h.blocks[b]))
  }

  /** `t` keeps the instructions of `s` in order, up to refops. */
  ghost predicate Erased(s: Body, t: Body) {
    && (forall v :: UsesIn(t, v) ==> UsesIn(s, v))
    && (IncsFirst(s) ==> IncsFirst(t))
    && (DecsTogether(s) ==> DecsTogether(t)) && (DecsLast(s) ==> DecsLast(t))
    && (Distinct(s) ==> Distinct(t))
    && Others(s) == Others(t)
    && (forall i :: 0 <= i < |t| ==> t[i] in s)
  }

  /** The instructions that are not refops. */
  ghost function Others(s: Body): Body {
    if s == [] then []
    else if IsRefOp(s[|s| - 1]) then Others(s[..|s| - 1])
    else Others(s[..|s| - 1]) + [s[|s| - 1]]
  }

  lemma {:induction false} OthersConcat(a: Body, b: Body)
    ensures Others(a + b) == Others(a) + Others(b)
  {
    if b == [] {
      assert a + b == a;
    } else {
      assert (a + b)[..|a + b| - 1] == a + b[..|b| - 1];
      OthersConcat(a, b[..|b| - 1]);
    }
  }

  lemma RemoveOthers(s: Body, i: nat)
    requires i < |s| && IsRefOp(s[i])
    ensures Others(RemoveAt(s, i)) == Others(s)
  {
    assert s == s[..i] + [s[i]] + s[i + 1..];
    OthersConcat(s[..i], [s[i]]);
    OthersConcat(s[..i] + [s[i]], s[i + 1..]);
    OthersConcat(s[..i], s[i + 1..]);
    assert [s[i]][..0] == [];
  }

  lemma RemoveUses(s: Body, i: nat)
    requires i < |s|
    ensures forall v :: UsesIn(RemoveAt(s, i), v) ==> UsesIn(s, v)
    ensures forall k :: 0 <= k < |RemoveAt(s, i)| ==> RemoveAt(s, i)[k] in s
  {
    var t := RemoveAt(s, i);
    forall k | 0 <= k < |t| ensures t[k] in s {
      assert t[k] == if k < i then s[k] else s[k + 1];
    }
    forall v | UsesIn(t, v) ensures UsesIn(s, v) {
      var k :| 0 <= k < |t| && IsRefOp(t[k]) && t[k].op.arg == v;
      assert t[k] in s;
    }
  }

  lemma RemoveErased(s: Body, i: nat)
    requires i < |s| && IsRefOp(s[i])
    ensures Erased(s, RemoveAt(s, i))
  {
    RemoveOthers(s, i);
    RemoveUses(s, i);
    RemoveKeepsUsesFirst(s, i);
    RemoveKeepsOrder(s, i);
    hide Others, UsesIn, DecsTogether, DecsLast, IncsFirst, Distinct, RemoveAt;
  }

  lemma ErasedUsesFirst(s: Body, t: Body)
    requires Erased(s, t) && UsesFirst(s)
    ensures UsesFirst(t)
  {
    hide DecsTogether, DecsLast, Distinct, IncsFirst, Others;
  }

  lemma SameShapeRefl(g: Cfg)
    ensures SameShape(g, g)
  {
  }

  lemma SameShapeTrans(f: Cfg, g: Cfg, h: Cfg)
    requires SameShape(f, g) && SameShape(g, h)
    ensures SameShape(f, h)
  {
    hide DecsTogether, DecsLast, Distinct, IncsFirst, Others;
    forall b | 0 <= b < |f.blocks| ensures Erased(f.blocks[b], h.blocks[b]) {
      assert Erased(f.blocks[b], g.blocks[b]) && Erased(g.blocks[b], h.blocks[b]);
    }
  }

  lemma SameShapeReplace(g: Cfg, b: nat, s: Body)
    requires b < |g.blocks| && Erased(g.blocks[b], s)
    ensures SameShape(g, Replace(g, b, s))
  {
  }

  /** Erasing refops leaves the paths, the normal form and the SSA rule. */
  lemma SameShapeKeeps(g: Cfg, h: Cfg)
    requires SameShape(g, h) && WellFormed(g)
    ensures WellFormed(h)
    ensures Normal(g) ==> Normal(h)
    ensures AllUsesFirst(g) ==> AllUsesFirst(h)
    ensures DefsDominate(g) ==> DefsDominate(h)
    ensures forall p :: IsPath(g, p) <==> IsPath(h, p)
  {
    assert forall p :: IsPath(g, p) <==> IsPath(h, p);
    if AllUsesFirst(g) {
      forall b | 0 <= b < |h.blocks| ensures UsesFirst(h.blocks[b]) {
        ErasedUsesFirst(g.blocks[b], h.blocks[b]);
      }
    }
    if DefsDominate(g) {
      forall p, d, v | IsPath(h, p) && 0 <= d < |h.defs| && v in h.defs[d]
                       && UsesIn(h.blocks[p[|p| - 1]], v)
        ensures d in p
      {
        assert IsPath(g, p) && Erased(g.blocks[p[|p| - 1]], h.blocks[p[|p| - 1]]);
      }
    }
  }
}
