/** The per-block sub-pass: refops on null are dropped and each incref is
    cancelled against a decref of the same value in the same block. */
module BlockPrune {
  import opened RefCounts
  import opened ControlFlow
  import opened Wrappers

  predicate OnNull(x: Instr) {
    IsRefOp(x) && x.op.arg == Null
  }

  predicate IsRelatedDecref(incref: Instr, x: Instr)
    requires incref.op.Inc?
  {
    x.op == Dec(incref.op.arg)
  }

  /** Nothing is left for the sub-pass to do. */
  ghost predicate Clean(s: Body) {
    && (forall x :: x in s ==> !OnNull(x))
    && (forall x, y :: x in s && y in s && x.op.Inc? ==> !IsRelatedDecref(x, y))
  }

  /** `t` is `s` with refops erased whose contributions cancel, for every object
      and whatever the values denote. */
  ghost predicate BlockKeeps(s: Body, t: Body) {
    && Erased(s, t)
    && (forall env, o :: Net(t, env, o) == Net(s, env, o))
    && (UsesFirst(s) ==> UsesKeepLow(s, t))
  }

  /** Up to any use, the lowest counts are the same. */
  ghost predicate UsesKeepLow(s: Body, t: Body) {
    forall i: nat, j: nat, env, o :: SameUse(s, i, t, j) ==> Low(t[..j], env, o) == Low(s[..i], env, o)
  }

  /** For a block with its increfs first, the lowest count is kept too. */
  lemma BlockKeepsLow(s: Body, t: Body, env: Env, o: Obj)
    requires BlockKeeps(s, t) && IncsFirst(s)
    ensures Low(t, env, o) == Low(s, env, o)
  {
    IncsFirstLow(s, env, o);
    IncsFirstLow(t, env, o);
  }

  lemma EraseErased(s: Body, x: Instr)
    requires x in s && Distinct(s) && IsRefOp(x)
    ensures Erased(s, Erase(s, x))
  {
    var i :| 0 <= i < |s| && s[i] == x;
    EraseIsRemoveAt(s, i);
    RemoveErased(s, i);
  }

  lemma EraseNullKeeps(s: Body, x: Instr)
    requires x in s && Distinct(s) && OnNull(x)
    ensures BlockKeeps(s, Erase(s, x))
  {
    EraseErased(s, x);
    forall env, o ensures Net(Erase(s, x), env, o) == Net(s, env, o) {
      EraseNet(s, x, env, o);
    }
    forall i: nat, j: nat, env, o | SameUse(s, i, Erase(s, x), j) ensures Low(Erase(s, x)[..j], env, o) == Low(s[..i], env, o) {
      NullAheadOfUse(s, x, i, j, env, o);
    }
  }

  lemma NullAheadOfUse(s: Body, x: Instr, i: nat, j: nat, env: Env, o: Obj)
    requires x in s && Distinct(s) && OnNull(x) && SameUse(s, i, Erase(s, x), j)
    ensures Low(Erase(s, x)[..j], env, o) == Low(s[..i], env, o)
  {
    var n :| 0 <= n < |s| && s[n] == x;
    EraseIsRemoveAt(s, n);
    var t := Erase(s, x);
    assert t[j] == if j < n then s[j] else s[j + 1];
    assert i == if j < n then j else j + 1;
    RemoveBehind(s, n, i);
    if i > n {
      hide Erase;
      assert s[..i][n] == x && Delta(x, env, o) == 0;
      SplitAt(s[..i], n, env, o);
      SplitAtNull(s[..i], n, env, o);
    }
  }

  lemma SplitAtNull(s: Body, n: nat, env: Env, o: Obj)
    requires n < |s| && OnNull(s[n])
    ensures Low(RemoveAt(s, n), env, o) == Low(s, env, o)
  {
    SplitAt(s, n, env, o);
  }

  /** In a block whose decrefs are last nothing has been released before a use. */
  lemma NothingReleased(s: Body, i: nat, env: Env, o: Obj)
    requires DecsLast(s) && i < |s| && !IsRefOp(s[i])
    ensures Low(s[..i], env, o) == 0
  {
    NoDecLow(s[..i], env, o);
  }

  lemma ErasePairKeeps(s: Body, x: Instr, y: Instr)
    requires x in s && y in s && Distinct(s) && x.op.Inc? && IsRelatedDecref(x, y)
    ensures y in Erase(s, x) && Distinct(Erase(s, x))
    ensures BlockKeeps(s, Erase(Erase(s, x), y))
  {
    EraseProperties(s, x);
    hide Erase, Net, Erased;
    ErasePairErased(s, x, y);
    forall env, o ensures Net(Erase(Erase(s, x), y), env, o) == Net(s, env, o) {
      EraseNet(s, x, env, o);
      EraseNet(Erase(s, x), y, env, o);
    }
    if UsesFirst(s) {
      PairUses(s, Erase(Erase(s, x), y), x);
    }
  }

  lemma PairUses(s: Body, t: Body, x: Instr)
    requires UsesFirst(s) && x in s && x.op.Inc? && Erased(s, t)
    ensures UsesKeepLow(s, t)
  {
    hide Others, DecsTogether, IncsFirst, Distinct;
    forall i: nat, j: nat, env, o | SameUse(s, i, t, j) ensures Low(t[..j], env, o) == Low(s[..i], env, o) {
      NothingReleased(s, i, env, o);
      NothingReleased(t, j, env, o);
    }
  }

  lemma ErasedTrans(r: Body, s: Body, t: Body)
    requires Erased(r, s) && Erased(s, t)
    ensures Erased(r, t)
  {
    hide Others, Distinct, IncsFirst, DecsTogether, DecsLast, UsesIn;
  }

  lemma ErasePairErased(s: Body, x: Instr, y: Instr)
    requires x in s && y in Erase(s, x) && Distinct(s) && Distinct(Erase(s, x)) && IsRefOp(x) && IsRefOp(y)
    ensures Erased(s, Erase(Erase(s, x), y))
  {
    EraseErased(s, x);
    EraseErased(Erase(s, x), y);
    hide Erase, Others, Distinct, IncsFirst, DecsTogether, DecsLast, UsesIn, IsRefOp;
    ErasedTrans(s, Erase(s, x), Erase(Erase(s, x), y));
  }

  lemma BlockKeepsTrans(r: Body, s: Body, t: Body)
    requires BlockKeeps(r, s) && BlockKeeps(s, t)
    ensures BlockKeeps(r, t)
  {
    hide Others, DecsTogether, DecsLast, IncsFirst, Distinct;
    if UsesFirst(r) {
      ErasedUsesFirst(r, s);
      forall i: nat, j: nat, env, o | SameUse(r, i, t, j) ensures Low(t[..j], env, o) == Low(r[..i], env, o) {
        assert t[j] in s;
        var k :| 0 <= k < |s| && s[k] == t[j];
        assert SameUse(r, i, s, k) && SameUse(s, k, t, j);
      }
    }
  }

  function RefOpsIn(s: Body): nat {
    if s == [] then 0 else RefOpsIn(s[1..]) + (if IsRefOp(s[0]) then 1 else 0)
  }

  lemma {:induction false} EraseRefOps(s: Body, x: Instr)
    requires x in s && IsRefOp(x)
    ensures RefOpsIn(Erase(s, x)) == RefOpsIn(s) - 1
  {
    if s[0] != x {
      EraseRefOps(s[1..], x);
      assert Erase(s, x)[1..] == Erase(s[1..], x);
    }
  }

  method ListNulls(s: Body) returns (nullList: Body)
    requires Distinct(s)
    ensures Distinct(nullList) && forall x :: x in nullList <==> x in s && OnNull(x)
  {
    nullList := [];
    var i := 0;
    while i < |s|
      invariant 0 <= i <= |s| && Distinct(nullList)
      invariant forall x :: x in nullList <==> x in s[..i] && OnNull(x)
    {
      assert s[i] !in s[..i];
      assert s[..i + 1] == s[..i] + [s[i]];
      if OnNull(s[i]) {
        nullList := nullList + [s[i]];
      }
      i := i + 1;
    }
    assert s[..i] == s;
  }

  lemma DropOne(s: Body, t: Body, x: Instr)
    requires x in t && OnNull(x) && Distinct(t) && BlockKeeps(s, t)
    ensures BlockKeeps(s, Erase(t, x)) && Distinct(Erase(t, x)) && RefOpsIn(Erase(t, x)) < RefOpsIn(t)
    ensures forall y :: y in Erase(t, x) <==> y in t && y != x
  {
    EraseNullKeeps(t, x);
    EraseProperties(t, x);
    EraseRefOps(t, x);
    BlockKeepsTrans(s, t, Erase(t, x));
  }

  method DropNulls(s: Body) returns (t: Body, mutated: bool)
    requires Distinct(s)
    ensures BlockKeeps(s, t) && Distinct(t)
    ensures forall x :: x in t <==> x in s && !OnNull(x)
    ensures if mutated then RefOpsIn(t) < RefOpsIn(s) else t == s
  {
    var nullList := ListNulls(s);
    t, mutated := s, false;
    var i := 0;
    while i < |nullList|
      invariant 0 <= i <= |nullList| && Distinct(t) && BlockKeeps(s, t)
      invariant forall x :: x in t <==> x in s && x !in nullList[..i]
      invariant if mutated then RefOpsIn(t) < RefOpsIn(s) else t == s
    {
      assert nullList[i] !in nullList[..i];
      assert nullList[..i + 1] == nullList[..i] + [nullList[i]];
      DropOne(s, t, nullList[i]);
      t := Erase(t, nullList[i]);
      mutated := true;
      i := i + 1;
    }
    assert nullList[..i] == nullList;
  }

  /** The first decref in the list that is still there and matches. */
  method FindRelated(incref: Instr, decs: seq<Option<Instr>>) returns (found: Option<nat>)
    requires incref.op.Inc?
    ensures found.Some? ==>
              found.value < |decs| && decs[found.value].Some? && IsRelatedDecref(incref, decs[found.value].value)
    ensures found.None? ==>
              forall k :: 0 <= k < |decs| && decs[k].Some? ==> !IsRelatedDecref(incref, decs[k].value)
  {
    var i := 0;
    while i < |decs|
      invariant 0 <= i <= |decs|
      invariant forall k :: 0 <= k < i && decs[k].Some? ==> !IsRelatedDecref(incref, decs[k].value)
    {
      if decs[i].Some? && IsRelatedDecref(incref, decs[i].value) {
        return Some(i);
      }
      i := i + 1;
    }
    return None;
  }

  /** The decrefs not yet cancelled are those of the block, each listed once. */
  ghost predicate ListsDecs(decs: seq<Option<Instr>>, t: Body) {
    && (forall k :: 0 <= k < |decs| && decs[k].Some? ==> decs[k].value in t && decs[k].value.op.Dec?)
    && (forall y :: y in t && y.op.Dec? ==> Some(y) in decs)
    && (forall j, k :: 0 <= j < k < |decs| && decs[j].Some? ==> decs[j] != decs[k])
  }

  /** An incref is still to be tried, or nothing in the block matches it. */
  ghost predicate Settled(incs: Body, t: Body) {
    && Distinct(incs)
    && (forall x :: x in incs ==> x in t && x.op.Inc?)
    && (forall x, y :: x in t && x.op.Inc? && y in t && IsRelatedDecref(x, y) ==> x in incs)
  }

  lemma CancelDecs(decs: seq<Option<Instr>>, s: Body, t: Body, x: Instr, k: nat)
    requires ListsDecs(decs, s) && x.op.Inc? && k < |decs| && decs[k].Some?
    requires forall y :: y in t <==> y in s && y != x && y != decs[k].value
    ensures ListsDecs(decs[k := None], t)
  {
    var ds := decs[k := None];
    forall z | z in t && z.op.Dec? ensures Some(z) in ds {
      var j :| 0 <= j < |decs| && decs[j] == Some(z);
      assert ds[j] == Some(z);
    }
  }

  lemma CancelIncs(incs: Body, s: Body, t: Body, x: Instr, y: Instr)
    requires Settled(incs + [x], s) && y.op.Dec?
    requires forall z :: z in t <==> z in s && z != x && z != y
    ensures Settled(incs, t)
  {
    forall j | 0 <= j < |incs| ensures incs[j] in incs + [x] && incs[j] != x {
      assert (incs + [x])[j] != (incs + [x])[|incs|];
    }
    forall i, j | 0 <= i < j < |incs| ensures incs[i] != incs[j] {
      assert (incs + [x])[i] != (incs + [x])[j];
    }
  }

  lemma CancelKeeps(s: Body, t: Body, x: Instr, y: Instr) returns (u: Body)
    requires BlockKeeps(s, t) && Distinct(t) && x in t && y in t && x.op.Inc? && IsRelatedDecref(x, y)
    ensures u == Erase(Erase(t, x), y)
    ensures BlockKeeps(s, u) && Distinct(u) && RefOpsIn(u) < RefOpsIn(t)
    ensures forall z :: z in u <==> z in t && z != x && z != y
  {
    u := Erase(Erase(t, x), y);
    ErasePairKeeps(t, x, y);
    EraseProperties(t, x);
    EraseProperties(Erase(t, x), y);
    EraseRefOps(t, x);
    EraseRefOps(Erase(t, x), y);
    BlockKeepsTrans(s, t, u);
  }

  lemma Unmatched(incs: Body, s: Body, x: Instr, decs: seq<Option<Instr>>)
    requires x.op.Inc? && Settled(incs + [x], s) && ListsDecs(decs, s)
    requires forall k :: 0 <= k < |decs| && decs[k].Some? ==> !IsRelatedDecref(x, decs[k].value)
    ensures Settled(incs, s)
  {
    forall z | z in incs ensures z in s && z.op.Inc? {
      assert z in incs + [x];
    }
    forall i, j | 0 <= i < j < |incs| ensures incs[i] != incs[j] {
      assert (incs + [x])[i] != (incs + [x])[j];
    }
    forall z, y | z in s && z.op.Inc? && y in s && IsRelatedDecref(z, y) ensures z in incs {
      assert z in incs + [x] && Some(y) in decs;
    }
  }

  method PruneBlock(s: Body) returns (t: Body, mutated: bool)
    requires Distinct(s)
    ensures BlockKeeps(s, t) && Distinct(t) && Clean(t)
    ensures if mutated then RefOpsIn(t) < RefOpsIn(s) else t == s
  {
    hide BlockKeeps, RefOpsIn, Erase, Distinct;
    t, mutated := DropNulls(s);
    var incs, decs := ListBlockOps(t);
    while |incs| > 0
      invariant BlockKeeps(s, t) && Distinct(t)
      invariant forall x :: x in t ==> !OnNull(x)
      invariant ListsDecs(decs, t) && Settled(incs, t)
      invariant if mutated then RefOpsIn(t) < RefOpsIn(s) else t == s
      decreases |incs|
    {
      var incref, rest := incs[|incs| - 1], incs[..|incs| - 1];
      assert incs == rest + [incref];
      var found := FindRelated(incref, decs);
      if found.Some? {
        var y := decs[found.value].value;
        assert incref in rest + [incref];
        ghost var u := CancelKeeps(s, t, incref, y);
        CancelDecs(decs, t, u, incref, found.value);
        CancelIncs(rest, t, u, incref, y);
        t := Erase(Erase(t, incref), y);
        decs := decs[found.value := None];
        mutated := true;
      } else {
        Unmatched(rest, t, incref, decs);
      }
      incs := rest;
    }
  }

  method ListBlockOps(s: Body) returns (incs: Body, decs: seq<Option<Instr>>)
    requires Distinct(s)
    ensures ListsDecs(decs, s) && Settled(incs, s)
  {
    incs, decs := [], [];
    var i := 0;
    while i < |s|
      invariant 0 <= i <= |s| && Distinct(incs)
      invariant forall x :: x in incs <==> x in s[..i] && x.op.Inc?
      invariant forall k :: 0 <= k < |decs| ==> decs[k].Some? && decs[k].value in s[..i] && decs[k].value.op.Dec?
      invariant forall y :: y in s[..i] && y.op.Dec? ==> Some(y) in decs
      invariant forall j, k :: 0 <= j < k < |decs| ==> decs[j] != decs[k]
    {
      assert s[i] !in s[..i];
      assert s[..i + 1] == s[..i] + [s[i]];
      if s[i].op.Inc? {
        incs := incs + [s[i]];
      } else if s[i].op.Dec? {
        decs := decs + [Some(s[i])];
      }
      i := i + 1;
    }
    assert s[..i] == s;
  }
}
