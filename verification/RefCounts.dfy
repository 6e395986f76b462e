/** Straight-line reference counting: what a sequence of instructions does to
    the count of one object, and how that changes when an incref and a decref
    are erased. */
module RefCounts {
  import opened Numbers

  /** An SSA value used as the argument of a refop. `Null` is the constant null
      pointer, on which a refop does nothing. */
  datatype Value = Null | Ssa(id: nat)

  /** `Raise` stores to `%excinfo` with the exception metadata. */
  datatype Op = Inc(arg: Value) | Dec(arg: Value) | Raise | Other

  /** `id` is the identity of the instruction object: two calls with the same
      argument are still different instructions. */
  datatype Instr = Instr(id: nat, op: Op)

  type Body = seq<Instr>
  type Obj = nat

  /** The object each value denotes during one visit of a block. Several values
      may denote the same object. */
  type Env = Value -> Obj

  predicate IsRefOp(i: Instr) {
    i.op.Inc? || i.op.Dec?
  }

  /** What one instruction adds to the count of `o`. */
  ghost function Delta(i: Instr, env: Env, o: Obj): int {
    match i.op
    case Inc(v) => if v != Null && env(v) == o then 1 else 0
    case Dec(v) => if v != Null && env(v) == o then -1 else 0
    case _ => 0
  }

  /** The change of the count of `o` over the whole sequence. */
  ghost function Net(s: Body, env: Env, o: Obj): int {
    if s == [] then 0 else Net(s[..|s| - 1], env, o) + Delta(s[|s| - 1], env, o)
  }

  /** The lowest value the count of `o` takes, relative to where it started. */
  ghost function Low(s: Body, env: Env, o: Obj): int {
    if s == [] then 0 else Min(Low(s[..|s| - 1], env, o), Net(s, env, o))
  }

  ghost predicate NoDec(s: Body) {
    forall i :: 0 <= i < |s| ==> !s[i].op.Dec?
  }

  ghost predicate NoInc(s: Body) {
    forall i :: 0 <= i < |s| ==> !s[i].op.Inc?
  }

  /** The form that normalisation establishes. */
  ghost predicate IncsFirst(s: Body) {
    forall i, j :: 0 <= i < j < |s| && s[i].op.Dec? ==> !s[j].op.Inc?
  }

  /** Behind a decref stand only refops. */
  ghost predicate DecsLast(s: Body) {
    forall i, j :: 0 <= i < j < |s| && s[i].op.Dec? ==> IsRefOp(s[j])
  }

  /** Between two decrefs stand only refops. */
  ghost predicate DecsTogether(s: Body) {
    forall i, j, k :: 0 <= i < j < k < |s| && s[i].op.Dec? && s[k].op.Dec? ==> IsRefOp(s[j])
  }

  /** The form in which erasing a decref moves no release ahead of a use. */
  ghost predicate UsesFirst(s: Body) {
    DecsTogether(s) && (NoInc(s) || DecsLast(s))
  }

  /** One instruction that is no refop, at index `i` of one block and `j` of the other. */
  ghost predicate SameUse(s: Body, i: nat, t: Body, j: nat) {
    i < |s| && j < |t| && s[i] == t[j] && !IsRefOp(s[i])
  }

  ghost predicate Distinct(s: Body) {
    forall i, j :: 0 <= i < j < |s| ==> s[i] != s[j]
  }

  function RemoveAt(s: Body, i: nat): Body
    requires i < |s|
  {
    s[..i] + s[i + 1..]
  }

  lemma {:induction false} NetConcat(a: Body, b: Body, env: Env, o: Obj)
    ensures Net(a + b, env, o) == Net(a, env, o) + Net(b, env, o)
  {
    if b == [] {
      assert a + b == a;
    } else {
      assert (a + b)[..|a + b| - 1] == a + b[..|b| - 1];
      NetConcat(a, b[..|b| - 1], env, o);
    }
  }

  lemma {:induction false} LowConcat(a: Body, b: Body, env: Env, o: Obj)
    ensures Low(a + b, env, o) == Min(Low(a, env, o), Net(a, env, o) + Low(b, env, o))
  {
    if b == [] {
      assert a + b == a;
      LowBounds(a, env, o);
    } else {
      assert (a + b)[..|a + b| - 1] == a + b[..|b| - 1];
      LowConcat(a, b[..|b| - 1], env, o);
      NetConcat(a, b, env, o);
    }
  }

  lemma {:induction false} LowBounds(s: Body, env: Env, o: Obj)
    ensures Low(s, env, o) <= 0 && Low(s, env, o) <= Net(s, env, o)
  {
    if s != [] {
      LowBounds(s[..|s| - 1], env, o);
    }
  }

  lemma {:induction false} NoDecLow(s: Body, env: Env, o: Obj)
    requires NoDec(s)
    ensures Low(s, env, o) == 0 && Net(s, env, o) >= 0
  {
    if s != [] {
      NoDecLow(s[..|s| - 1], env, o);
    }
  }

  /** A sequence that only rises and then only falls is lowest at an end. */
  lemma {:induction false} IncsFirstLow(s: Body, env: Env, o: Obj)
    requires IncsFirst(s)
    ensures Low(s, env, o) == Min(0, Net(s, env, o))
  {
    if s != [] {
      var t := s[..|s| - 1];
      IncsFirstLow(t, env, o);
      if s[|s| - 1].op.Inc? {
        forall i | 0 <= i < |t| ensures !t[i].op.Dec? {
          assert t[i] == s[i];
        }
        NoDecLow(t, env, o);
      }
    }
  }

  lemma SingleCounts(x: Instr, env: Env, o: Obj)
    ensures Net([x], env, o) == Delta(x, env, o)
    ensures Low([x], env, o) == Min(0, Delta(x, env, o))
  {
    assert [x][..0] == [];
    assert Net([x][..0], env, o) == 0 && Low([x][..0], env, o) == 0;
  }

  /** Net and lowest count of a sequence split around one instruction. */
  lemma SplitAt(s: Body, i: nat, env: Env, o: Obj)
    requires i < |s|
    ensures Net(s, env, o) == Net(s[..i], env, o) + Delta(s[i], env, o) + Net(s[i + 1..], env, o)
    ensures Net(RemoveAt(s, i), env, o) == Net(s[..i], env, o) + Net(s[i + 1..], env, o)
    ensures Low(s, env, o)
            == Min(Low(s[..i], env, o),
                   Net(s[..i], env, o) + Delta(s[i], env, o) + Low(s[i + 1..], env, o))
    ensures Low(RemoveAt(s, i), env, o)
            == Min(Low(s[..i], env, o), Net(s[..i], env, o) + Low(s[i + 1..], env, o))
  {
    hide Net, Low, Delta;
    var a, x, c := s[..i], [s[i]], s[i + 1..];
    assert s == a + x + c;
    SingleCounts(s[i], env, o);
    NetConcat(a, x, env, o);
    NetConcat(a + x, c, env, o);
    NetConcat(a, c, env, o);
    LowConcat(a, x, env, o);
    LowConcat(a + x, c, env, o);
    LowConcat(a, c, env, o);
    LowBounds(a, env, o);
    LowBounds(c, env, o);
  }

  /** Erases the first occurrence of an instruction object. */
  function Erase(s: Body, x: Instr): (t: Body)
    ensures x !in s ==> t == s
  {
    if s == [] then [] else if s[0] == x then s[1..] else [s[0]] + Erase(s[1..], x)
  }

  lemma {:induction false} EraseIsRemoveAt(s: Body, i: nat)
    requires i < |s| && Distinct(s)
    ensures Erase(s, s[i]) == RemoveAt(s, i)
  {
    if i > 0 {
      assert s[0] != s[i];
      EraseIsRemoveAt(s[1..], i - 1);
      assert [s[0]] + RemoveAt(s[1..], i - 1) == RemoveAt(s, i);
    }
  }

  lemma RemoveMembers(s: Body, i: nat)
    requires i < |s| && Distinct(s)
    ensures forall y :: y in RemoveAt(s, i) <==> y in s && y != s[i]
  {
    var t := RemoveAt(s, i);
    forall y | y in s && y != s[i] ensures y in t {
      var k :| 0 <= k < |s| && s[k] == y;
      assert t[if k < i then k else k - 1] == y;
    }
  }

  lemma EraseProperties(s: Body, x: Instr)
    requires x in s && Distinct(s)
    ensures |Erase(s, x)| == |s| - 1 && Distinct(Erase(s, x))
    ensures forall y :: y in Erase(s, x) <==> y in s && y != x
  {
    var i :| 0 <= i < |s| && s[i] == x;
    EraseIsRemoveAt(s, i);
    RemoveMembers(s, i);
  }

  lemma EraseNet(s: Body, x: Instr, env: Env, o: Obj)
    requires x in s && Distinct(s)
    ensures Net(Erase(s, x), env, o) == Net(s, env, o) - Delta(x, env, o)
  {
    var i :| 0 <= i < |s| && s[i] == x;
    EraseIsRemoveAt(s, i);
    SplitAt(s, i, env, o);
  }

  lemma RemoveKeepsUsesFirst(s: Body, i: nat)
    requires i < |s|
    ensures DecsTogether(s) ==> DecsTogether(RemoveAt(s, i))
    ensures DecsLast(s) ==> DecsLast(RemoveAt(s, i))
  {
  }

  lemma RemoveKeepsOrder(s: Body, i: nat)
    requires i < |s|
    ensures IncsFirst(s) ==> IncsFirst(RemoveAt(s, i))
    ensures Distinct(s) ==> Distinct(RemoveAt(s, i))
  {
  }

  /** Nothing that is erased behind a use changes the counts before it. */
  lemma RemoveBehind(s: Body, n: nat, i: nat)
    requires n < |s| && i < |s| && i != n
    ensures i < n ==> RemoveAt(s, n)[..i] == s[..i] && RemoveAt(s, n)[i] == s[i]
    ensures i > n ==> RemoveAt(s, n)[..i - 1] == RemoveAt(s[..i], n) && RemoveAt(s, n)[i - 1] == s[i]
  {
  }

  /** A sequence of instructions that never raise the count is lowest at its end. */
  lemma {:induction false} OnlyFalls(s: Body, env: Env, o: Obj, k: nat)
    requires forall x :: x in s ==> Delta(x, env, o) <= 0
    ensures Low(s, env, o) == Net(s, env, o) <= 0
    ensures k < |s| ==> Net(s, env, o) <= Delta(s[k], env, o)
  {
    if s != [] {
      OnlyFalls(s[..|s| - 1], env, o, k);
    }
  }

  /** A decref erased from a block that is entered with its count already one
      lower: the block reaches the same lowest count as before. `m` is the
      lowest count seen so far and `c` the (lowered) count on entry. */
  lemma LoweredBlockLow(s: Body, i: nat, env: Env, o: Obj, m: int, c: int)
    requires i < |s| && s[i].op.Dec? && IncsFirst(s)
    requires m <= c
    ensures Min(m, c - Delta(s[i], env, o) + Low(s, env, o)) == Min(m, c + Low(RemoveAt(s, i), env, o))
  {
    hide Net, Low, Delta;
    SplitAt(s, i, env, o);
    DecDelta(s[i], env, o);
    var a := s[..i];
    forall x, y | 0 <= x < y < |a| && a[x].op.Dec? ensures !a[y].op.Inc? {
      assert a[x] == s[x] && a[y] == s[y];
    }
    IncsFirstLow(a, env, o);
    LowBounds(s[i + 1..], env, o);
  }

  lemma DecDelta(x: Instr, env: Env, o: Obj)
    requires x.op.Dec?
    ensures -1 <= Delta(x, env, o) <= 0
  {
  }
}
