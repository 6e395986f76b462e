/** The three graph searches of the pruner and the certificates they produce. */
module GraphSearch {
  import opened RefCounts
  import opened ControlFlow
  import opened Subgraph

  predicate IsRaising(s: Body) {
    exists i :: 0 <= i < |s| && s[i].op.Raise?
  }

  ghost function Raising(g: Cfg): set<nat> {
    set b: nat | b < |g.blocks| && IsRaising(g.blocks[b])
  }

  predicate HasAnyDecref(s: Body) {
    exists i :: 0 <= i < |s| && s[i].op.Dec?
  }

  predicate HasRelatedDecref(s: Body, v: Value) {
    exists i :: 0 <= i < |s| && s[i].op == Dec(v)
  }

  function Preds(g: Cfg, n: nat, upTo: nat): (r: seq<nat>)
    ensures forall m: nat :: m in r <==> m < upTo && Edge(g, m, n)
  {
    if upTo == 0 then []
    else Preds(g, n, upTo - 1) + (if Edge(g, upTo - 1, n) then [upTo - 1] else [])
  }

  // ---- Backward walk ----

  /** The blocks the backward walk forgives. */
  ghost function Skipped(g: Cfg, pruneRaise: bool): set<nat> {
    if pruneRaise then Raising(g) else {}
  }

  /** The part of the certificate that holds part way through the walk: `work`
      holds the blocks whose predecessors have still to be looked at. */
  ghost predicate BackwardSoFar(g: Cfg, head: nat, tails: set<nat>, pruneRaise: bool,
                                visited: set<nat>, work: set<nat>) {
    && (forall n :: n in visited ==> n < |g.blocks|)
    && (forall n :: n in work ==> n < |g.blocks|)
    && 0 !in visited
    && (forall n, m :: n in visited && Edge(g, m, n)
          ==> m !in tails && (m == head || m in visited || m in work || m in Skipped(g, pruneRaise)))
  }

  /** Every certificate contains what the walk has visited, so a walk that fails
      shows that there is none. */
  ghost predicate WithinAny(g: Cfg, head: nat, tails: set<nat>, pruneRaise: bool, some: set<nat>) {
    forall behind :: OnlyFromHead(g, head, tails, Skipped(g, pruneRaise), behind)
      ==> some <= behind + Skipped(g, pruneRaise)
  }

  /** One block of the walk: its predecessors are pushed unless one is a tail. */
  method VisitPreds(g: Cfg, head: nat, tails: set<nat>, cur: nat, workstack: seq<nat>)
    returns (ok: bool, stack: seq<nat>)
    requires WellFormed(g)
    ensures ok ==> forall m: nat :: Edge(g, m, cur) ==> m !in tails && (m == head || m in stack)
    ensures !ok ==> exists m: nat :: Edge(g, m, cur) && m in tails
    ensures forall m: nat :: m in workstack ==> m in stack
    ensures forall m: nat :: m in stack ==> m in workstack || (Edge(g, m, cur) && m != head)
  {
    ok, stack := true, workstack;
    var preds := Preds(g, cur, |g.succs|);
    var i := 0;
    while i < |preds|
      invariant 0 <= i <= |preds|
      invariant forall m :: m in preds[..i] ==> m !in tails && (m == head || m in stack)
      invariant forall m :: m in workstack ==> m in stack
      invariant forall m :: m in stack ==> m in workstack || (Edge(g, m, cur) && m != head)
    {
      assert preds[..i + 1] == preds[..i] + [preds[i]];
      assert preds[i] in preds;
      if preds[i] in tails {
        return false, stack;
      }
      if preds[i] != head {
        stack := stack + [preds[i]];
      }
      i := i + 1;
    }
    assert preds[..i] == preds;
  }

  ghost function Elements(s: seq<nat>): set<nat> {
    set n | n in s
  }

  ghost function UpTo(n: nat): (s: set<nat>)
    ensures forall m: nat :: m in s <==> m < n
  {
    if n == 0 then {} else UpTo(n - 1) + {n - 1}
  }

  ghost function Blocks(g: Cfg): set<nat> {
    UpTo(|g.blocks|)
  }

  /** What holds in the middle of the walk. */
  ghost predicate Walking(g: Cfg, head: nat, tails: set<nat>, pruneRaise: bool,
                          visited: set<nat>, workstack: seq<nat>) {
    && BackwardSoFar(g, head, tails, pruneRaise, visited, Elements(workstack))
    && WithinAny(g, head, tails, pruneRaise, visited + Elements(workstack))
  }

  lemma PopKnown(g: Cfg, head: nat, tails: set<nat>, pruneRaise: bool, visited: set<nat>,
                 rest: seq<nat>, cur: nat)
    requires WellFormed(g) && Walking(g, head, tails, pruneRaise, visited, rest + [cur])
    requires cur in visited || cur in Skipped(g, pruneRaise)
    ensures Walking(g, head, tails, pruneRaise, visited, rest)
  {
    assert Elements(rest + [cur]) == Elements(rest) + {cur};
  }

  lemma PopNew(g: Cfg, head: nat, tails: set<nat>, pruneRaise: bool, visited: set<nat>,
               rest: seq<nat>, cur: nat, pushed: seq<nat>)
    requires WellFormed(g) && Walking(g, head, tails, pruneRaise, visited, rest + [cur])
    requires cur != 0 && cur !in Skipped(g, pruneRaise)
    requires forall m: nat :: Edge(g, m, cur) ==> m !in tails && (m == head || m in pushed)
    requires forall m: nat :: m in rest ==> m in pushed
    requires forall m: nat :: m in pushed ==> m in rest || (Edge(g, m, cur) && m != head)
    ensures Walking(g, head, tails, pruneRaise, visited + {cur}, pushed)
  {
    var avoid := Skipped(g, pruneRaise);
    assert Elements(rest + [cur]) == Elements(rest) + {cur};
    forall m | m in Elements(pushed) ensures m < |g.blocks| {
      assert m in rest ==> m in Elements(rest + [cur]);
    }
    forall b | OnlyFromHead(g, head, tails, avoid, b)
      ensures visited + {cur} + Elements(pushed) <= b + avoid
    {
      assert visited + (Elements(rest) + {cur}) <= b + avoid;
      assert cur in b;
      forall m | m in Elements(pushed) ensures m in b + avoid {
        if m in rest {
          assert m in Elements(rest);
        }
      }
    }
  }

  lemma PopFails(g: Cfg, head: nat, tails: set<nat>, pruneRaise: bool, visited: set<nat>,
                 rest: seq<nat>, cur: nat)
    requires WellFormed(g) && Walking(g, head, tails, pruneRaise, visited, rest + [cur])
    requires cur !in Skipped(g, pruneRaise)
    requires cur == 0 || exists m: nat :: Edge(g, m, cur) && m in tails
    ensures forall b :: !OnlyFromHead(g, head, tails, Skipped(g, pruneRaise), b)
  {
    assert cur in Elements(rest + [cur]);
    forall b ensures !OnlyFromHead(g, head, tails, Skipped(g, pruneRaise), b) {
      assert OnlyFromHead(g, head, tails, Skipped(g, pruneRaise), b) ==> cur in b;
    }
  }

  /** Accepts exactly when the walks back from the tails all end at the head:
      `behind` is the certificate, and there is none if the walk fails. */
  method VerifyFanoutBackward(g: Cfg, head: nat, tails: set<nat>, pruneRaise: bool)
    returns (ok: bool, ghost behind: set<nat>)
    requires WellFormed(g) && forall t :: t in tails ==> t < |g.blocks|
    ensures ok ==> OnlyFromHead(g, head, tails, Skipped(g, pruneRaise), behind)
    ensures !ok ==> forall b :: !OnlyFromHead(g, head, tails, Skipped(g, pruneRaise), b)
  {
    hide Walking, OnlyFromHead, Raising;
    StartWalk(g, head, tails, pruneRaise);
    behind := {};
    var todo, visited: set<nat> := tails, {};
    while todo != {}
      invariant todo <= tails
      invariant Walking(g, head, tails, pruneRaise, visited, [])
      invariant tails - todo <= visited + Skipped(g, pruneRaise)
      decreases todo
    {
      var t :| t in todo;
      todo := todo - {t};
      var workstack: seq<nat> := [t];
      ghost var from := visited;
      assert tails - todo <= from + Skipped(g, pruneRaise) + {t};
      StartTail(g, head, tails, pruneRaise, visited, t);
      while |workstack| > 0
        invariant Walking(g, head, tails, pruneRaise, visited, workstack)
        invariant from <= visited
        invariant t in workstack || t in visited + Skipped(g, pruneRaise)
        decreases Blocks(g) - visited, |workstack|
      {
        var cur, rest := workstack[|workstack| - 1], workstack[..|workstack| - 1];
        assert workstack == rest + [cur];
        WalkingBounds(g, head, tails, pruneRaise, visited, workstack, cur);
        if (pruneRaise && IsRaising(g.blocks[cur])) || cur in visited {
          PopKnown(g, head, tails, pruneRaise, visited, rest, cur);
          workstack := rest;
          continue;
        }
        if cur == 0 {
          PopFails(g, head, tails, pruneRaise, visited, rest, cur);
          return false, {};
        }
        var more, pushed := VisitPreds(g, head, tails, cur, rest);
        if !more {
          PopFails(g, head, tails, pruneRaise, visited, rest, cur);
          return false, {};
        }
        PopNew(g, head, tails, pruneRaise, visited, rest, cur, pushed);
        workstack := pushed;
        visited := visited + {cur};
      }
    }
    behind := visited;
    EndWalk(g, head, tails, pruneRaise, visited);
    return true, behind;
  }

  lemma StartWalk(g: Cfg, head: nat, tails: set<nat>, pruneRaise: bool)
    ensures Walking(g, head, tails, pruneRaise, {}, [])
  {
    assert {} + Elements([]) == {};
  }

  lemma EndWalk(g: Cfg, head: nat, tails: set<nat>, pruneRaise: bool, visited: set<nat>)
    requires Walking(g, head, tails, pruneRaise, visited, []) && tails <= visited + Skipped(g, pruneRaise)
    ensures OnlyFromHead(g, head, tails, Skipped(g, pruneRaise), visited)
  {
  }

  lemma WalkingBounds(g: Cfg, head: nat, tails: set<nat>, pruneRaise: bool, visited: set<nat>,
                      workstack: seq<nat>, cur: nat)
    requires Walking(g, head, tails, pruneRaise, visited, workstack) && cur in workstack
    ensures cur < |g.blocks| && cur in Blocks(g)
    ensures pruneRaise && IsRaising(g.blocks[cur]) <==> cur in Skipped(g, pruneRaise)
  {
    assert cur in Elements(workstack);
  }

  lemma StartTail(g: Cfg, head: nat, tails: set<nat>, pruneRaise: bool, visited: set<nat>, t: nat)
    requires WellFormed(g) && Walking(g, head, tails, pruneRaise, visited, [])
    requires t in tails && t < |g.blocks|
    ensures Walking(g, head, tails, pruneRaise, visited, [t])
  {
    assert visited + Elements([]) == visited;
    assert Elements([t]) == {t};
  }

  // ---- Search between head and tail ----

  /** What holds in the middle of the search. */
  ghost predicate Searching(g: Cfg, head: nat, tail: nat, visited: set<nat>, stack: seq<nat>) {
    && (forall n :: n in visited ==> n < |g.blocks| && NoDec(g.blocks[n]))
    && (forall n :: n in stack ==> n < |g.blocks|)
    && (head in visited || head in stack)
    && (forall n, s :: n in visited && Edge(g, n, s) ==> s == tail || s in visited || s in stack)
    && (forall r :: QuietUntil(g, head, tail, r) ==> visited + Elements(stack) <= r)
  }

  lemma SearchSkip(g: Cfg, head: nat, tail: nat, visited: set<nat>, rest: seq<nat>, cur: nat)
    requires Searching(g, head, tail, visited, rest + [cur]) && cur in visited
    ensures Searching(g, head, tail, visited, rest)
  {
    assert Elements(rest + [cur]) == Elements(rest) + {cur};
    assert forall n :: n in rest ==> n in rest + [cur];
  }

  lemma SearchVisit(g: Cfg, head: nat, tail: nat, visited: set<nat>, rest: seq<nat>, cur: nat, pushed: seq<nat>)
    requires WellFormed(g) && Searching(g, head, tail, visited, rest + [cur])
    requires cur < |g.blocks| && NoDec(g.blocks[cur])
    requires forall n: nat :: n in rest ==> n in pushed
    requires forall n: nat :: n in pushed ==> n < |g.blocks| && (n in rest || (Edge(g, cur, n) && n != tail))
    requires forall n: nat :: Edge(g, cur, n) ==> n == tail || n in pushed
    ensures Searching(g, head, tail, visited + {cur}, pushed)
  {
    assert Elements(rest + [cur]) == Elements(rest) + {cur};
    forall r | QuietUntil(g, head, tail, r) ensures visited + {cur} + Elements(pushed) <= r {
      assert visited + (Elements(rest) + {cur}) <= r;
      forall n | n in Elements(pushed) ensures n in r {
        assert n in rest ==> n in Elements(rest);
      }
    }
  }

  lemma SearchFinds(g: Cfg, head: nat, tail: nat, visited: set<nat>, rest: seq<nat>, cur: nat)
    requires Searching(g, head, tail, visited, rest + [cur])
    requires cur < |g.blocks| && !NoDec(g.blocks[cur])
    ensures forall r :: !QuietUntil(g, head, tail, r)
  {
    assert cur in Elements(rest + [cur]);
    forall r ensures !QuietUntil(g, head, tail, r) {
      assert QuietUntil(g, head, tail, r) ==> cur in r;
    }
  }

  lemma SearchBounds(g: Cfg, head: nat, tail: nat, visited: set<nat>, stack: seq<nat>)
    requires Searching(g, head, tail, visited, stack)
    ensures forall n: nat :: n in stack ==> n < |g.blocks| && n in Blocks(g)
    ensures stack == [] ==> QuietUntil(g, head, tail, visited)
  {
  }

  method PushSuccessors(g: Cfg, cur: nat, tail: nat, rest: seq<nat>) returns (stack: seq<nat>)
    requires WellFormed(g) && cur < |g.blocks| && forall n :: n in rest ==> n < |g.blocks|
    ensures forall n: nat :: n in rest ==> n in stack
    ensures forall n: nat :: n in stack ==> n < |g.blocks| && (n in rest || (Edge(g, cur, n) && n != tail))
    ensures forall n: nat :: Edge(g, cur, n) ==> n == tail || n in stack
  {
    stack := rest;
    var i := 0;
    while i < |g.succs[cur]|
      invariant 0 <= i <= |g.succs[cur]|
      invariant forall n: nat :: n in rest ==> n in stack
      invariant forall n: nat :: n in stack ==> n < |g.blocks| && (n in rest || (Edge(g, cur, n) && n != tail))
      invariant forall k :: 0 <= k < i ==> g.succs[cur][k] == tail || g.succs[cur][k] in stack
    {
      var child := g.succs[cur][i];
      if child != tail {
        stack := stack + [child];
      }
      i := i + 1;
    }
  }

  /** Finds a decref between the blocks exactly when there is one to be run
      after entering `head` and before entering `tail`. */
  method HasDecrefBetweenGraph(g: Cfg, head: nat, tail: nat) returns (found: bool, ghost region: set<nat>)
    requires WellFormed(g) && head < |g.blocks|
    ensures !found ==> QuietUntil(g, head, tail, region)
    ensures found ==> forall r :: !QuietUntil(g, head, tail, r)
  {
    var visited: set<nat> := {};
    var stack: seq<nat> := [head];
    region := {};
    assert Elements([head]) == {head};
    assert Searching(g, head, tail, visited, stack);
    hide Searching, QuietUntil;
    while |stack| > 0
      invariant Searching(g, head, tail, visited, stack)
      decreases Blocks(g) - visited, |stack|
    {
      var cur, rest := stack[|stack| - 1], stack[..|stack| - 1];
      assert stack == rest + [cur];
      SearchBounds(g, head, tail, visited, stack);
      assert cur in stack && forall n :: n in rest ==> n in stack;
      if cur in visited {
        SearchSkip(g, head, tail, visited, rest, cur);
        stack := rest;
        continue;
      }
      if HasAnyDecref(g.blocks[cur]) {
        SearchFinds(g, head, tail, visited, rest, cur);
        return true, {};
      }
      stack := PushSuccessors(g, cur, tail, rest);
      SearchVisit(g, head, tail, visited, rest, cur, stack);
      visited := visited + {cur};
    }
    SearchBounds(g, head, tail, visited, stack);
    region := visited;
    return false, region;
  }
}
