/** What the forward half of the fan-out search looks at, said without the
    search: the walks it follows, and where one of them is refused. */
module FanoutWalks {
  import opened RefCounts
  import opened ControlFlow
  import opened Subgraph
  import opened GraphSearch

  const FANOUT_RECURSE_DEPTH: nat := 15

  ghost predicate Simple(s: seq<nat>) {
    forall i, j :: 0 <= i < j < |s| ==> s[i] != s[j]
  }

  /** The search goes on through the block. */
  ghost predicate Through(g: Cfg, track: bool, n: nat) {
    n < |g.blocks| && !HasAnyDecref(g.blocks[n]) && !(track && IsRaising(g.blocks[n]))
  }

  /** Starting on `path`, the search follows the walk `w` to its last block. */
  ghost predicate Visits(g: Cfg, track: bool, path: seq<nat>, w: Path) {
    && |w| > 0 && w[|w| - 1] < |g.blocks| && |path| + |w| - 1 <= FANOUT_RECURSE_DEPTH
    && (forall k :: 0 <= k < |w| - 1 ==> Through(g, track, w[k]))
    && (forall k :: 0 < k < |w| ==> Edge(g, w[k - 1], w[k]))
    && Simple(Above(path, w))
  }

  /** The blocks on the search's stack when it comes to the end of `w`. */
  function Above(path: seq<nat>, w: Path): seq<nat> {
    if w == [] then path else path + w[..|w| - 1]
  }

  function End(w: Path): nat {
    if w == [] then 0 else w[|w| - 1]
  }

  /** The search fails at block `z`: it is too deep, control is back at the
      head, the block has only decrefs of other values, or control leaves there. */
  ghost predicate Refused(g: Cfg, v: Value, track: bool, above: seq<nat>, z: nat)
    requires z < |g.blocks| && |above| > 0
  {
    || |above| >= FANOUT_RECURSE_DEPTH
    || z == above[0]
    || (z !in above && !HasRelatedDecref(g.blocks[z], v) && HasAnyDecref(g.blocks[z]))
    || (z !in above && Through(g, track, z) && z < |g.succs| && g.succs[z] == [])
  }

  /** The search stops at block `z` and notes it: for a decref of the value, or
      because the block raises. */
  ghost predicate Noted(g: Cfg, v: Value, track: bool, above: seq<nat>, z: nat, raises: bool) {
    && z < |g.blocks| && |above| < FANOUT_RECURSE_DEPTH && z !in above
    && if raises then !HasAnyDecref(g.blocks[z]) && track && IsRaising(g.blocks[z]) else HasRelatedDecref(g.blocks[z], v)
  }

  /** No walk that begins with a step to `first` is refused. */
  ghost predicate Free(g: Cfg, v: Value, track: bool, path: seq<nat>, first: nat)
    requires |path| > 0
  {
    forall w :: Visits(g, track, path, w) && w[0] == first ==> !Refused(g, v, track, Above(path, w), End(w))
  }

  ghost predicate AllFree(g: Cfg, v: Value, track: bool, path: seq<nat>, firsts: seq<nat>)
    requires |path| > 0
  {
    forall s :: s in firsts ==> Free(g, v, track, path, s)
  }

  lemma AllFreeNext(g: Cfg, v: Value, track: bool, path: seq<nat>, firsts: seq<nat>, i: nat)
    requires |path| > 0 && i < |firsts| && AllFree(g, v, track, path, firsts[..i])
    ensures AllFree(g, v, track, path, firsts[..i + 1]) <==> Free(g, v, track, path, firsts[i])
    ensures !Free(g, v, track, path, firsts[i]) ==> !AllFree(g, v, track, path, firsts)
  {
    hide Free;
    assert firsts[..i + 1] == firsts[..i] + [firsts[i]];
  }

  /** Some walk that begins with a step to `first` ends at `b`, which is noted. */
  ghost predicate NotedFrom(g: Cfg, v: Value, track: bool, path: seq<nat>, first: nat, b: nat, raises: bool) {
    exists w :: Visits(g, track, path, w) && w[0] == first && NotedBy(g, v, track, path, w, b, raises)
  }

  ghost predicate NotedBy(g: Cfg, v: Value, track: bool, path: seq<nat>, w: Path, b: nat, raises: bool) {
    End(w) == b && Noted(g, v, track, Above(path, w), b, raises)
  }

  /** A walk of one block is one call of the search. */
  lemma VisitOne(g: Cfg, track: bool, path: seq<nat>, z: nat)
    requires z < |g.blocks| && |path| <= FANOUT_RECURSE_DEPTH && Simple(path)
    ensures Visits(g, track, path, [z]) && Above(path, [z]) == path && End([z]) == z
  {
    assert [z][..0] == [];
    assert path + [] == path;
  }

  lemma AboveMore(path: seq<nat>, w: Path)
    requires |w| > 1
    ensures Above(path, w) == Above(path + [w[0]], w[1..]) && End(w) == End(w[1..])
    ensures |Above(path, w)| > |path| && Above(path, w)[|path|] == w[0] && Above(path, w)[..|path|] == path
  {
    var t := w[1..];
    assert [w[0]] + t[..|t| - 1] == w[..|w| - 1];
    assert path + ([w[0]] + t[..|t| - 1]) == (path + [w[0]]) + t[..|t| - 1];
  }

  lemma SimpleFrom(a: seq<nat>, n: nat)
    requires Simple(a) && n < |a|
    ensures a[n] !in a[..n]
  {
  }

  /** A longer walk passes its first block and goes on from there. */
  lemma VisitMore(g: Cfg, track: bool, path: seq<nat>, w: Path)
    requires |w| > 1 && Simple(path)
    ensures Above(path, w) == Above(path + [w[0]], w[1..]) && End(w) == End(w[1..])
    ensures Visits(g, track, path, w) <==>
      && |path| < FANOUT_RECURSE_DEPTH && w[0] !in path && Through(g, track, w[0]) && Edge(g, w[0], w[1])
      && Visits(g, track, path + [w[0]], w[1..])
  {
    hide Through, Edge, Above, Simple;
    AboveMore(path, w);
    var t := w[1..];
    if Visits(g, track, path, w) {
      SimpleFrom(Above(path, w), |path|);
      forall k | 0 <= k < |t| - 1 ensures Through(g, track, t[k]) { assert t[k] == w[k + 1]; }
      forall k | 0 < k < |t| ensures Edge(g, t[k - 1], t[k]) { assert t[k] == w[k + 1] && t[k - 1] == w[k]; }
    }
    if Through(g, track, w[0]) && Edge(g, w[0], w[1]) && Visits(g, track, path + [w[0]], t) {
      forall k | 0 < k < |w| ensures Edge(g, w[k - 1], w[k]) {
        assert k > 1 ==> t[k - 2] == w[k - 1] && t[k - 1] == w[k];
      }
      forall k | 0 <= k < |w| - 1 ensures Through(g, track, w[k]) { assert k > 0 ==> t[k - 1] == w[k]; }
    }
  }

  /** Putting a passed block in front of a walk from one of its successors. */
  lemma VisitFrom(g: Cfg, track: bool, path: seq<nat>, cur: nat, w: Path)
    requires Simple(path) && |path| < FANOUT_RECURSE_DEPTH && cur !in path && Through(g, track, cur)
    requires Visits(g, track, path + [cur], w) && Edge(g, cur, w[0])
    ensures Visits(g, track, path, [cur] + w) && ([cur] + w)[0] == cur
    ensures Above(path, [cur] + w) == Above(path + [cur], w) && End([cur] + w) == End(w)
  {
    VisitMore(g, track, path, [cur] + w);
    assert ([cur] + w)[1..] == w;
  }

  /** A block that the search does not pass is met only as the end of a walk. */
  lemma StopsHere(g: Cfg, v: Value, track: bool, path: seq<nat>, cur: nat)
    requires 0 < |path| <= FANOUT_RECURSE_DEPTH && Simple(path) && cur < |g.blocks|
    requires |path| == FANOUT_RECURSE_DEPTH || cur in path || !Through(g, track, cur)
    ensures Free(g, v, track, path, cur) <==> !Refused(g, v, track, path, cur)
    ensures forall b, raises ::
      NotedFrom(g, v, track, path, cur, b, raises) <==> b == cur && Noted(g, v, track, path, cur, raises)
  {
    VisitOne(g, track, path, cur);
    forall w | Visits(g, track, path, w) && w[0] == cur ensures w == [cur] {
      if |w| > 1 {
        VisitMore(g, track, path, w);
      }
    }
    forall b, raises | b == cur && Noted(g, v, track, path, cur, raises)
      ensures NotedFrom(g, v, track, path, cur, b, raises)
    {
      assert NotedBy(g, v, track, path, [cur], b, raises);
    }
  }

  /** From a block that it passes, the search goes on to each successor. */
  lemma GoesOn(g: Cfg, v: Value, track: bool, path: seq<nat>, cur: nat)
    requires 0 < |path| < FANOUT_RECURSE_DEPTH && Simple(path) && cur < |g.blocks| && cur < |g.succs|
    requires cur !in path && Through(g, track, cur)
    ensures Simple(path + [cur])
    ensures Free(g, v, track, path, cur) <==> g.succs[cur] != [] && AllFree(g, v, track, path + [cur], g.succs[cur])
    ensures forall b, raises :: NotedFrom(g, v, track, path, cur, b, raises) <==>
      exists s :: s in g.succs[cur] && NotedFrom(g, v, track, path + [cur], s, b, raises)
  {
    hide NotedFrom, Free, Through;
    FreeGoesOn(g, v, track, path, cur);
    forall b, raises ensures NotedFrom(g, v, track, path, cur, b, raises) <==>
      exists s :: s in g.succs[cur] && NotedFrom(g, v, track, path + [cur], s, b, raises)
    {
      if NotedFrom(g, v, track, path, cur, b, raises) {
        var s := NotedFurther(g, v, track, path, cur, b, raises);
      }
      if s :| s in g.succs[cur] && NotedFrom(g, v, track, path + [cur], s, b, raises) {
        NotedAhead(g, v, track, path, cur, s, b, raises);
      }
    }
  }

  lemma PassedIsFine(g: Cfg, v: Value, track: bool, path: seq<nat>, cur: nat)
    requires 0 < |path| < FANOUT_RECURSE_DEPTH && cur < |g.blocks| && cur !in path && Through(g, track, cur)
    ensures Refused(g, v, track, path, cur) <==> cur < |g.succs| && g.succs[cur] == []
    ensures forall raises :: !Noted(g, v, track, path, cur, raises)
  {
  }

  lemma FreeGoesOn(g: Cfg, v: Value, track: bool, path: seq<nat>, cur: nat)
    requires 0 < |path| < FANOUT_RECURSE_DEPTH && Simple(path) && cur < |g.blocks| && cur < |g.succs|
    requires cur !in path && Through(g, track, cur)
    ensures Free(g, v, track, path, cur) <==>
      g.succs[cur] != [] && forall s :: s in g.succs[cur] ==> Free(g, v, track, path + [cur], s)
  {
    VisitOne(g, track, path, cur);
    PassedIsFine(g, v, track, path, cur);
    if Free(g, v, track, path, cur) {
      assert !Refused(g, v, track, Above(path, [cur]), End([cur]));
      forall s, w | s in g.succs[cur] && Visits(g, track, path + [cur], w) && w[0] == s
        ensures !Refused(g, v, track, Above(path + [cur], w), End(w))
      {
        VisitFrom(g, track, path, cur, w);
      }
    }
    if g.succs[cur] != [] && forall s :: s in g.succs[cur] ==> Free(g, v, track, path + [cur], s) {
      forall w | Visits(g, track, path, w) && w[0] == cur ensures !Refused(g, v, track, Above(path, w), End(w)) {
        if |w| == 1 {
          assert w == [cur];
        } else {
          VisitMore(g, track, path, w);
          assert Free(g, v, track, path + [cur], w[1]);
        }
      }
    }
  }

  lemma NotedFurther(g: Cfg, v: Value, track: bool, path: seq<nat>, cur: nat, b: nat, raises: bool) returns (s: nat)
    requires 0 < |path| < FANOUT_RECURSE_DEPTH && Simple(path) && cur < |g.blocks| && cur < |g.succs|
    requires cur !in path && Through(g, track, cur) && NotedFrom(g, v, track, path, cur, b, raises)
    ensures s in g.succs[cur] && NotedFrom(g, v, track, path + [cur], s, b, raises)
  {
    hide Through, Simple, Noted;
    var w :| Visits(g, track, path, w) && w[0] == cur && NotedBy(g, v, track, path, w, b, raises);
    if |w| == 1 {
      assert w == [cur];
      VisitOne(g, track, path, cur);
      PassedIsFine(g, v, track, path, cur);
      assert false;
    }
    VisitMore(g, track, path, w);
    s := w[1];
    assert NotedBy(g, v, track, path + [cur], w[1..], b, raises);
  }

  lemma NotedAhead(g: Cfg, v: Value, track: bool, path: seq<nat>, cur: nat, s: nat, b: nat, raises: bool)
    requires 0 < |path| < FANOUT_RECURSE_DEPTH && Simple(path) && cur < |g.blocks| && cur < |g.succs|
    requires cur !in path && Through(g, track, cur)
    requires s in g.succs[cur] && NotedFrom(g, v, track, path + [cur], s, b, raises)
    ensures NotedFrom(g, v, track, path, cur, b, raises)
  {
    hide Through, Simple, Noted;
    var w :| Visits(g, track, path + [cur], w) && w[0] == s && NotedBy(g, v, track, path + [cur], w, b, raises);
    VisitFrom(g, track, path, cur, w);
    assert NotedBy(g, v, track, path, [cur] + w, b, raises);
  }

  // ---- How many calls a whole search makes ----

  /** The calls that count towards the limit when the successors `firsts` are walked
      one after another: those above the depth limit. */
  ghost function Calls(g: Cfg, track: bool, path: seq<nat>, firsts: seq<nat>): nat
    requires |path| <= FANOUT_RECURSE_DEPTH
    decreases FANOUT_RECURSE_DEPTH - |path|, |firsts|, 0
  {
    if firsts == [] then 0
    else Calls(g, track, path, firsts[..|firsts| - 1]) + CallsAt(g, track, path, firsts[|firsts| - 1])
  }

  ghost function CallsAt(g: Cfg, track: bool, path: seq<nat>, cur: nat): nat
    requires |path| <= FANOUT_RECURSE_DEPTH
    decreases FANOUT_RECURSE_DEPTH - |path|, 0, 1
  {
    if |path| == FANOUT_RECURSE_DEPTH then 0
    else 1 + if cur !in path && Through(g, track, cur) && cur < |g.succs| then Calls(g, track, path + [cur], g.succs[cur]) else 0
  }

  lemma {:induction false} CallsGrow(g: Cfg, track: bool, path: seq<nat>, firsts: seq<nat>, i: nat)
    requires |path| <= FANOUT_RECURSE_DEPTH && i <= |firsts|
    ensures Calls(g, track, path, firsts[..i]) <= Calls(g, track, path, firsts)
    decreases |firsts|
  {
    hide CallsAt;
    if i < |firsts| {
      assert firsts[..|firsts| - 1][..i] == firsts[..i];
      CallsGrow(g, track, path, firsts[..|firsts| - 1], i);
    } else {
      assert firsts[..i] == firsts;
    }
  }

  lemma CallsNone(g: Cfg, track: bool, path: seq<nat>, firsts: seq<nat>)
    requires |path| <= FANOUT_RECURSE_DEPTH
    ensures Calls(g, track, path, firsts[..0]) == 0
  {
  }

  lemma CallsNext(g: Cfg, track: bool, path: seq<nat>, firsts: seq<nat>, i: nat)
    requires |path| <= FANOUT_RECURSE_DEPTH && i < |firsts|
    ensures Calls(g, track, path, firsts[..i + 1]) == Calls(g, track, path, firsts[..i]) + CallsAt(g, track, path, firsts[i])
  {
    hide CallsAt;
    assert firsts[..i + 1][..i] == firsts[..i];
  }

  /** The search has added to `was` only blocks noted on walks from `firsts`, and
      if it got through, all of those. */
  ghost predicate Gathers(g: Cfg, v: Value, track: bool, path: seq<nat>, firsts: seq<nat>, raises: bool,
                          was: set<nat>, now: set<nat>, all: bool) {
    && was <= now
    && (forall b :: b in now ==> b in was || NotedFromSome(g, v, track, path, firsts, b, raises))
    && (all ==> forall b :: NotedFromSome(g, v, track, path, firsts, b, raises) ==> b in now)
  }

  ghost predicate NotedFromSome(g: Cfg, v: Value, track: bool, path: seq<nat>, firsts: seq<nat>, b: nat, raises: bool) {
    exists s :: s in firsts && NotedFrom(g, v, track, path, s, b, raises)
  }

  lemma GathersNothing(g: Cfg, v: Value, track: bool, path: seq<nat>, firsts: seq<nat>, raises: bool, was: set<nat>)
    ensures Gathers(g, v, track, path, firsts, raises, was, was, false)
    ensures Gathers(g, v, track, path, [], raises, was, was, true)
  {
  }

  /** Where the search stops, it adds the block itself or nothing. */
  lemma GathersHere(g: Cfg, v: Value, track: bool, path: seq<nat>, cur: nat, raises: bool, was: set<nat>, now: set<nat>)
    requires 0 < |path| <= FANOUT_RECURSE_DEPTH && Simple(path) && cur < |g.blocks|
    requires |path| == FANOUT_RECURSE_DEPTH || cur in path || !Through(g, track, cur)
    requires now == was + if Noted(g, v, track, path, cur, raises) then {cur} else {}
    ensures Gathers(g, v, track, path, [cur], raises, was, now, true)
  {
    hide NotedFrom, Noted, Simple, Through;
    StopsHere(g, v, track, path, cur);
    assert cur in [cur];
  }

  /** One more successor searched. */
  lemma GathersNext(g: Cfg, v: Value, track: bool, path: seq<nat>, firsts: seq<nat>, s: nat, raises: bool,
                    was: set<nat>, mid: set<nat>, now: set<nat>, all: bool)
    requires Gathers(g, v, track, path, firsts, raises, was, mid, true)
    requires Gathers(g, v, track, path, [s], raises, mid, now, all)
    ensures Gathers(g, v, track, path, firsts + [s], raises, was, now, all)
  {
    hide NotedFrom;
    forall b ensures NotedFromSome(g, v, track, path, firsts + [s], b, raises) <==>
      NotedFromSome(g, v, track, path, firsts, b, raises) || NotedFromSome(g, v, track, path, [s], b, raises)
    {
      assert s in firsts + [s] && s in [s];
      assert forall x :: x in firsts ==> x in firsts + [s];
    }
  }

  lemma GathersMore(g: Cfg, v: Value, track: bool, path: seq<nat>, firsts: seq<nat>, more: seq<nat>, raises: bool,
                    was: set<nat>, now: set<nat>)
    requires Gathers(g, v, track, path, firsts, raises, was, now, false) && forall s :: s in firsts ==> s in more
    ensures Gathers(g, v, track, path, more, raises, was, now, false)
  {
    hide NotedFrom;
  }

  /** What the successors' searches add is what the block's own search adds. */
  lemma GathersUp(g: Cfg, v: Value, track: bool, path: seq<nat>, cur: nat, raises: bool,
                  was: set<nat>, now: set<nat>, all: bool)
    requires 0 < |path| < FANOUT_RECURSE_DEPTH && Simple(path) && cur < |g.blocks| && cur < |g.succs|
    requires cur !in path && Through(g, track, cur)
    requires Gathers(g, v, track, path + [cur], g.succs[cur], raises, was, now, all)
    ensures Gathers(g, v, track, path, [cur], raises, was, now, all)
  {
    hide NotedFrom, Through, Simple;
    GoesOn(g, v, track, path, cur);
    forall b ensures NotedFromSome(g, v, track, path, [cur], b, raises) <==>
      NotedFromSome(g, v, track, path + [cur], g.succs[cur], b, raises)
    {
      assert cur in [cur];
    }
  }

  /** The forward search of an incref of `v` in block `head` gets through: control
      always comes to a noted block, and never back to the head before that. */
  ghost predicate Admitted(g: Cfg, head: nat, v: Value, track: bool) {
    head < |g.succs| && g.succs[head] != [] && AllFree(g, v, track, [head], g.succs[head])
  }

  ghost predicate IsNoted(g: Cfg, head: nat, v: Value, track: bool, b: nat, raises: bool) {
    head < |g.succs| && NotedFromSome(g, v, track, [head], g.succs[head], b, raises)
  }

  /** The incref can be fanned out: the forward search gets through with some
      decref blocks, and with some raising blocks if those are wanted, and the
      backward walk from the noted blocks ends at the head only. */
  ghost predicate CanFan(g: Cfg, head: nat, v: Value, pruneRaise: bool) {
    exists tails, raising :: FansTo(g, head, v, pruneRaise, tails, raising)
  }

  ghost predicate FansTo(g: Cfg, head: nat, v: Value, pruneRaise: bool, tails: set<nat>, raising: set<nat>) {
    && Admitted(g, head, v, pruneRaise)
    && (forall b :: b in tails <==> IsNoted(g, head, v, pruneRaise, b, false)) && tails != {}
    && (forall b :: b in raising <==> IsNoted(g, head, v, pruneRaise, b, true)) && (pruneRaise ==> raising != {})
    && exists behind :: OnlyFromHead(g, head, raising + tails, Skipped(g, pruneRaise), behind)
  }

  /** Every block that releases `w` releases `v`. */
  ghost predicate ReleasedWith(g: Cfg, w: Value, v: Value) {
    forall b :: 0 <= b < |g.blocks| && HasRelatedDecref(g.blocks[b], w) ==> HasRelatedDecref(g.blocks[b], v)
  }

  /** Every walk that stops the search for `v`, at a decref of `v` or by a refusal,
      ends at a decref of `w`. */
  ghost predicate StopsAtOther(g: Cfg, v: Value, w: Value, track: bool, path: seq<nat>, first: nat)
    requires |path| > 0
  {
    forall x :: Visits(g, track, path, x) && x[0] == first ==>
      (Refused(g, v, track, Above(path, x), End(x)) || Noted(g, v, track, Above(path, x), End(x), false))
      ==> Noted(g, w, track, Above(path, x), End(x), false)
  }

  /** The walks do not depend on the value, only where they stop does. */
  lemma FreeInstead(g: Cfg, v: Value, w: Value, track: bool, path: seq<nat>, first: nat)
    requires |path| > 0
    ensures Free(g, w, track, path, first) <==> StopsAtOther(g, v, w, track, path, first)
  {
    forall x | Visits(g, track, path, x) && x[0] == first
      ensures End(x) < |g.blocks|
      ensures var (a, z) := (Above(path, x), End(x));
              |a| > 0 && (!Refused(g, w, track, a, z) <==>
                ((Refused(g, v, track, a, z) || Noted(g, v, track, a, z, false)) ==> Noted(g, w, track, a, z, false)))
    {
      VisitEnds(g, track, path, x);
      var (a, z) := (Above(path, x), End(x));
      assert HasRelatedDecref(g.blocks[z], v) || HasRelatedDecref(g.blocks[z], w) ==> HasAnyDecref(g.blocks[z]);
    }
  }

  lemma VisitEnds(g: Cfg, track: bool, path: seq<nat>, x: Path)
    requires |path| > 0 && Visits(g, track, path, x)
    ensures End(x) < |g.blocks| && |Above(path, x)| > 0
  {
  }

  /** Where the search for `v` in a block fails, the search for `w` in the same block
      gets through exactly if every walk that stopped it ends at a decref of `w`. */
  lemma AdmittedInstead(g: Cfg, head: nat, v: Value, w: Value, track: bool)
    ensures Admitted(g, head, w, track) <==>
      && head < |g.succs| && g.succs[head] != []
      && forall s :: s in g.succs[head] ==> StopsAtOther(g, v, w, track, [head], s)
  {
    hide Free, StopsAtOther;
    if head < |g.succs| {
      forall s | s in g.succs[head]
        ensures Free(g, w, track, [head], s) <==> StopsAtOther(g, v, w, track, [head], s)
      {
        FreeInstead(g, v, w, track, [head], s);
      }
    }
  }

  lemma FreeToo(g: Cfg, v: Value, w: Value, track: bool, path: seq<nat>, first: nat)
    requires |path| > 0 && ReleasedWith(g, w, v) && Free(g, w, track, path, first)
    ensures Free(g, v, track, path, first)
  {
    forall x | Visits(g, track, path, x) && x[0] == first
      ensures End(x) < |g.blocks| && |Above(path, x)| > 0 && !Refused(g, v, track, Above(path, x), End(x))
    {
      VisitEnds(g, track, path, x);
    }
  }

  /** What fails for `v` fails for `w` too if `v` is released wherever `w` is. */
  lemma FailsToo(g: Cfg, head: nat, v: Value, w: Value, track: bool)
    requires ReleasedWith(g, w, v)
    ensures Admitted(g, head, w, track) ==> Admitted(g, head, v, track)
  {
    hide Free, ReleasedWith;
    if Admitted(g, head, w, track) {
      forall s | s in g.succs[head] ensures Free(g, v, track, [head], s) {
        FreeToo(g, v, w, track, [head], s);
      }
    }
  }

  /** Values 7 and 8 are increfed in one block, and only 8 is released next. */
  function SharedHead(): Cfg {
    Cfg([[Instr(0, Inc(Ssa(7))), Instr(1, Inc(Ssa(8)))], [Instr(2, Dec(Ssa(8)))]], [[1], []], [{}, {}])
  }

  /** The search for 7 marks the block as one that always fails, yet 8 in the
      same block can be fanned out. */
  lemma BadBlockIsNotAlwaysBad()
    ensures WellFormed(SharedHead())
    ensures !Admitted(SharedHead(), 0, Ssa(7), false) && CanFan(SharedHead(), 0, Ssa(8), false)
  {
    hide Free, Visits, NotedFrom;
    var g := SharedHead();
    assert g.blocks[1][0].op == Dec(Ssa(8));
    assert HasRelatedDecref(g.blocks[1], Ssa(8)) && HasAnyDecref(g.blocks[1]);
    StopsHere(g, Ssa(7), false, [0], 1);
    StopsHere(g, Ssa(8), false, [0], 1);
    assert 1 in g.succs[0];
    assert !Free(g, Ssa(7), false, [0], 1);
    assert Admitted(g, 0, Ssa(8), false);
    assert OnlyFromHead(g, 0, {} + {1}, Skipped(g, false), {1});
    assert FansTo(g, 0, Ssa(8), false, {1}, {});
  }
}
