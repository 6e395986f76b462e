/** The forward half of the fan-out search in plain terms: which increfs get
    through, on the graph alone and with its limits written out. */
module FanoutDepth {
  import opened RefCounts
  import opened ControlFlow
  import opened Subgraph
  import opened GraphSearch
  import opened FanoutWalks
  import opened FanoutSearch

  /** A walk out of `head` over pairwise distinct blocks other than the head, none
      with a decref, and with `track` none that raises. */
  ghost predicate Passes(g: Cfg, head: nat, track: bool, w: Path) {
    && (forall k :: 0 <= k < |w| ==> w[k] < |g.blocks| && w[k] != head && w[k] !in w[..k])
    && (forall k, i :: 0 <= k < |w| && 0 <= i < |g.blocks[w[k]]| ==>
          !g.blocks[w[k]][i].op.Dec? && !(track && g.blocks[w[k]][i].op.Raise?))
    && (forall k :: 0 <= k < |w| ==> w[k] in Next(g, head, w[..k]))
  }

  /** The blocks that control may go to from the end of the walk. */
  function Next(g: Cfg, head: nat, w: Path): seq<nat> {
    var last := if w == [] then head else w[|w| - 1];
    if last < |g.succs| then g.succs[last] else []
  }

  ghost predicate Releases(g: Cfg, b: nat, v: Value) {
    b < |g.blocks| && exists i :: 0 <= i < |g.blocks[b]| && g.blocks[b][i].op == Dec(v)
  }

  ghost predicate ReleasesNothing(g: Cfg, b: nat) {
    b < |g.blocks| && forall i :: 0 <= i < |g.blocks[b]| ==> !g.blocks[b][i].op.Dec?
  }

  ghost predicate Raises(g: Cfg, b: nat) {
    b < |g.blocks| && exists i :: 0 <= i < |g.blocks[b]| && g.blocks[b][i].op.Raise?
  }

  /** Control stays within 13 blocks, does not leave the function, does not come
      back to the head, and meets no decref but related ones. */
  ghost predicate StaysClear(g: Cfg, head: nat, v: Value, w: Path) {
    && |w| <= 13 && Next(g, head, w) != []
    && forall s :: s in Next(g, head, w) ==> s != head && (s in w || Releases(g, s, v) || ReleasesNothing(g, s))
  }

  /** A block of either kind is met within 14 blocks: where a walk ends, with no
      more than 13 blocks in between. */
  ghost predicate Met(g: Cfg, head: nat, track: bool, b: nat, w: Path) {
    Passes(g, head, track, w) && |w| <= 13 && b in Next(g, head, w) && b != head && b !in w
  }

  lemma AboveIs(head: nat, w: Path, s: nat)
    ensures Above([head], w + [s]) == [head] + w && End(w + [s]) == s
  {
    assert (w + [s])[..|w|] == w;
  }

  lemma PassesSimple(g: Cfg, head: nat, track: bool, w: Path)
    requires Passes(g, head, track, w)
    ensures Simple([head] + w)
  {
    var a := [head] + w;
    forall i, j | 0 <= i < j < |a| ensures a[i] != a[j] {
      if i > 0 {
        assert w[i - 1] in w[..j - 1];
      }
    }
  }

  /** A walk and one more block are what the search visits. */
  lemma PassesVisits(g: Cfg, head: nat, track: bool, w: Path, s: nat)
    requires WellFormed(g) && Passes(g, head, track, w) && s in Next(g, head, w) && |w| <= 14
    ensures Visits(g, track, [head], w + [s]) && (w + [s])[0] in Next(g, head, [])
  {
    var x := w + [s];
    AboveIs(head, w, s);
    PassesSimple(g, head, track, w);
    forall k | 0 <= k < |x| - 1 ensures Through(g, track, x[k]) {
      assert x[k] == w[k];
    }
    forall k | 0 < k < |x| ensures Edge(g, x[k - 1], x[k]) {
      assert w[..k][|w[..k]| - 1] == w[k - 1] == x[k - 1];
      if k < |w| {
        assert w[k] in Next(g, head, w[..k]);
      } else {
        assert w[..k] == w;
      }
    }
    if w != [] {
      assert w[0] in Next(g, head, w[..0]);
      assert w[..0] == [];
    }
    assert s < |g.blocks|;
  }

  lemma VisitsAbove(g: Cfg, head: nat, track: bool, x: Path)
    requires Visits(g, track, [head], x)
    ensures |x| > 0 && End(x) < |g.blocks| && |x| <= 15 && Above([head], x) == [head] + x[..|x| - 1]
    ensures forall k :: 0 <= k < |x| - 1 ==> Through(g, track, x[k]) && x[k] != head && x[k] !in x[..k]
    ensures forall k :: 0 < k < |x| ==> Edge(g, x[k - 1], x[k])
  {
    var w := x[..|x| - 1];
    var a := Above([head], x);
    assert a == [head] + w;
    forall k | 0 <= k < |x| - 1 ensures x[k] != head && x[k] !in x[..k] {
      assert x[k] == w[k] == a[k + 1] && a[0] == head;
      assert forall j :: 0 <= j < k ==> a[j + 1] == x[j];
    }
  }

  lemma VisitsPasses(g: Cfg, head: nat, track: bool, x: Path)
    requires WellFormed(g) && head < |g.blocks| && Visits(g, track, [head], x) && x[0] in g.succs[head]
    ensures |x| > 0 && Passes(g, head, track, x[..|x| - 1]) && End(x) in Next(g, head, x[..|x| - 1]) && |x| <= 15
    ensures Above([head], x) == [head] + x[..|x| - 1] && End(x) < |g.blocks|
  {
    VisitsAbove(g, head, track, x);
    hide Visits, Above;
    var w := x[..|x| - 1];
    forall k | 0 <= k < |w|
      ensures w[k] < |g.blocks| && w[k] != head && w[k] !in w[..k] && w[k] in Next(g, head, w[..k])
    {
      assert w[..k] == x[..k] && Through(g, track, x[k]);
      assert k > 0 ==> Edge(g, x[k - 1], x[k]) && w[..k][k - 1] == x[k - 1];
    }
    if |w| > 0 {
      assert Edge(g, x[|x| - 2], x[|x| - 1]) && w[|w| - 1] == x[|x| - 2];
    }
  }

  lemma PassesPrefix(g: Cfg, head: nat, track: bool, w: Path, n: nat)
    requires Passes(g, head, track, w) && n <= |w|
    ensures Passes(g, head, track, w[..n])
  {
    var t := w[..n];
    forall k | 0 <= k < n ensures t[k] !in t[..k] && t[k] in Next(g, head, t[..k]) {
      assert t[..k] == w[..k];
    }
  }

  lemma PassesOn(g: Cfg, head: nat, track: bool, w: Path, s: nat)
    requires WellFormed(g) && Passes(g, head, track, w) && s in Next(g, head, w) && s != head && s !in w
    requires Through(g, track, s)
    ensures Passes(g, head, track, w + [s])
  {
    var t := w + [s];
    forall k | 0 <= k < |t| ensures t[k] !in t[..k] && t[k] in Next(g, head, t[..k]) {
      assert k < |w| ==> t[..k] == w[..k];
      assert t[..|w|] == w;
    }
  }

  lemma NotRefused(g: Cfg, head: nat, v: Value, track: bool, w: Path, s: nat)
    requires WellFormed(g) && head < |g.blocks| && Admitted(g, head, v, track)
    requires Passes(g, head, track, w) && |w| <= 14 && s in Next(g, head, w)
    ensures s < |g.blocks| && !Refused(g, v, track, [head] + w, s)
  {
    PassesVisits(g, head, track, w, s);
    AboveIs(head, w, s);
    assert Next(g, head, []) == g.succs[head];
    VisitEnds(g, track, [head], w + [s]);
    hide Passes, Visits, Above, Refused, Next;
    assert Free(g, v, track, [head], (w + [s])[0]);
  }

  lemma NotRefusedMeans(g: Cfg, v: Value, track: bool, head: nat, w: Path, s: nat)
    requires s < |g.blocks| && !Refused(g, v, track, [head] + w, s)
    ensures |w| <= 13 && s != head && (s in w || Releases(g, s, v) || ReleasesNothing(g, s))
    ensures s !in w && Through(g, track, s) && s < |g.succs| ==> g.succs[s] != []
  {
    assert s in [head] + w <==> s == head || s in w;
    assert ([head] + w)[0] == head;
  }

  /** The last block of a walk must lead on. */
  lemma LeadsOn(g: Cfg, head: nat, v: Value, track: bool, w: Path)
    requires WellFormed(g) && head < |g.blocks| && Admitted(g, head, v, track)
    requires Passes(g, head, track, w) && |w| <= 14
    ensures Next(g, head, w) != []
  {
    if w != [] {
      var t, z := w[..|w| - 1], w[|w| - 1];
      LastThrough(g, head, track, w);
      PassesPrefix(g, head, track, w, |w| - 1);
      hide Passes, Admitted, Refused, Through;
      NotRefused(g, head, v, track, t, z);
      NotRefusedMeans(g, v, track, head, t, z);
    }
  }

  lemma LastThrough(g: Cfg, head: nat, track: bool, w: Path)
    requires Passes(g, head, track, w) && w != []
    ensures var t, z := w[..|w| - 1], w[|w| - 1];
            z < |g.blocks| && Through(g, track, z) && z != head && z !in t && z in Next(g, head, t)
  {
  }

  lemma AdmittedClear(g: Cfg, head: nat, v: Value, track: bool, w: Path)
    requires WellFormed(g) && head < |g.blocks| && Admitted(g, head, v, track) && Passes(g, head, track, w)
    ensures StaysClear(g, head, v, w)
  {
    hide Passes, Admitted, Releases, ReleasesNothing, Refused, Next, Through;
    if |w| >= 14 {
      PassesPrefix(g, head, track, w, 14);
      LeadsOn(g, head, v, track, w[..14]);
      var s := Next(g, head, w[..14])[0];
      NotRefused(g, head, v, track, w[..14], s);
      NotRefusedMeans(g, v, track, head, w[..14], s);
    }
    LeadsOn(g, head, v, track, w);
    forall s | s in Next(g, head, w)
      ensures s != head && (s in w || Releases(g, s, v) || ReleasesNothing(g, s))
    {
      NotRefused(g, head, v, track, w, s);
      NotRefusedMeans(g, v, track, head, w, s);
    }
  }

  lemma NextAfter(g: Cfg, head: nat, w: Path, z: nat)
    requires z < |g.succs|
    ensures Next(g, head, w + [z]) == g.succs[z]
  {
  }

  lemma ClearFree(g: Cfg, head: nat, v: Value, track: bool, x: Path)
    requires WellFormed(g) && head < |g.blocks| && forall w :: Passes(g, head, track, w) ==> StaysClear(g, head, v, w)
    requires Visits(g, track, [head], x) && x[0] in g.succs[head]
    ensures End(x) < |g.blocks| && |Above([head], x)| > 0 && !Refused(g, v, track, Above([head], x), End(x))
  {
    VisitsPasses(g, head, track, x);
    hide Visits, Above;
    var w, z := x[..|x| - 1], End(x);
    assert StaysClear(g, head, v, w);
    assert ([head] + w)[0] == head && (z in [head] + w <==> z == head || z in w);
    hide Passes;
    if z !in [head] + w && Through(g, track, z) && g.succs[z] == [] {
      PassesOn(g, head, track, w, z);
      NextAfter(g, head, w, z);
    }
  }

  lemma AllFree(g: Cfg, head: nat, v: Value, track: bool, s: nat)
    requires WellFormed(g) && head < |g.blocks| && forall w :: Passes(g, head, track, w) ==> StaysClear(g, head, v, w)
    requires s in g.succs[head]
    ensures Free(g, v, track, [head], s)
  {
    hide Passes, StaysClear, Refused, Through, Above, Simple, End;
    forall x | Visits(g, track, [head], x) && x[0] == s
      ensures End(x) < |g.blocks| && |Above([head], x)| > 0 && !Refused(g, v, track, Above([head], x), End(x))
    {
      ClearFree(g, head, v, track, x);
    }
  }

  /** An incref gets through the forward search exactly if, whatever walk control
      takes from it over blocks without decrefs (and without raises, if those end a
      walk too), it stays clear. The fourteenth such block is one too many. */
  lemma AdmittedExact(g: Cfg, head: nat, v: Value, track: bool)
    requires WellFormed(g) && head < |g.blocks|
    ensures Admitted(g, head, v, track) <==> forall w :: Passes(g, head, track, w) ==> StaysClear(g, head, v, w)
  {
    hide Passes, StaysClear, Free;
    if Admitted(g, head, v, track) {
      forall w | Passes(g, head, track, w) ensures StaysClear(g, head, v, w) {
        AdmittedClear(g, head, v, track, w);
      }
    }
    if forall w :: Passes(g, head, track, w) ==> StaysClear(g, head, v, w) {
      HeadLeadsOn(g, head, v, track);
      forall s | s in g.succs[head] ensures Free(g, v, track, [head], s) {
        AllFree(g, head, v, track, s);
      }
    }
  }

  lemma HeadLeadsOn(g: Cfg, head: nat, v: Value, track: bool)
    requires WellFormed(g) && head < |g.blocks| && forall w :: Passes(g, head, track, w) ==> StaysClear(g, head, v, w)
    ensures g.succs[head] != []
  {
    assert Passes(g, head, track, []);
    assert Next(g, head, []) == g.succs[head];
  }

  /** The search notes exactly the blocks met that have a related decref, and those
      that raise and have no decref. */
  ghost predicate Wanted(g: Cfg, v: Value, track: bool, b: nat, raises: bool) {
    if raises then track && Raises(g, b) && ReleasesNothing(g, b) else Releases(g, b, v)
  }

  lemma NotedMet(g: Cfg, head: nat, v: Value, track: bool, b: nat, raises: bool, x: Path)
    requires WellFormed(g) && head < |g.blocks|
    requires Visits(g, track, [head], x) && x[0] in g.succs[head] && NotedBy(g, v, track, [head], x, b, raises)
    ensures Wanted(g, v, track, b, raises) && Met(g, head, track, b, x[..|x| - 1])
  {
    VisitsPasses(g, head, track, x);
    var w := x[..|x| - 1];
    hide Passes, Visits, Above, Next;
    assert b in [head] + w <==> b == head || b in w;
  }

  lemma MetNoted(g: Cfg, head: nat, v: Value, track: bool, b: nat, raises: bool, w: Path)
    requires WellFormed(g) && head < |g.blocks| && Wanted(g, v, track, b, raises) && Met(g, head, track, b, w)
    ensures IsNoted(g, head, v, track, b, raises)
  {
    PassesVisits(g, head, track, w, b);
    AboveIs(head, w, b);
    assert Next(g, head, []) == g.succs[head];
    hide Passes, Visits, Above, Next;
    assert b in [head] + w <==> b == head || b in w;
    assert NotedBy(g, v, track, [head], w + [b], b, raises);
    assert NotedFrom(g, v, track, [head], (w + [b])[0], b, raises);
  }

  lemma NotedExact(g: Cfg, head: nat, v: Value, track: bool, b: nat, raises: bool)
    requires WellFormed(g) && head < |g.blocks|
    ensures IsNoted(g, head, v, track, b, raises) <==> Wanted(g, v, track, b, raises) && exists w :: Met(g, head, track, b, w)
  {
    hide NotedBy, Wanted, Met, Through, Simple, Above;
    if IsNoted(g, head, v, track, b, raises) {
      var s :| s in g.succs[head] && NotedFrom(g, v, track, [head], s, b, raises);
      var x :| Visits(g, track, [head], x) && |x| > 0 && x[0] == s && NotedBy(g, v, track, [head], x, b, raises);
      NotedMet(g, head, v, track, b, raises, x);
    }
    if Wanted(g, v, track, b, raises) && exists w :: Met(g, head, track, b, w) {
      var w :| Met(g, head, track, b, w);
      MetNoted(g, head, v, track, b, raises, w);
    }
  }

  // ---- The limit on the size ----

  /** Where no block has more than two successors, a search makes at most 32766 calls. */
  lemma BinaryInLimit(g: Cfg, head: nat, track: bool, limit: nat)
    requires WellFormed(g) && head < |g.blocks| && limit >= 32766
    requires forall b :: 0 <= b < |g.succs| ==> |g.succs[b]| <= 2
    ensures InLimit(g, head, track, limit)
  {
    CallsBinary(g, track, [head], g.succs[head]);
    assert Doubling(14) == 16383;
  }

  function Doubling(n: nat): nat {
    if n == 0 then 0 else 1 + 2 * Doubling(n - 1)
  }

  lemma {:induction false} CallsBinary(g: Cfg, track: bool, path: seq<nat>, firsts: seq<nat>)
    requires |path| <= FANOUT_RECURSE_DEPTH
    requires forall b :: 0 <= b < |g.succs| ==> |g.succs[b]| <= 2
    ensures Calls(g, track, path, firsts) <= |firsts| * Doubling(FANOUT_RECURSE_DEPTH - |path|)
    decreases FANOUT_RECURSE_DEPTH - |path|, |firsts|
  {
    if firsts != [] {
      var cur := firsts[|firsts| - 1];
      CallsBinary(g, track, path, firsts[..|firsts| - 1]);
      var d := Doubling(FANOUT_RECURSE_DEPTH - |path|);
      if |path| < FANOUT_RECURSE_DEPTH && cur < |g.succs| {
        CallsBinary(g, track, path + [cur], g.succs[cur]);
        AtMostTwo(|g.succs[cur]|, Doubling(FANOUT_RECURSE_DEPTH - |path| - 1));
      }
      hide Doubling;
      OneMore(|firsts|, d);
    }
  }

  lemma AtMostTwo(n: nat, d: nat)
    requires n <= 2
    ensures n * d <= 2 * d
  {
  }

  lemma OneMore(n: nat, d: nat)
    requires n > 0
    ensures n * d == (n - 1) * d + d
  {
  }

  /** A straight line of blocks out of the head, of which only the last has a decref
      (or raises, if that ends a walk too). */
  ghost predicate Line(g: Cfg, head: nat, track: bool, w: Path) {
    && WellFormed(g) && head < |g.blocks| && 0 < |w| <= 14
    && (forall k :: 0 <= k < |w| ==> Next(g, head, w[..k]) == [w[k]])
    && Passes(g, head, track, w[..|w| - 1]) && !ReleasesNothing(g, w[|w| - 1])
  }

  lemma LinePasses(g: Cfg, head: nat, track: bool, w: Path, i: nat)
    requires Line(g, head, track, w) && i + 1 < |w|
    ensures Through(g, track, w[i]) && w[i] !in [head] + w[..i] && w[i] < |g.succs| && g.succs[w[i]] == [w[i + 1]]
  {
    var t := w[..|w| - 1];
    assert t[i] == w[i] && t[..i] == w[..i];
    assert Next(g, head, w[..i + 1]) == [w[i + 1]];
    assert w[i] in [head] + w[..i] <==> w[i] == head || w[i] in w[..i];
  }

  lemma LineEnds(g: Cfg, head: nat, track: bool, w: Path)
    requires Line(g, head, track, w)
    ensures !Through(g, track, w[|w| - 1]) && |w| <= 14
    ensures Calls(g, track, [head], g.succs[head]) == Calls(g, track, [head] + w[..0], [w[0]])
  {
    assert [head] + w[..0] == [head];
    assert Next(g, head, w[..0]) == g.succs[head];
  }

  lemma OneCall(g: Cfg, track: bool, path: seq<nat>, cur: nat)
    requires |path| < FANOUT_RECURSE_DEPTH
    ensures !Through(g, track, cur) ==> Calls(g, track, path, [cur]) == 1
    ensures cur !in path && Through(g, track, cur) && cur < |g.succs| ==>
      Calls(g, track, path, [cur]) == 1 + Calls(g, track, path + [cur], g.succs[cur])
  {
    assert [cur][..0] == [];
    assert Calls(g, track, path, [cur]) == Calls(g, track, path, []) + CallsAt(g, track, path, cur);
  }

  lemma {:induction false} LineFrom(g: Cfg, head: nat, track: bool, w: Path, i: nat)
    requires Line(g, head, track, w) && i < |w| <= 14
    ensures Calls(g, track, [head] + w[..i], [w[i]]) == |w| - i
    decreases |w| - i
  {
    hide Line, Through, Calls;
    OneCall(g, track, [head] + w[..i], w[i]);
    if i + 1 < |w| {
      LinePasses(g, head, track, w, i);
      LineFrom(g, head, track, w, i + 1);
      assert ([head] + w[..i]) + [w[i]] == [head] + w[..i + 1];
    } else {
      LineEnds(g, head, track, w);
    }
  }

  /** A search along a straight line of `n` blocks is within a limit of `n` and of
      nothing less, short of the largest limits. */
  lemma LineInLimit(g: Cfg, head: nat, track: bool, w: Path, limit: nat)
    requires Line(g, head, track, w) && limit < 0xFFFF_FFFF
    ensures InLimit(g, head, track, limit) <==> |w| <= limit
  {
    LineEnds(g, head, track, w);
    LineFrom(g, head, track, w, 0);
    assert head < |g.succs|;
    hide Line, Calls;
  }
}
