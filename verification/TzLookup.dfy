/** Time-zone lookup: the offset in force at an instant, and the inverse problem,
    which offsets a local time may have had. */
module TzLookup {
  import opened TzFile
  import opened Wrappers
  import opened Numbers

  /** The number of transitions at or before an instant. */
  function CountAt(trans: seq<int>, t: int): (n: nat)
    ensures n <= |trans|
  {
    if trans == [] then 0
    else CountAt(trans[..|trans| - 1], t) + (if trans[|trans| - 1] <= t then 1 else 0)
  }

  ghost predicate Sorted(trans: seq<int>) {
    forall i, j :: 0 <= i < j < |trans| ==> trans[i] <= trans[j]
  }

  /** In a sorted table the count splits it: earlier entries are at or before the
      instant, later ones after it. */
  lemma {:induction false} CountSplits(trans: seq<int>, t: int)
    requires Sorted(trans)
    ensures forall i :: 0 <= i < |trans| ==> (trans[i] <= t <==> i < CountAt(trans, t))
  {
    if trans != [] {
      var init, last := trans[..|trans| - 1], trans[|trans| - 1];
      CountSplits(init, t);
      forall i | 0 <= i < |trans| ensures trans[i] <= t <==> i < CountAt(trans, t) {
        if i < |init| {
          assert init[i] == trans[i] <= last;
        } else if last <= t {
          assert forall j :: 0 <= j < |init| ==> init[j] == trans[j] <= last;
          if |init| > 0 {
            assert init[|init| - 1] <= t;
          }
        }
      }
    }
  }

  /** The type in force: that of the last transition at or before the instant, or
      type 0 before the first. */
  function TypeAt(d: TzData, t: int): nat
    requires |d.types| == |d.transitions|
  {
    var n := CountAt(d.transitions, t);
    if n == 0 then 0 else d.types[n - 1]
  }

  function OffsetAt(d: TzData, t: int): Option<(int, bool)>
    requires |d.types| == |d.transitions|
  {
    var k := TypeAt(d, t);
    if k < |d.ttinfo| then Some((d.ttinfo[k].gmtoff, d.ttinfo[k].isdst != 0)) else None
  }

  /** The instant is not before transition `i` and is before the next; -1 stands
      for the time before the first. */
  predicate During(trans: seq<int>, i: int, t: int)
    requires -1 <= i < |trans|
  {
    (i >= 0 ==> trans[i] <= t) && (i + 1 < |trans| ==> t < trans[i + 1])
  }

  /** What the type set by transition `i` says; a type that does not exist says nothing. */
  function SetBy(d: TzData, i: int): Option<(int, bool)>
    requires |d.types| == |d.transitions| && -1 <= i < |d.transitions|
  {
    var k: nat := if i == -1 then 0 else d.types[i];
    if k < |d.ttinfo| then Some((d.ttinfo[k].gmtoff, d.ttinfo[k].isdst != 0)) else None
  }

  /** In a sorted table only one transition can be the one before the instant. */
  lemma SortedDuring(d: TzData, i: int, t: int)
    requires |d.types| == |d.transitions| && Sorted(d.transitions)
    requires -1 <= i < |d.transitions| && During(d.transitions, i, t)
    ensures OffsetAt(d, t) == SetBy(d, i)
  {
    CountSplits(d.transitions, t);
    var n := CountAt(d.transitions, t);
    assert n == i + 1 by {
      assert i >= 0 ==> i < n;
      assert i + 1 < |d.transitions| ==> !(i + 1 < n);
    }
    hide CountAt, Sorted;
  }

  /** Whatever the table, the binary search answers for a transition that is not
      after the instant and whose successor is; in a sorted one that is the last
      transition at or before it. */
  method OffsetForInstant(d: TzData, t: int) returns (r: Option<(int, bool)>)
    requires |d.types| == |d.transitions|
    ensures |d.ttinfo| == 0 ==> r == None
    ensures |d.ttinfo| > 0 ==> exists i :: -1 <= i < |d.transitions| && During(d.transitions, i, t) && r == SetBy(d, i)
    ensures Sorted(d.transitions) && |d.ttinfo| > 0 ==> r == OffsetAt(d, t)
  {
    hide OffsetAt, Sorted;
    if |d.ttinfo| == 0 {
      return None;
    }
    var typeIdx := 0;
    ghost var last := -1;
    if |d.transitions| > 0 {
      if t >= d.transitions[0] {
        var lo, hi, found := 0, |d.transitions| - 1, 0;
        while lo <= hi
          invariant 0 <= lo <= |d.transitions| && -1 <= hi < |d.transitions| && lo <= hi + 1
          invariant 0 <= found < |d.transitions|
          invariant lo > 0 ==> found == lo - 1
          invariant d.transitions[found] <= t
          invariant hi + 1 < |d.transitions| ==> t < d.transitions[hi + 1]
        {
          var mid := lo + (hi - lo) / 2;
          if d.transitions[mid] <= t {
            found := mid;
            lo := mid + 1;
          } else {
            hi := mid - 1;
          }
        }
        last := found;
        typeIdx := d.types[found];
      }
    }
    assert During(d.transitions, last, t);
    if Sorted(d.transitions) {
      SortedDuring(d, last, t);
    }
    if typeIdx >= |d.ttinfo| {
      return None;
    }
    return Some((d.ttinfo[typeIdx].gmtoff, d.ttinfo[typeIdx].isdst != 0));
  }

  // ---- The inverse problem ----

  /** `o` is an offset that local time `local` may have had: subtracting it gives
      an instant at which it was in force. */
  ghost predicate Possible(d: TzData, local: int, o: int)
    requires |d.types| == |d.transitions|
  {
    OffsetAt(d, local - o).Some? && OffsetAt(d, local - o).value.0 == o
  }

  ghost predicate NoDuplicates(s: seq<int>) {
    forall i, j :: 0 <= i < j < |s| ==> s[i] != s[j]
  }

  /** Fills the buffer with the possible offsets, without duplicates. If it is not
      full on return, it holds them all. */
  method PossibleOffsetsForLocal(d: TzData, local: int, maxCount: int) returns (r: Option<seq<int>>)
    requires |d.types| == |d.transitions|
    ensures r.None? <==> maxCount <= 0
    ensures r.Some? ==> |r.value| <= maxCount && NoDuplicates(r.value)
    ensures r.Some? && Sorted(d.transitions) ==> forall o :: o in r.value ==> Possible(d, local, o)
    ensures r.Some? && Sorted(d.transitions) && |r.value| < maxCount ==>
              forall o :: Possible(d, local, o) ==> o in r.value
  {
    if maxCount <= 0 {
      return None;
    }
    var offsets: seq<int> := [];
    var i := 0;
    while i < |d.ttinfo|
      invariant 0 <= i <= |d.ttinfo| && |offsets| < maxCount && NoDuplicates(offsets)
      invariant Sorted(d.transitions) ==> forall o :: o in offsets ==> Possible(d, local, o)
      invariant Sorted(d.transitions) ==>
                  forall k :: 0 <= k < i && Possible(d, local, d.ttinfo[k].gmtoff) ==> d.ttinfo[k].gmtoff in offsets
    {
      var cand := d.ttinfo[i].gmtoff;
      var dup := Contains(offsets, cand);
      i := i + 1;
      if dup {
        continue;
      }
      var at := OffsetForInstant(d, local - cand);
      if at.None? || at.value.0 != cand {
        continue;
      }
      offsets := offsets + [cand];
      if |offsets| >= maxCount {
        return Some(offsets);
      }
    }
    forall o | Sorted(d.transitions) && Possible(d, local, o) ensures o in offsets {
      assert d.ttinfo[TypeAt(d, local - o)].gmtoff == o;
    }
    return Some(offsets);
  }

  method Contains(s: seq<int>, x: int) returns (found: bool)
    ensures found <==> x in s
  {
    var j := 0;
    while j < |s|
      invariant 0 <= j <= |s| && x !in s[..j]
    {
      if s[j] == x {
        return true;
      }
      j := j + 1;
    }
    return false;
  }

  // ---- How many offsets there are ----

  /** The offset in force between transition `i` and the next; -1 stands for the
      time before the first. */
  function SegmentOffset(d: TzData, i: int): int
    requires Proper(d) && -1 <= i < |d.transitions|
  {
    d.ttinfo[if i == -1 then 0 else d.types[i]].gmtoff
  }

  ghost predicate Proper(d: TzData) {
    && |d.types| == |d.transitions| && |d.ttinfo| > 0
    && forall i :: 0 <= i < |d.types| ==> d.types[i] < |d.ttinfo|
  }

  /** Consecutive transitions are farther apart than any two offsets. */
  ghost predicate WellSpaced(d: TzData, spread: nat)
    requires Proper(d)
  {
    && (forall i, j :: -1 <= i < |d.transitions| && -1 <= j < |d.transitions|
          ==> SegmentOffset(d, i) - SegmentOffset(d, j) <= spread)
    && (forall i :: 0 <= i < |d.transitions| - 1 ==> d.transitions[i] + spread < d.transitions[i + 1])
  }

  lemma {:induction false} WellSpacedApart(d: TzData, spread: nat, i: int, j: int)
    requires Proper(d) && WellSpaced(d, spread) && 0 <= i < j < |d.transitions|
    ensures d.transitions[i] + spread < d.transitions[j]
    decreases j - i
  {
    if i + 1 < j {
      WellSpacedApart(d, spread, i, j - 1);
      assert d.transitions[j - 1] + spread < d.transitions[j - 1 + 1];
    }
  }

  lemma WellSpacedSorted(d: TzData, spread: nat)
    requires Proper(d) && WellSpaced(d, spread)
    ensures Sorted(d.transitions)
  {
    forall i, j | 0 <= i < j < |d.transitions| ensures d.transitions[i] <= d.transitions[j] {
      WellSpacedApart(d, spread, i, j);
    }
  }

  /** Segment `i`, seen on the local clock, contains the local time. */
  ghost predicate InSegment(d: TzData, i: int, local: int)
    requires Proper(d) && -1 <= i < |d.transitions|
  {
    && (i >= 0 ==> d.transitions[i] + SegmentOffset(d, i) <= local)
    && (i + 1 < |d.transitions| ==> local < d.transitions[i + 1] + SegmentOffset(d, i))
  }

  lemma PossibleIsSegment(d: TzData, local: int, i: int)
    requires Proper(d) && Sorted(d.transitions) && -1 <= i < |d.transitions| && InSegment(d, i, local)
    ensures CountAt(d.transitions, local - SegmentOffset(d, i)) == i + 1
    ensures Possible(d, local, SegmentOffset(d, i))
  {
    var t := local - SegmentOffset(d, i);
    CountSplits(d.transitions, t);
    var n := CountAt(d.transitions, t);
    if i >= 0 {
      assert d.transitions[i] <= t;
    }
    if i + 1 < |d.transitions| {
      assert !(d.transitions[i + 1] <= t);
    }
  }

  lemma SegmentOfPossible(d: TzData, local: int, o: int) returns (i: int)
    requires Proper(d) && Sorted(d.transitions) && Possible(d, local, o)
    ensures -1 <= i < |d.transitions| && InSegment(d, i, local) && SegmentOffset(d, i) == o
  {
    CountSplits(d.transitions, local - o);
    i := CountAt(d.transitions, local - o) - 1;
  }

  /** The clock was put back at transition `i`, and showed the local time twice. */
  ghost predicate Overlap(d: TzData, i: int, local: int)
    requires Proper(d) && 0 <= i < |d.transitions|
  {
    d.transitions[i] + SegmentOffset(d, i) <= local < d.transitions[i] + SegmentOffset(d, i - 1)
  }

  /** The clock was put forward at transition `i`, over the local time. */
  ghost predicate Gap(d: TzData, i: int, local: int)
    requires Proper(d) && 0 <= i < |d.transitions|
  {
    d.transitions[i] + SegmentOffset(d, i - 1) <= local < d.transitions[i] + SegmentOffset(d, i)
  }

  /** The last transition whose effect is over, on the local clock. */
  function LastDone(d: TzData, local: int, upTo: nat): (k: int)
    requires Proper(d) && upTo <= |d.transitions|
    ensures -1 <= k < upTo
  {
    if upTo == 0 then -1 else if Done(d, local, upTo - 1) then upTo - 1 else LastDone(d, local, upTo - 1)
  }

  predicate Done(d: TzData, local: int, i: nat)
    requires Proper(d) && i < |d.transitions|
  {
    d.transitions[i] + Max(SegmentOffset(d, i - 1), SegmentOffset(d, i)) <= local
  }

  lemma {:induction false} LastDoneSpec(d: TzData, local: int, upTo: nat)
    requires Proper(d) && upTo <= |d.transitions|
    ensures var k := LastDone(d, local, upTo);
            (k >= 0 ==> Done(d, local, k)) && (k + 1 < upTo ==> !Done(d, local, k + 1))
  {
    if upTo > 0 {
      LastDoneSpec(d, local, upTo - 1);
    }
  }

  /** Away from transition `i` by more than the spread, the local time is on the
      same side of it whichever offset is used. */
  lemma OtherSide(d: TzData, spread: nat, i: int, j: int, x: int, y: int)
    requires Proper(d) && WellSpaced(d, spread) && 0 <= i < j < |d.transitions|
    requires -1 <= x < |d.transitions| && -1 <= y < |d.transitions|
    ensures d.transitions[i] + SegmentOffset(d, x) < d.transitions[j] + SegmentOffset(d, y)
  {
    WellSpacedApart(d, spread, i, j);
    assert SegmentOffset(d, x) - SegmentOffset(d, y) <= spread;
  }

  lemma NotYet(d: TzData, spread: nat, local: int, j: int, i: int, x: int)
    requires Proper(d) && WellSpaced(d, spread) && 0 <= j < i < |d.transitions| && -1 <= x < |d.transitions|
    requires !Done(d, local, j)
    ensures local < d.transitions[i] + SegmentOffset(d, x)
  {
    hide WellSpaced, SegmentOffset;
    OtherSide(d, spread, j, i, j - 1, x);
    OtherSide(d, spread, j, i, j, x);
  }

  lemma LongPast(d: TzData, spread: nat, local: int, i: int, k: int, x: int)
    requires Proper(d) && WellSpaced(d, spread) && 0 <= i < k < |d.transitions| && -1 <= x < |d.transitions|
    requires Done(d, local, k)
    ensures d.transitions[i] + SegmentOffset(d, x) <= local
  {
    hide WellSpaced, SegmentOffset;
    OtherSide(d, spread, i, k, x, k);
  }

  lemma EarlierSegments(d: TzData, spread: nat, local: int, i: int)
    requires Proper(d) && WellSpaced(d, spread)
    requires -1 <= i < LastDone(d, local, |d.transitions|)
    ensures !InSegment(d, i, local) && (i >= 0 ==> !Overlap(d, i, local) && !Gap(d, i, local))
  {
    LastDoneSpec(d, local, |d.transitions|);
    var k := LastDone(d, local, |d.transitions|);
    hide WellSpaced, SegmentOffset, LastDone;
    if i + 1 < k {
      LongPast(d, spread, local, i + 1, k, i);
    }
    if i >= 0 {
      LongPast(d, spread, local, i, k, i);
      LongPast(d, spread, local, i, k, i - 1);
    }
  }

  lemma LaterSegments(d: TzData, spread: nat, local: int, i: int)
    requires Proper(d) && WellSpaced(d, spread)
    requires LastDone(d, local, |d.transitions|) + 1 < i < |d.transitions|
    ensures !InSegment(d, i, local) && !Overlap(d, i, local) && !Gap(d, i, local)
  {
    hide WellSpaced, SegmentOffset, LastDone, Max;
    LastDoneSpec(d, local, |d.transitions|);
    var k := LastDone(d, local, |d.transitions|);
    hide WellSpaced, SegmentOffset, LastDone, Done;
    NotYet(d, spread, local, k + 1, i, i);
    NotYet(d, spread, local, k + 1, i, i - 1);
  }

  /** Only the segment of that transition and the next one can contain the local
      time, and no transition but the next can have it in an overlap or gap. */
  lemma OnlyTwoSegments(d: TzData, spread: nat, local: int, i: int)
    requires Proper(d) && WellSpaced(d, spread) && -1 <= i < |d.transitions|
    ensures var k := LastDone(d, local, |d.transitions|);
            && (InSegment(d, i, local) ==> i == k || i == k + 1)
            && (i >= 0 && (Overlap(d, i, local) || Gap(d, i, local)) ==> i == k + 1)
  {
    var k := LastDone(d, local, |d.transitions|);
    LastDoneSpec(d, local, |d.transitions|);
    hide WellSpaced, SegmentOffset, LastDone, InSegment, Proper;
    if i < k {
      EarlierSegments(d, spread, local, i);
    } else if i > k + 1 {
      LaterSegments(d, spread, local, i);
    }
  }

  lemma NextSegments(d: TzData, spread: nat, local: int)
    requires Proper(d) && WellSpaced(d, spread)
    ensures var k := LastDone(d, local, |d.transitions|);
            && (InSegment(d, k, local)
                <==> k + 1 == |d.transitions| || local < d.transitions[k + 1] + SegmentOffset(d, k))
            && (k + 1 < |d.transitions| ==>
                  (InSegment(d, k + 1, local) <==> d.transitions[k + 1] + SegmentOffset(d, k + 1) <= local))
  {
    LastDoneSpec(d, local, |d.transitions|);
    var k := LastDone(d, local, |d.transitions|);
    hide WellSpaced, SegmentOffset, LastDone, Proper;
    if k + 2 < |d.transitions| {
      NotYet(d, spread, local, k + 1, k + 2, k + 1);
    }
  }

  ghost predicate InOverlap(d: TzData, local: int)
    requires Proper(d)
  {
    exists i :: 0 <= i < |d.transitions| && Overlap(d, i, local)
  }

  ghost predicate InGap(d: TzData, local: int)
    requires Proper(d)
  {
    exists i :: 0 <= i < |d.transitions| && Gap(d, i, local)
  }

  lemma WhereTroubleIs(d: TzData, spread: nat, local: int)
    requires Proper(d) && WellSpaced(d, spread)
    ensures var k := LastDone(d, local, |d.transitions|);
            && (InOverlap(d, local) <==> k + 1 < |d.transitions| && Overlap(d, k + 1, local))
            && (InGap(d, local) <==> k + 1 < |d.transitions| && Gap(d, k + 1, local))
  {
    hide WellSpaced, SegmentOffset, LastDone, Overlap, Gap;
    forall i | 0 <= i < |d.transitions| && (Overlap(d, i, local) || Gap(d, i, local))
      ensures i == LastDone(d, local, |d.transitions|) + 1
    {
      OnlyTwoSegments(d, spread, local, i);
    }
  }

  ghost function Members(s: seq<int>): set<int> {
    set x | x in s
  }

  lemma {:induction false} DistinctCount(s: seq<int>)
    requires NoDuplicates(s)
    ensures |Members(s)| == |s|
  {
    if s != [] {
      var init, last := s[..|s| - 1], s[|s| - 1];
      DistinctCount(init);
      assert last !in init && s == init + [last];
      assert Members(s) == Members(init) + {last};
    }
  }

  /** The offset of segment `i`, if the segment contains the local time. */
  ghost function OffsetIfIn(d: TzData, local: int, i: int): set<int>
    requires Proper(d) && -1 <= i <= |d.transitions|
  {
    if i < |d.transitions| && InSegment(d, i, local) then {SegmentOffset(d, i)} else {}
  }

  lemma PossibleIn(d: TzData, spread: nat, local: int, o: int)
    requires Proper(d) && WellSpaced(d, spread) && Possible(d, local, o)
    ensures var k := LastDone(d, local, |d.transitions|);
            o in OffsetIfIn(d, local, k) || o in OffsetIfIn(d, local, k + 1)
  {
    WellSpacedSorted(d, spread);
    hide WellSpaced, SegmentOffset, LastDone, InSegment, Possible, Sorted;
    var i := SegmentOfPossible(d, local, o);
    OnlyTwoSegments(d, spread, local, i);
  }

  lemma InPossible(d: TzData, local: int, o: int, i: int)
    requires Proper(d) && Sorted(d.transitions) && -1 <= i <= |d.transitions| && o in OffsetIfIn(d, local, i)
    ensures Possible(d, local, o)
  {
    hide SegmentOffset, InSegment, Possible, Sorted;
    PossibleIsSegment(d, local, i);
  }

  /** The possible offsets are those of the segments that contain the local time. */
  lemma PossibleSet(d: TzData, spread: nat, local: int, offsets: seq<int>)
    requires Proper(d) && WellSpaced(d, spread)
    requires forall o :: o in offsets <==> Possible(d, local, o)
    ensures var k := LastDone(d, local, |d.transitions|);
            Members(offsets) == OffsetIfIn(d, local, k) + OffsetIfIn(d, local, k + 1)
  {
    WellSpacedSorted(d, spread);
    var k := LastDone(d, local, |d.transitions|);
    hide Possible, OffsetIfIn, WellSpaced, LastDone, Sorted;
    forall o | o in offsets ensures o in OffsetIfIn(d, local, k) || o in OffsetIfIn(d, local, k + 1) {
      PossibleIn(d, spread, local, o);
    }
    forall o | o in OffsetIfIn(d, local, k) ensures o in offsets {
      InPossible(d, local, o, k);
    }
    forall o | o in OffsetIfIn(d, local, k + 1) ensures o in offsets {
      InPossible(d, local, o, k + 1);
    }
  }

  /** In a zone whose transitions are well spaced, a list of all possible offsets
      without duplicates has two entries exactly in an overlap, none exactly in a
      gap, and one everywhere else. */
  lemma HowManyOffsets(d: TzData, spread: nat, local: int, offsets: seq<int>)
    requires Proper(d) && WellSpaced(d, spread) && NoDuplicates(offsets)
    requires forall o :: o in offsets <==> Possible(d, local, o)
    ensures |offsets| == if InOverlap(d, local) then 2 else if InGap(d, local) then 0 else 1
  {
    WhereTroubleIs(d, spread, local);
    NextSegments(d, spread, local);
    PossibleSet(d, spread, local, offsets);
    DistinctCount(offsets);
    hide WellSpaced, SegmentOffset, LastDone, InSegment, Possible, Proper, Members, InOverlap, InGap;
  }

  // ---- Stepping through the transitions ----

  /** The next transition after the instant, or the last one before it; -1 when
      there is none. */
  method NextTransition(d: TzData, t: int, direction: int) returns (r: int)
    ensures direction > 0 ==>
              if exists x :: x in d.transitions && x > t
              then r in d.transitions && r > t
                   && (Sorted(d.transitions) ==> forall x :: x in d.transitions && x > t ==> r <= x)
              else r == -1
    ensures direction <= 0 ==>
              if exists x :: x in d.transitions && x < t
              then r in d.transitions && r < t
                   && (Sorted(d.transitions) ==> forall x :: x in d.transitions && x < t ==> x <= r)
              else r == -1
  {
    var n := |d.transitions|;
    if direction > 0 {
      var i := 0;
      while i < n
        invariant 0 <= i <= n && forall j :: 0 <= j < i ==> d.transitions[j] <= t
      {
        if d.transitions[i] > t {
          return d.transitions[i];
        }
        i := i + 1;
      }
      return -1;
    }
    var i := n - 1;
    while i >= 0
      invariant -1 <= i < n && forall j :: i < j < n ==> d.transitions[j] >= t
    {
      if d.transitions[i] < t {
        return d.transitions[i];
      }
      i := i - 1;
    }
    return -1;
  }
}
