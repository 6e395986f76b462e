/** Which entries of a shard survive the cap: dictionaries with the order in which
    their keys were first inserted, which a ledger file keeps. */
module LedgerOrder {
  import opened DigestCache
  import opened Wrappers

  type Items = seq<(int, Entry)>

  predicate Keyed(d: Items) {
    forall i, j :: 0 <= i < j < |d| ==> d[i].0 != d[j].0
  }

  function Keys(d: Items): (r: seq<int>)
    ensures |r| == |d| && forall i :: 0 <= i < |d| ==> r[i] == d[i].0
  {
    seq(|d|, i requires 0 <= i < |d| => d[i].0)
  }

  ghost function Contents(d: Items): Shard
    requires Keyed(d)
  {
    map i | 0 <= i < |d| :: d[i].0 := d[i].1
  }

  lemma ContentsHas(d: Items)
    requires Keyed(d)
    ensures forall i :: 0 <= i < |d| ==> d[i].0 in Contents(d) && Contents(d)[d[i].0] == d[i].1
    ensures forall k :: k in Contents(d) <==> k in Keys(d)
  {
    assert forall i :: 0 <= i < |d| ==> Keys(d)[i] == d[i].0;
  }

  /** Contents are known by the entries. */
  lemma ContentsIs(d: Items, m: Shard)
    requires Keyed(d)
    requires forall i :: 0 <= i < |d| ==> d[i].0 in m && m[d[i].0] == d[i].1
    requires forall k :: k in m ==> k in Keys(d)
    ensures Contents(d) == m
  {
    ContentsHas(d);
    hide Contents, Keyed;
    var c := Contents(d);
    assert forall k :: k in Keys(d) ==> k in c && k in m && c[k] == m[k];
  }

  lemma {:induction false} ContentsSize(d: Items)
    requires Keyed(d)
    ensures |Contents(d)| == |d|
  {
    if d != [] {
      InitKeyed(d);
      ContentsSize(d[..|d| - 1]);
      ContentsHas(d[..|d| - 1]);
      hide Contents, Keyed, Keys;
    }
  }

  lemma ContentsNext(d: Items, k: int, e: Entry)
    requires Keyed(d) && k !in Keys(d)
    ensures Keyed(d + [(k, e)]) && Contents(d + [(k, e)]) == Contents(d)[k := e]
    ensures Keys(d + [(k, e)]) == Keys(d) + [k]
  {
    var t := d + [(k, e)];
    ContentsHas(d);
    hide Contents;
    assert Keys(t) == Keys(d) + [k];
    assert forall i :: 0 <= i < |d| ==> t[i] == d[i] && d[i].0 in Keys(d);
    assert t[|d|] == (k, e);
    assert Keyed(t);
    ContentsIs(t, Contents(d)[k := e]);
  }

  // ---- Assignment and update ----

  function Position(d: Items, k: int): (i: nat)
    requires k in Keys(d)
    ensures i < |d| && d[i].0 == k
  {
    if d[0].0 == k then 0
    else
      assert Keys(d)[1..] == Keys(d[1..]);
      1 + Position(d[1..], k)
  }

  /** A key that is there keeps its place; a new one goes last. */
  function Assign(d: Items, k: int, e: Entry): Items {
    if k in Keys(d) then d[Position(d, k) := (k, e)] else d + [(k, e)]
  }

  function Update(d: Items, own: Items): Items {
    if own == [] then d
    else Assign(Update(d, own[..|own| - 1]), own[|own| - 1].0, own[|own| - 1].1)
  }

  /** The keys that an update adds, in order. */
  function NewKeys(d: Items, own: Items): seq<int> {
    if own == [] then []
    else
      var last := own[|own| - 1].0;
      NewKeys(d, own[..|own| - 1]) + (if last in Keys(d) then [] else [last])
  }

  lemma AssignOld(d: Items, k: int, e: Entry)
    requires Keyed(d) && k in Keys(d)
    ensures Keyed(Assign(d, k, e)) && Contents(Assign(d, k, e)) == Contents(d)[k := e]
    ensures Keys(Assign(d, k, e)) == Keys(d)
  {
    var i, t, c := Position(d, k), Assign(d, k, e), Contents(d);
    assert t == d[i := (k, e)];
    ContentsHas(d);
    SameKeys(d, i, k, e);
    hide Position, Contents, Assign, Keys;
    assert forall j :: 0 <= j < |d| ==> t[j].0 == d[j].0;
    assert forall j :: 0 <= j < |d| && j != i ==> t[j] == d[j] && d[j].0 != k;
    ContentsIs(t, c[k := e]);
  }

  lemma SameKeys(d: Items, i: nat, k: int, e: Entry)
    requires i < |d| && d[i].0 == k
    ensures Keys(d[i := (k, e)]) == Keys(d)
  {
  }

  lemma AssignKeeps(d: Items, k: int, e: Entry)
    requires Keyed(d)
    ensures Keyed(Assign(d, k, e)) && Contents(Assign(d, k, e)) == Contents(d)[k := e]
    ensures Keys(Assign(d, k, e)) == Keys(d) + (if k in Keys(d) then [] else [k])
  {
    if k in Keys(d) {
      AssignOld(d, k, e);
    } else {
      ContentsNext(d, k, e);
    }
    hide Contents, Position, Keyed;
  }

  lemma InitKeyed(own: Items)
    requires own != [] && Keyed(own)
    ensures var init, last := own[..|own| - 1], own[|own| - 1];
            && Keyed(init) && last.0 !in Keys(init)
            && Contents(own) == Contents(init)[last.0 := last.1]
  {
    var init, last := own[..|own| - 1], own[|own| - 1];
    assert init + [last] == own && last == (last.0, last.1);
    ContentsNext(init, last.0, last.1);
  }

  lemma {:induction false} NewKeysOf(d: Items, own: Items, k: int)
    ensures k in NewKeys(d, own) <==> k in Keys(own) && k !in Keys(d)
  {
    if own != [] {
      var init, last := own[..|own| - 1], own[|own| - 1];
      NewKeysOf(d, init, k);
      assert Keys(own) == Keys(init) + [last.0];
    }
  }

  lemma UpdateStep(d: Items, own: Items)
    ensures own == [] ==> Update(d, own) == d && NewKeys(d, own) == []
    ensures own != [] ==>
      var init, last := own[..|own| - 1], own[|own| - 1];
      && Update(d, own) == Assign(Update(d, init), last.0, last.1)
      && NewKeys(d, own) == NewKeys(d, init) + (if last.0 in Keys(d) then [] else [last.0])
  {
    hide Assign;
  }

  lemma NoContents()
    ensures Contents([]) == map[]
  {
  }

  lemma Overlay(a: Shard, b: Shard, k: int, e: Entry)
    ensures a + b[k := e] == (a + b)[k := e]
  {
  }

  /** An update overlays the contents; the old keys stay where they are, and the
      new ones follow in their own order. */
  lemma {:induction false} UpdateKeeps(d: Items, own: Items)
    requires Keyed(d) && Keyed(own)
    ensures Keyed(Update(d, own)) && Contents(Update(d, own)) == Contents(d) + Contents(own)
    ensures Keys(Update(d, own)) == Keys(d) + NewKeys(d, own)
  {
    hide *;
    UpdateStep(d, own);
    if own == [] {
      NoContents();
      assert Contents(d) + map[] == Contents(d);
    } else {
      var init, last := own[..|own| - 1], own[|own| - 1];
      InitKeyed(own);
      UpdateKeeps(d, init);
      AssignKeeps(Update(d, init), last.0, last.1);
      NewKeysOf(d, init, last.0);
      Overlay(Contents(d), Contents(init), last.0, last.1);
    }
  }

  // ---- The cap ----

  function Trimmed(d: Items): Items {
    if |d| > SHARD_CAP then d[|d| - SHARD_CAP..] else d
  }

  lemma TrimmedKeeps(d: Items)
    requires Keyed(d)
    ensures Keyed(Trimmed(d)) && |Trimmed(d)| <= SHARD_CAP
    ensures forall k :: k in Contents(Trimmed(d)) ==> k in Contents(d) && Contents(Trimmed(d))[k] == Contents(d)[k]
  {
    var t := Trimmed(d);
    ContentsHas(d);
    ContentsHas(t);
    hide Contents;
    forall k | k in Contents(t) ensures k in Contents(d) && Contents(t)[k] == Contents(d)[k] {
      var i :| 0 <= i < |t| && Keys(t)[i] == k;
      assert t[i] == d[if |d| > SHARD_CAP then i + (|d| - SHARD_CAP) else i];
    }
  }

  /** Exactly the last keys survive. */
  lemma TrimmedHas(d: Items, i: nat)
    requires Keyed(d) && i < |d|
    ensures d[i].0 in Keys(Trimmed(d)) <==> |d| - i <= SHARD_CAP
  {
    var t := Trimmed(d);
    if |d| > SHARD_CAP && |d| - i <= SHARD_CAP {
      assert t[i - (|d| - SHARD_CAP)] == d[i];
      assert Keys(t)[i - (|d| - SHARD_CAP)] == d[i].0;
    } else if |d| <= SHARD_CAP {
      assert Keys(t)[i] == d[i].0;
    } else {
      forall j | 0 <= j < |t| ensures Keys(t)[j] != d[i].0 {
        assert t[j] == d[j + (|d| - SHARD_CAP)];
      }
    }
  }

  /** What the ledger file holds; nothing if it cannot be read. */
  function Base(disk: Option<Items>): Items {
    if disk.Some? then disk.value else []
  }

  /** What the flush of one shard writes. */
  function Flushed(own: Items, disk: Option<Items>): Items {
    Trimmed(Update(Base(disk), own))
  }

  ghost function DiskContents(disk: Option<Items>): Option<Shard>
    requires Keyed(Base(disk))
  {
    match disk case None => None case Some(d) => Some(Contents(d))
  }

  lemma BaseContents(disk: Option<Items>)
    requires Keyed(Base(disk))
    ensures Contents(Base(disk)) == if DiskContents(disk).Some? then DiskContents(disk).value else map[]
  {
    NoContents();
    hide Contents, Keyed;
  }

  /** The order only decides which entries go: what is written is one of the
      selections that the protocol allows. */
  lemma FlushedIsAllowed(own: Items, disk: Option<Items>)
    requires Keyed(own) && Keyed(Base(disk))
    ensures Keyed(Flushed(own, disk))
    ensures FlushedTo(Contents(own), DiskContents(disk), Contents(Flushed(own, disk)))
  {
    assert Flushed(own, disk) == Trimmed(Update(Base(disk), own));
    hide *;
    var merged := Update(Base(disk), own);
    UpdateKeeps(Base(disk), own);
    TrimmedKeeps(merged);
    TrimmedWhole(merged);
    ContentsSize(merged);
    ContentsSize(Trimmed(merged));
    BaseContents(disk);
    Selected(Contents(own), DiskContents(disk), Contents(merged), Contents(Trimmed(merged)));
  }

  lemma Selected(own: Shard, disk: Option<Shard>, merged: Shard, written: Shard)
    requires merged == (if disk.Some? then disk.value else map[]) + own
    requires forall b :: b in written ==> b in merged && written[b] == merged[b]
    requires (|merged| <= SHARD_CAP ==> written == merged) && |written| <= SHARD_CAP
    ensures FlushedTo(own, disk, written)
  {
  }

  lemma TrimmedWhole(d: Items)
    ensures |d| <= SHARD_CAP ==> Trimmed(d) == d
  {
  }

  lemma FlushedOver(own: Items, disk: Items)
    ensures Flushed(own, Some(disk)) == Trimmed(Update(disk, own))
  {
    hide Trimmed, Update;
  }

  lemma CapIs()
    ensures SHARD_CAP == 4096
  {
  }

  /** An entry on disk survives exactly if the entries from it on, with those that
      are new to the file, fit under the cap. It makes no difference whether this
      process has just recorded it again. */
  lemma OldSurvives(own: Items, disk: Items, i: nat)
    requires Keyed(own) && Keyed(disk) && i < |disk|
    ensures disk[i].0 in Keys(Flushed(own, Some(disk))) <==> |disk| - i + |NewKeys(disk, own)| <= 4096
  {
    hide *;
    CapIs();
    FlushedOver(own, disk);
    var merged := Update(disk, own);
    UpdateKeeps(disk, own);
    assert |Keys(merged)| == |disk| + |NewKeys(disk, own)|;
    assert Keys(merged)[i] == Keys(disk)[i];
    TrimmedHas(merged, i);
  }

  /** A new entry survives exactly if it and the new ones after it fit. */
  lemma NewSurvives(own: Items, disk: Items, j: nat)
    requires Keyed(own) && Keyed(disk) && j < |NewKeys(disk, own)|
    ensures NewKeys(disk, own)[j] in Keys(Flushed(own, Some(disk))) <==> |NewKeys(disk, own)| - j <= 4096
  {
    hide *;
    CapIs();
    FlushedOver(own, disk);
    var merged := Update(disk, own);
    UpdateKeeps(disk, own);
    assert |Keys(merged)| == |disk| + |NewKeys(disk, own)|;
    assert Keys(merged)[|disk| + j] == NewKeys(disk, own)[j];
    TrimmedHas(merged, |disk| + j);
  }

  /** In a full shard the oldest entry goes as soon as anything is new, although
      this process has just hashed that very file again; and the entry after it,
      however stale, stays if only one is new. */
  lemma FreshEntryIsDropped(own: Items, disk: Items, e: Entry)
    requires Keyed(own) && Keyed(disk) && |disk| == 4096
    requires (disk[0].0, e) in own && NewKeys(disk, own) != []
    ensures disk[0].0 !in Keys(Flushed(own, Some(disk)))
    ensures |NewKeys(disk, own)| == 1 ==> disk[1].0 in Keys(Flushed(own, Some(disk)))
  {
    OldSurvives(own, disk, 0);
    OldSurvives(own, disk, 1);
  }

  lemma FlushedCases(own: Items, disk: Option<Items>)
    ensures var merged := Update(if disk.Some? then disk.value else [], own);
            Flushed(own, disk) == if |merged| > SHARD_CAP then merged[|merged| - SHARD_CAP..] else merged
  {
    hide Update;
  }

  /** The merge of one dirty shard, key order and all. */
  method FlushShard(own: Items, disk: Option<Items>) returns (written: Items)
    requires Keyed(own) && Keyed(Base(disk))
    ensures written == Flushed(own, disk) && Keyed(written)
    ensures FlushedTo(Contents(own), DiskContents(disk), Contents(written))
  {
    hide *;
    FlushedIsAllowed(own, disk);
    FlushedCases(own, disk);
    var merged: Items := [];
    if disk.Some? {
      merged := disk.value;
    }
    merged := Update(merged, own);
    if |merged| > SHARD_CAP {
      merged := merged[|merged| - SHARD_CAP..];
    }
    written := merged;
  }
}
