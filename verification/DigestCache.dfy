/** The file-digest cache of one process: its memo, the ledger shards it has
    loaded, and the shards it has to write back. */
module DigestCache {
  import opened Wrappers
  import opened Numbers

  type Byte = nat

  /** SHA-256 without collisions: a digest stands for the bytes it is of. */
  datatype Digest = Sha256(bytes: seq<Byte>)

  /** A directory and a name in it, both identified by number. */
  datatype Path = Path(dir: int, base: int)

  datatype Ident = Ident(ino: nat, size: nat, mtime: int, ctime: int)

  datatype Entry = Entry(ident: Ident, digest: Digest)

  type Shard = map<int, Entry>

  const RACY_NS: int := 2_000_000_000
  const SHARD_CAP: nat := 4096

  datatype Cache = Cache(memo: map<Path, Entry>, shards: map<int, Shard>, dirty: set<int>)

  const EMPTY: Cache := Cache(map[], map[], {})

  /** Loads a shard on first use. An unreadable ledger file counts as empty. */
  function WithShard(c: Cache, dir: int, disk: Option<Shard>): Cache {
    if dir in c.shards then c
    else c.(shards := c.shards[dir := if disk.Some? then disk.value else map[]])
  }

  function Matches(m: Shard, base: int, ident: Ident): bool {
    base in m && m[base].ident == ident
  }

  /** The digest known for this identity, from the memo or else from the ledger. */
  function Lookup(c: Cache, p: Path, ident: Ident, disk: Option<Shard>): (Cache, Option<Digest>) {
    if p in c.memo && c.memo[p].ident == ident then (c, Some(c.memo[p].digest))
    else
      var c' := WithShard(c, p.dir, disk);
      var shard := c'.shards[p.dir];
      if Matches(shard, p.base, ident)
      then (c'.(memo := c'.memo[p := shard[p.base]]), Some(shard[p.base].digest))
      else (c', None)
  }

  /** A digest is kept only if the file had been stable for longer than the racy
      window when the hash was done. */
  function Record(c: Cache, p: Path, e: Entry, now: int, disk: Option<Shard>): Cache {
    if now - Max(e.ident.mtime, e.ident.ctime) > RACY_NS then
      var c' := WithShard(c, p.dir, disk);
      Cache(c'.memo[p := e], c'.shards[p.dir := c'.shards[p.dir][p.base := e]], c'.dirty + {p.dir})
    else c
  }

  function OnDisk(ledger: map<int, Shard>, dir: int, readable: bool): Option<Shard> {
    if readable && dir in ledger then Some(ledger[dir]) else None
  }

  /** What a flush puts in the ledger: the entries on disk overlaid with this
      process's, or a selection of them when there are more than the cap. */
  ghost predicate FlushedTo(own: Shard, disk: Option<Shard>, written: Shard) {
    var merged := (if disk.Some? then disk.value else map[]) + own;
    && (forall b :: b in written ==> b in merged && written[b] == merged[b])
    && (|merged| <= SHARD_CAP ==> written == merged)
    && |written| <= SHARD_CAP
  }

  function ShardOf(c: Cache, dir: int): Shard {
    if dir in c.shards then c.shards[dir] else map[]
  }

  /** The ledger once the shards in `done` have been flushed to it. */
  ghost predicate LedgerAfter(c: Cache, ledger: map<int, Shard>, readable: set<int>, done: set<int>, ledger': map<int, Shard>) {
    && ledger'.Keys == ledger.Keys + done
    && (forall dir :: dir in ledger' && dir !in done ==> ledger'[dir] == ledger[dir])
    && (forall dir :: dir in done ==>
          dir in ledger' && FlushedTo(ShardOf(c, dir), OnDisk(ledger, dir, dir in readable), ledger'[dir]))
  }

  lemma LedgerStart(c: Cache, ledger: map<int, Shard>, readable: set<int>)
    ensures LedgerAfter(c, ledger, readable, {}, ledger)
  {
  }

  lemma LedgerStep(c: Cache, ledger: map<int, Shard>, readable: set<int>, done: set<int>, ledger': map<int, Shard>, dir: int, written: Shard)
    requires LedgerAfter(c, ledger, readable, done, ledger') && dir !in done
    requires FlushedTo(ShardOf(c, dir), OnDisk(ledger', dir, dir in readable), written)
    ensures LedgerAfter(c, ledger, readable, done + {dir}, ledger'[dir := written])
  {
    hide FlushedTo;
    assert OnDisk(ledger', dir, dir in readable) == OnDisk(ledger, dir, dir in readable);
  }

  /** The module's dictionaries, updated in place. */
  class DigestModule {
    var memo: map<Path, Entry>
    var shards: map<int, Shard>
    var dirty: set<int>

    ghost function State(): Cache
      reads this
    {
      Cache(memo, shards, dirty)
    }

    constructor ()
      ensures State() == EMPTY
    {
      memo, shards, dirty := map[], map[], {};
    }

    method DigestShard(dir: int, disk: Option<Shard>) returns (s: Shard)
      modifies this
      ensures State() == WithShard(old(State()), dir, disk) && dir in shards && s == shards[dir]
    {
      if dir !in shards {
        var entries: Shard := map[];
        if disk.Some? {
          entries := disk.value;
        }
        shards := shards[dir := entries];
      }
      s := shards[dir];
    }

    /** The part of `file_sha256` before the file is read. */
    method FindKnown(p: Path, ident: Ident, disk: Option<Shard>) returns (d: Option<Digest>)
      modifies this
      ensures (State(), d) == Lookup(old(State()), p, ident, disk)
    {
      if p in memo && memo[p].ident == ident {
        return Some(memo[p].digest);
      }
      var shard := DigestShard(p.dir, disk);
      if p.base in shard && shard[p.base].ident == ident {
        memo := memo[p := shard[p.base]];
        return Some(shard[p.base].digest);
      }
      return None;
    }

    /** The part after it has been read. */
    method Remember(p: Path, ident: Ident, digest: Digest, now: int, disk: Option<Shard>)
      modifies this
      ensures State() == Record(old(State()), p, Entry(ident, digest), now, disk)
    {
      if now - Max(ident.mtime, ident.ctime) > RACY_NS {
        memo := memo[p := Entry(ident, digest)];
        var shard := DigestShard(p.dir, disk);
        shards := shards[p.dir := shard[p.base := Entry(ident, digest)]];
        dirty := dirty + {p.dir};
      }
    }

    /** Drops entries down to the cap. Which ones go depends on the order of
        insertion: see `LedgerOrder`. */
    method Trim(merged: Shard) returns (written: Shard)
      ensures forall b :: b in written ==> b in merged && written[b] == merged[b]
      ensures |merged| <= SHARD_CAP ==> written == merged
      ensures |written| <= SHARD_CAP
    {
      written := merged;
      while |written| > SHARD_CAP
        invariant forall b :: b in written ==> b in merged && written[b] == merged[b]
        invariant |merged| <= SHARD_CAP ==> written == merged
        decreases |written|
      {
        HasElement(written.Keys);
        var b :| b in written.Keys;
        DropOne(written, b);
        written := written - {b};
      }
    }

    lemma HasElement(s: set<int>)
      requires s != {}
      ensures exists x :: x in s
    {
      assert (forall x :: x !in s) ==> s == {};
    }

    lemma DropOne(m: Shard, b: int)
      requires b in m
      ensures |m - {b}| == |m| - 1
    {
      assert (m - {b}).Keys == m.Keys - {b};
    }

    /** The entry for the file's name in its directory's shard: the one loaded before,
        or else the one on disk. */
    function Shared(p: Path, disk: Option<Shard>): Option<Entry>
      reads this
    {
      if p.dir in shards then (if p.base in shards[p.dir] then Some(shards[p.dir][p.base]) else None)
      else if disk.Some? && p.base in disk.value then Some(disk.value[p.base])
      else None
    }

    /** The whole call, for a file that reads as `bytes`. The ledger may look
        different when it is loaded before the read and after it. A digest that this
        process or another has recorded for the identity is the answer, whatever the
        file would read as. Otherwise the answer is the hash, and is recorded exactly
        if both timestamps are more than two seconds old. */
    method FileSha256(p: Path, ident: Option<Ident>, bytes: seq<Byte>, now: int, before: Option<Shard>, after: Option<Shard>)
      returns (digest: Digest)
      modifies this
      ensures ident.None? ==> digest == Sha256(bytes) && State() == old(State())
      ensures ident.Some? ==>
        var (c, d) := Lookup(old(State()), p, ident.value, before);
        match d
        case Some(known) => digest == known && State() == c
        case None => digest == Sha256(bytes) && State() == Record(c, p, Entry(ident.value, Sha256(bytes)), now, after)
      ensures ident.Some? && p in old(memo) && old(memo)[p].ident == ident.value ==>
                digest == old(memo)[p].digest && State() == old(State())
      ensures ident.Some? && !(p in old(memo) && old(memo)[p].ident == ident.value) ==>
                var known := old(Shared(p, before));
                if known.Some? && known.value.ident == ident.value
                then digest == known.value.digest && memo == old(memo)[p := known.value] && dirty == old(dirty)
                else digest == Sha256(bytes)
                     && if now - ident.value.mtime > 2_000_000_000 && now - ident.value.ctime > 2_000_000_000
                        then memo == old(memo)[p := Entry(ident.value, digest)] && dirty == old(dirty) + {p.dir}
                             && Shared(p, None) == Some(Entry(ident.value, digest))
                        else memo == old(memo) && dirty == old(dirty)
    {
      if ident.None? {
        return Sha256(bytes);
      }
      var known := FindKnown(p, ident.value, before);
      if known.Some? {
        return known.value;
      }
      digest := Sha256(bytes);
      Remember(p, ident.value, digest, now, after);
    }

    /** Merges one dirty shard with what is on disk. */
    method FlushShard(dir: int, disk: Option<Shard>) returns (written: Shard)
      ensures FlushedTo(ShardOf(State(), dir), disk, written)
    {
      var merged: Shard := if disk.Some? then disk.value else map[];
      merged := merged + (if dir in shards then shards[dir] else map[]);
      written := Trim(merged);
    }

    /** Writes the dirty shards back. A shard whose lock or write fails is skipped,
        and is no longer dirty all the same; `readable` says which ledger files
        can be read and parsed. */
    method FlushFileDigests(ledger: map<int, Shard>, readable: set<int>, writable: set<int>)
      returns (ledger': map<int, Shard>)
      modifies this
      ensures State() == old(State()).(dirty := {})
      ensures LedgerAfter(old(State()), ledger, readable, old(dirty) * writable, ledger')
    {
      hide FlushedTo, LedgerAfter, OnDisk, ShardOf;
      ghost var c := State();
      ghost var done := {};
      LedgerStart(c, ledger, readable);
      ledger' := ledger;
      var left := dirty;
      while left != {}
        invariant left <= dirty && State() == c
        invariant LedgerAfter(c, ledger, readable, done, ledger')
        invariant forall dir :: dir in done <==> dir in dirty && dir !in left && dir in writable
      {
        HasElement(left);
        var dir :| dir in left;
        left := left - {dir};
        if dir in writable {
          var written := FlushShard(dir, OnDisk(ledger', dir, dir in readable));
          LedgerStep(c, ledger, readable, done, ledger', dir, written);
          ledger' := ledger'[dir := written];
          done := done + {dir};
        }
      }
      assert forall dir :: dir in done ==> dir in dirty * writable;
      assert forall dir :: dir in dirty * writable ==> dir in done;
      assert done == dirty * writable;
      dirty := {};
    }

    method Forget()
      modifies this
      ensures State() == EMPTY
    {
      memo, shards, dirty := map[], map[], {};
    }
  }
}
