/** Many processes hash files through their caches and one shared ledger, while
    files are written at any moment. Every interleaving is a run of steps. */
module DigestProtocol {
  import opened DigestCache
  import opened Wrappers
  import opened Numbers

  datatype File = File(bytes: seq<Byte>, ino: nat, mtime: int, ctime: int)

  function IdentOf(f: File): Ident {
    Ident(f.ino, |f.bytes|, f.mtime, f.ctime)
  }

  /** Where a process is in `file_sha256`. `since` is the time of its `stat`, and
      `untouched` says that the file has not been written since then. */
  datatype Call =
    | Idle
    | Statted(path: Path, ident: Option<Ident>, since: int, untouched: bool)
    | Hashing(path: Path, ident: Option<Ident>, since: int, untouched: bool, bytes: seq<Byte>)
    | Hashed(path: Path, ident: Option<Ident>, since: int, untouched: bool, digest: Digest)
    | Returned(path: Path, untouched: bool, digest: Digest)

  datatype Proc = Proc(cache: Cache, call: Call)

  /** `grain` is the granularity of file timestamps. */
  datatype World = World(
    now: int, grain: nat, files: map<Path, File>, ledger: map<int, Shard>, procs: seq<Proc>)

  datatype Step =
    | Tick(to: int)
    | Write(path: Path, file: File)
    | Delete(path: Path)
    | Stat(proc: nat, path: Path)
    | Find(proc: nat, readable: bool)
    | ReadChunk(proc: nat, chunk: seq<Byte>)
    | EndRead(proc: nat)
    | Fail(proc: nat)
    | Check(proc: nat, readable: bool)
    | Flush(proc: nat, dir: int, readable: bool, written: Shard)
    | EndFlush(proc: nat)
    | Forget(proc: nat)
    | Spawn

  /** The file at `p` has changed: calls that have looked at it are overlapped. */
  function Touch(procs: seq<Proc>, p: Path): (r: seq<Proc>)
    ensures |r| == |procs|
  {
    seq(|procs|, i requires 0 <= i < |procs| => procs[i].(call := Overlapped(procs[i].call, p)))
  }

  function Overlapped(c: Call, p: Path): Call {
    if c.Idle? || c.path != p then c else c.(untouched := false)
  }

  /** A write stamps the file with the clock, rounded down to the granularity. */
  predicate Stamped(w: World, f: File) {
    w.now - w.grain < f.ctime <= w.now
  }

  function SetProc(w: World, i: nat, p: Proc): World
    requires i < |w.procs|
  {
    w.(procs := w.procs[i := p])
  }

  /** The bytes a chunk may hold: the next bytes of the file if it has not been
      written since the stat, anything at all otherwise. */
  predicate ChunkOk(w: World, c: Call, chunk: seq<Byte>)
    requires c.Hashing?
  {
    c.untouched ==>
      c.path in w.files && c.bytes + chunk <= w.files[c.path].bytes
  }

  ghost predicate Enabled(w: World, s: Step) {
    match s
    case Tick(to) => to >= w.now
    case Write(p, f) => Stamped(w, f)
    case Delete(p) => p in w.files
    case Stat(i, p) => i < |w.procs| && (w.procs[i].call.Idle? || w.procs[i].call.Returned?)
    case Find(i, _) => i < |w.procs| && w.procs[i].call.Statted?
    case ReadChunk(i, chunk) =>
      i < |w.procs| && w.procs[i].call.Hashing? && ChunkOk(w, w.procs[i].call, chunk)
    case EndRead(i) =>
      i < |w.procs| && w.procs[i].call.Hashing?
      && (w.procs[i].call.untouched ==>
            w.procs[i].call.path in w.files && w.procs[i].call.bytes == w.files[w.procs[i].call.path].bytes)
    case Fail(i) => i < |w.procs| && w.procs[i].call.Hashing? && w.procs[i].call.path !in w.files
    case Check(i, _) => i < |w.procs| && w.procs[i].call.Hashed?
    case Flush(i, dir, readable, written) =>
      i < |w.procs| && dir in w.procs[i].cache.dirty
      && FlushedTo(ShardOf(w.procs[i].cache, dir), OnDisk(w.ledger, dir, readable), written)
    case EndFlush(i) => i < |w.procs|
    case Forget(i) => i < |w.procs|
    case Spawn => true
  }

  function Do(w: World, s: Step): World {
    match s
    case Tick(to) => w.(now := to)
    case Write(p, f) => w.(files := w.files[p := f], procs := Touch(w.procs, p))
    case Delete(p) => w.(files := w.files - {p}, procs := Touch(w.procs, p))
    case Stat(i, p) =>
      if i < |w.procs| then
        var ident := if p in w.files then Some(IdentOf(w.files[p])) else None;
        SetProc(w, i, w.procs[i].(call := Statted(p, ident, w.now, true)))
      else w
    case Find(i, readable) =>
      if i < |w.procs| && w.procs[i].call.Statted? then SetProc(w, i, Found(w, w.procs[i], readable)) else w
    case ReadChunk(i, chunk) =>
      if i < |w.procs| && w.procs[i].call.Hashing? then
        SetProc(w, i, w.procs[i].(call := w.procs[i].call.(bytes := w.procs[i].call.bytes + chunk)))
      else w
    case EndRead(i) =>
      if i < |w.procs| && w.procs[i].call.Hashing? then
        var c := w.procs[i].call;
        SetProc(w, i, w.procs[i].(call := Hashed(c.path, c.ident, c.since, c.untouched, Sha256(c.bytes))))
      else w
    case Fail(i) => if i < |w.procs| then SetProc(w, i, w.procs[i].(call := Idle)) else w
    case Check(i, readable) =>
      if i < |w.procs| && w.procs[i].call.Hashed? then SetProc(w, i, Checked(w, w.procs[i], readable)) else w
    case Flush(i, dir, _, written) => w.(ledger := w.ledger[dir := written])
    case EndFlush(i) =>
      if i < |w.procs| then SetProc(w, i, w.procs[i].(cache := w.procs[i].cache.(dirty := {}))) else w
    case Forget(i) => if i < |w.procs| then SetProc(w, i, w.procs[i].(cache := EMPTY)) else w
    case Spawn => w.(procs := w.procs + [Proc(EMPTY, Idle)])
  }

  /** Without an identity nothing is looked up; the file is just hashed. */
  function Found(w: World, p: Proc, readable: bool): Proc
    requires p.call.Statted?
  {
    var c := p.call;
    if c.ident.None? then p.(call := Hashing(c.path, None, c.since, c.untouched, []))
    else
      var (cache, d) := Lookup(p.cache, c.path, c.ident.value, OnDisk(w.ledger, c.path.dir, readable));
      match d
      case Some(digest) => Proc(cache, Returned(c.path, c.untouched, digest))
      case None => Proc(cache, Hashing(c.path, c.ident, c.since, c.untouched, []))
  }

  function Checked(w: World, p: Proc, readable: bool): Proc
    requires p.call.Hashed?
  {
    var c := p.call;
    var cache :=
      if c.ident.None? then p.cache
      else Record(p.cache, c.path, Entry(c.ident.value, c.digest), w.now, OnDisk(w.ledger, c.path.dir, readable));
    Proc(cache, Returned(c.path, c.untouched, c.digest))
  }

  // ---- The invariant ----

  /** An entry tells the truth about the file it matches, and is old enough that
      any later write will give the file another identity. */
  ghost predicate EntryOk(w: World, p: Path, e: Entry) {
    && (p in w.files && IdentOf(w.files[p]) == e.ident ==> e.digest == Sha256(w.files[p].bytes))
    && e.ident.ctime + w.grain <= w.now
  }

  ghost predicate ShardOk(w: World, dir: int, s: Shard) {
    forall b :: b in s ==> EntryOk(w, Path(dir, b), s[b])
  }

  ghost predicate CacheOk(w: World, c: Cache) {
    && (forall p :: p in c.memo ==> EntryOk(w, p, c.memo[p]))
    && (forall dir :: dir in c.shards ==> ShardOk(w, dir, c.shards[dir]))
  }

  /** The identity taken by the stat is still the file's if the file is untouched.
      If it was written since, its ctime is within a grain of the stat or later. */
  ghost predicate SeenOk(w: World, p: Path, ident: Option<Ident>, since: int, untouched: bool) {
    && since <= w.now
    && (untouched ==> ident == if p in w.files then Some(IdentOf(w.files[p])) else None)
    && (!untouched && p in w.files ==> since - w.grain < w.files[p].ctime)
  }

  ghost predicate CallOk(w: World, c: Call) {
    match c
    case Idle => true
    case Statted(p, ident, since, u) => SeenOk(w, p, ident, since, u)
    case Hashing(p, ident, since, u, bytes) =>
      SeenOk(w, p, ident, since, u) && (u && p in w.files ==> bytes <= w.files[p].bytes)
    case Hashed(p, ident, since, u, d) => SeenOk(w, p, ident, since, u) && TellsTruth(w, p, u, d)
    case Returned(p, u, d) => TellsTruth(w, p, u, d)
  }

  /** What `file_sha256` promises: the digest of the file's contents, provided
      that no write has overlapped the call. */
  ghost predicate TellsTruth(w: World, p: Path, untouched: bool, d: Digest) {
    untouched ==> p in w.files && d == Sha256(w.files[p].bytes)
  }

  ghost predicate Inv(w: World) {
    && w.grain <= RACY_NS + 1
    && (forall dir :: dir in w.ledger ==> ShardOk(w, dir, w.ledger[dir]))
    && (forall i :: 0 <= i < |w.procs| ==> CacheOk(w, w.procs[i].cache) && CallOk(w, w.procs[i].call))
  }

  /** A check comes no later than `delay` after the call's stat. */
  predicate Prompt(w: World, s: Step, delay: int) {
    s.Check? && s.proc < |w.procs| && w.procs[s.proc].call.Hashed?
    ==> w.now - w.procs[s.proc].call.since <= delay
  }

  /** The stat-to-check delay, with one grain, exceeds the racy window by one tick
      at most. */
  predicate Timely(w: World, s: Step) {
    Prompt(w, s, RACY_NS + 1 - w.grain)
  }

  // ---- Each step keeps it ----

  lemma TickKeeps(w: World, to: int)
    requires Inv(w) && to >= w.now
    ensures Inv(w.(now := to))
  {
    var w' := w.(now := to);
    forall dir | dir in w'.ledger ensures ShardOk(w', dir, w'.ledger[dir]) {
      assert ShardOk(w, dir, w.ledger[dir]);
    }
    forall i | 0 <= i < |w'.procs| ensures CacheOk(w', w'.procs[i].cache) && CallOk(w', w'.procs[i].call) {
      CacheLater(w, w', w.procs[i].cache);
    }
  }

  lemma CacheLater(w: World, w': World, c: Cache)
    requires CacheOk(w, c) && w'.files == w.files && w'.grain == w.grain && w'.now >= w.now
    ensures CacheOk(w', c)
  {
    forall dir | dir in c.shards ensures ShardOk(w', dir, c.shards[dir]) {
      assert ShardOk(w, dir, c.shards[dir]);
    }
  }

  /** The file at one path was written or removed. */
  ghost predicate Changed(w: World, w': World, p: Path) {
    && w'.now == w.now && w'.grain == w.grain && w'.ledger == w.ledger && w'.procs == Touch(w.procs, p)
    && (forall q :: q != p ==> (q in w'.files <==> q in w.files))
    && (forall q :: q != p && q in w.files ==> w'.files[q] == w.files[q])
    && (p in w'.files ==> Stamped(w, w'.files[p]))
  }

  lemma EntryAfterChange(w: World, w': World, p: Path, q: Path, e: Entry)
    requires Changed(w, w', p) && EntryOk(w, q, e)
    ensures EntryOk(w', q, e)
  {
  }

  lemma CacheAfterChange(w: World, w': World, p: Path, c: Cache)
    requires Changed(w, w', p) && CacheOk(w, c)
    ensures CacheOk(w', c)
  {
    forall q | q in c.memo ensures EntryOk(w', q, c.memo[q]) {
      EntryAfterChange(w, w', p, q, c.memo[q]);
    }
    forall dir | dir in c.shards ensures ShardOk(w', dir, c.shards[dir]) {
      ShardAfterChange(w, w', p, dir, c.shards[dir]);
    }
  }

  lemma ShardAfterChange(w: World, w': World, p: Path, dir: int, s: Shard)
    requires Changed(w, w', p) && ShardOk(w, dir, s)
    ensures ShardOk(w', dir, s)
  {
    forall b | b in s ensures EntryOk(w', Path(dir, b), s[b]) {
      EntryAfterChange(w, w', p, Path(dir, b), s[b]);
    }
  }

  lemma CallAfterChange(w: World, w': World, p: Path, c: Call)
    requires Changed(w, w', p) && CallOk(w, c)
    ensures CallOk(w', Overlapped(c, p))
  {
  }

  lemma ChangeKeeps(w: World, w': World, p: Path)
    requires Inv(w) && Changed(w, w', p)
    ensures Inv(w')
  {
    forall dir | dir in w'.ledger ensures ShardOk(w', dir, w'.ledger[dir]) {
      ShardAfterChange(w, w', p, dir, w.ledger[dir]);
    }
    forall i | 0 <= i < |w'.procs| ensures CacheOk(w', w'.procs[i].cache) && CallOk(w', w'.procs[i].call) {
      CacheAfterChange(w, w', p, w.procs[i].cache);
      CallAfterChange(w, w', p, w.procs[i].call);
    }
  }

  lemma ProcKeeps(w: World, i: nat, p: Proc)
    requires Inv(w) && i < |w.procs| && CacheOk(w, p.cache) && CallOk(w, p.call)
    ensures Inv(SetProc(w, i, p))
  {
    var w' := SetProc(w, i, p);
    forall dir | dir in w'.ledger ensures ShardOk(w', dir, w'.ledger[dir]) {
      assert ShardOk(w, dir, w.ledger[dir]);
    }
    forall j | 0 <= j < |w'.procs| ensures CacheOk(w', w'.procs[j].cache) && CallOk(w', w'.procs[j].call) {
      CacheLater(w, w', w'.procs[j].cache);
    }
  }

  lemma WithShardOk(w: World, c: Cache, dir: int, readable: bool)
    requires Inv(w) && CacheOk(w, c)
    ensures CacheOk(w, WithShard(c, dir, OnDisk(w.ledger, dir, readable)))
  {
    var c' := WithShard(c, dir, OnDisk(w.ledger, dir, readable));
    forall d | d in c'.shards ensures ShardOk(w, d, c'.shards[d]) {
      if d in c.shards {
        assert ShardOk(w, d, c.shards[d]);
      }
    }
  }

  lemma FindKeeps(w: World, i: nat, readable: bool)
    requires Inv(w) && i < |w.procs| && w.procs[i].call.Statted?
    ensures Inv(SetProc(w, i, Found(w, w.procs[i], readable)))
  {
    var p := w.procs[i];
    var c := p.call;
    assert CacheOk(w, p.cache) && CallOk(w, c);
    WithShardOk(w, p.cache, c.path.dir, readable);
    if c.ident.Some? {
      FoundOk(w, p.cache, c.path, c.ident.value, readable);
    }
    ProcKeeps(w, i, Found(w, p, readable));
  }

  /** A digest that is found is the file's if the file still has the identity. */
  lemma FoundOk(w: World, cache: Cache, p: Path, ident: Ident, readable: bool)
    requires Inv(w) && CacheOk(w, cache)
    ensures var (cache', d) := Lookup(cache, p, ident, OnDisk(w.ledger, p.dir, readable));
            && CacheOk(w, cache')
            && (d.Some? && p in w.files && IdentOf(w.files[p]) == ident ==> d.value == Sha256(w.files[p].bytes))
  {
    WithShardOk(w, cache, p.dir, readable);
    var c' := WithShard(cache, p.dir, OnDisk(w.ledger, p.dir, readable));
    assert ShardOk(w, p.dir, c'.shards[p.dir]);
  }

  /** A digest of a torn read is recorded only under an identity that the file
      has lost, and will not have again. */
  lemma CheckKeeps(w: World, i: nat, readable: bool)
    requires Inv(w) && i < |w.procs| && w.procs[i].call.Hashed? && Timely(w, Check(i, readable))
    ensures Inv(SetProc(w, i, Checked(w, w.procs[i], readable)))
  {
    var p := w.procs[i];
    var c := p.call;
    assert CacheOk(w, p.cache) && CallOk(w, c);
    if c.ident.Some? {
      RecordOk(w, p.cache, c, readable);
    }
    ProcKeeps(w, i, Checked(w, p, readable));
  }

  lemma RecordedEntryOk(w: World, c: Call)
    requires c.Hashed? && CallOk(w, c) && c.ident.Some? && w.grain <= RACY_NS + 1
    requires w.now - c.since + w.grain <= RACY_NS + 1
    requires w.now - Max(c.ident.value.mtime, c.ident.value.ctime) > RACY_NS
    ensures EntryOk(w, c.path, Entry(c.ident.value, c.digest))
    ensures !c.untouched && c.path in w.files ==> w.files[c.path].ctime > c.ident.value.ctime
  {
  }

  lemma RecordOk(w: World, cache: Cache, c: Call, readable: bool)
    requires Inv(w) && CacheOk(w, cache) && c.Hashed? && CallOk(w, c) && c.ident.Some?
    requires w.now - c.since + w.grain <= RACY_NS + 1
    ensures CacheOk(w, Record(cache, c.path, Entry(c.ident.value, c.digest), w.now, OnDisk(w.ledger, c.path.dir, readable)))
  {
    var e := Entry(c.ident.value, c.digest);
    if w.now - Max(e.ident.mtime, e.ident.ctime) > RACY_NS {
      RecordedEntryOk(w, c);
      WithShardOk(w, cache, c.path.dir, readable);
      var c1 := WithShard(cache, c.path.dir, OnDisk(w.ledger, c.path.dir, readable));
      var c2 := Record(cache, c.path, e, w.now, OnDisk(w.ledger, c.path.dir, readable));
      assert ShardOk(w, c.path.dir, c1.shards[c.path.dir]);
      forall dir | dir in c2.shards ensures ShardOk(w, dir, c2.shards[dir]) {
        assert dir != c.path.dir ==> ShardOk(w, dir, c1.shards[dir]);
      }
    }
  }

  /** Every entry written comes from the ledger or from the process's own shard. */
  lemma WrittenOk(w: World, i: nat, dir: int, readable: bool, written: Shard)
    requires Inv(w) && Enabled(w, Flush(i, dir, readable, written))
    ensures ShardOk(w, dir, written)
  {
    hide CallOk, EntryOk;
    assert CacheOk(w, w.procs[i].cache);
    var own := ShardOf(w.procs[i].cache, dir);
    assert ShardOk(w, dir, own);
    forall b | b in written ensures EntryOk(w, Path(dir, b), written[b]) {
      assert b !in own ==> dir in w.ledger && b in w.ledger[dir] && ShardOk(w, dir, w.ledger[dir]);
    }
  }

  lemma FlushKeeps(w: World, i: nat, dir: int, readable: bool, written: Shard)
    requires Inv(w) && Enabled(w, Flush(i, dir, readable, written))
    ensures Inv(w.(ledger := w.ledger[dir := written]))
  {
    var w' := w.(ledger := w.ledger[dir := written]);
    WrittenOk(w, i, dir, readable, written);
    hide FlushedTo, OnDisk;
    forall d | d in w'.ledger ensures ShardOk(w', d, w'.ledger[d]) {
      assert d != dir ==> ShardOk(w, d, w.ledger[d]);
    }
    forall j | 0 <= j < |w'.procs| ensures CacheOk(w', w'.procs[j].cache) && CallOk(w', w'.procs[j].call) {
      CacheLater(w, w', w.procs[j].cache);
    }
  }

  lemma SpawnKeeps(w: World)
    requires Inv(w)
    ensures Inv(Do(w, Spawn))
  {
    var w' := Do(w, Spawn);
    forall dir | dir in w'.ledger ensures ShardOk(w', dir, w'.ledger[dir]) {
      assert ShardOk(w, dir, w.ledger[dir]);
    }
    forall j | 0 <= j < |w'.procs| ensures CacheOk(w', w'.procs[j].cache) && CallOk(w', w'.procs[j].call) {
      if j < |w.procs| {
        CacheLater(w, w', w.procs[j].cache);
      }
    }
  }

  lemma StepKeeps(w: World, s: Step)
    requires Inv(w) && Enabled(w, s) && Timely(w, s)
    ensures Inv(Do(w, s))
  {
    match s
    case Tick(to) => TickKeeps(w, to);
    case Write(p, f) => ChangeKeeps(w, Do(w, s), p);
    case Delete(p) => ChangeKeeps(w, Do(w, s), p);
    case Find(i, readable) => FindKeeps(w, i, readable);
    case Check(i, readable) => CheckKeeps(w, i, readable);
    case Flush(i, dir, readable, written) => FlushKeeps(w, i, dir, readable, written);
    case Spawn => SpawnKeeps(w);
    case Stat(i, p) => ProcKeeps(w, i, Do(w, s).procs[i]);
    case ReadChunk(i, chunk) => ProcKeeps(w, i, Do(w, s).procs[i]);
    case EndRead(i) => ProcKeeps(w, i, Do(w, s).procs[i]);
    case Fail(i) => ProcKeeps(w, i, Do(w, s).procs[i]);
    case EndFlush(i) => ProcKeeps(w, i, Do(w, s).procs[i]);
    case Forget(i) => ProcKeeps(w, i, Do(w, s).procs[i]);
  }

  // ---- Whole runs ----

  ghost predicate Init(w: World) {
    && w.ledger == map[]
    && forall i :: 0 <= i < |w.procs| ==> w.procs[i] == Proc(EMPTY, Idle)
  }

  ghost predicate IsRun(ws: seq<World>, ss: seq<Step>) {
    && |ws| == |ss| + 1 && Init(ws[0]) && ws[0].grain <= RACY_NS + 1
    && forall k :: 0 <= k < |ss| ==> Enabled(ws[k], ss[k]) && Timely(ws[k], ss[k]) && ws[k + 1] == Do(ws[k], ss[k])
  }

  lemma {:induction false} InvAlways(ws: seq<World>, ss: seq<Step>, k: nat)
    requires IsRun(ws, ss) && k < |ws|
    ensures Inv(ws[k])
  {
    if k > 0 {
      InvAlways(ws, ss, k - 1);
      hide Inv, Enabled, Timely, Do;
      StepKeeps(ws[k - 1], ss[k - 1]);
    }
  }

  predicate Alters(s: Step, p: Path) {
    (s.Write? && s.path == p) || (s.Delete? && s.path == p)
  }

  /** Between its stat and its return, a call on a file that nobody alters keeps
      its path and stays untouched. */
  predicate OnPath(c: Call, p: Path) {
    !c.Idle? ==> c.path == p && c.untouched
  }

  lemma OnPathStep(w: World, s: Step, i: nat, p: Path)
    requires Enabled(w, s) && i < |w.procs| && OnPath(w.procs[i].call, p)
    requires !Alters(s, p) && !(s.Stat? && s.proc == i)
    ensures i < |Do(w, s).procs| && OnPath(Do(w, s).procs[i].call, p)
  {
    hide Lookup, Record, FlushedTo;
  }

  lemma {:induction false} OnPathWhile(ws: seq<World>, ss: seq<Step>, a: nat, b: nat, i: nat, p: Path)
    requires IsRun(ws, ss) && a < b < |ws| && ss[a] == Stat(i, p)
    requires forall k :: a < k < b ==> !Alters(ss[k], p) && !(ss[k].Stat? && ss[k].proc == i)
    ensures i < |ws[b].procs| && OnPath(ws[b].procs[i].call, p)
    decreases b - a
  {
    if b > a + 1 {
      OnPathWhile(ws, ss, a, b - 1, i, p);
      hide Enabled, Timely, Do, Init;
      OnPathStep(ws[b - 1], ss[b - 1], i, p);
    } else {
      assert Enabled(ws[a], ss[a]) && ws[b] == Do(ws[a], ss[a]);
    }
  }

  /** The promise, over every run: if a process takes the stat of a file at step
      `a` and has its answer at `b`, and nobody writes or removes the file in
      between, the answer is the digest of what the file holds. */
  lemma HashIsRight(ws: seq<World>, ss: seq<Step>, a: nat, b: nat, i: nat, p: Path)
    requires IsRun(ws, ss) && a < b < |ws| && ss[a] == Stat(i, p)
    requires forall k :: a < k < b ==> !Alters(ss[k], p) && !(ss[k].Stat? && ss[k].proc == i)
    requires i < |ws[b].procs| && ws[b].procs[i].call.Returned?
    ensures p in ws[b].files && ws[b].procs[i].call.digest == Sha256(ws[b].files[p].bytes)
  {
    OnPathWhile(ws, ss, a, b, i, p);
    InvAlways(ws, ss, b);
    hide IsRun;
    assert CallOk(ws[b], ws[b].procs[i].call);
  }

  /** The identity is gone for good: the file has a later ctime now, and any later
      write gives it a later one still. */
  ghost predicate Stale(w: World, p: Path, e: Entry) {
    && (p in w.files ==> w.files[p].ctime > e.ident.ctime)
    && e.ident.ctime + w.grain <= w.now
  }

  lemma StaleStep(w: World, s: Step, p: Path, e: Entry)
    requires Enabled(w, s) && Stale(w, p, e)
    ensures Stale(Do(w, s), p, e)
  {
    hide Lookup, Record, FlushedTo;
  }

  lemma {:induction false} StaleForever(ws: seq<World>, ss: seq<Step>, a: nat, b: nat, p: Path, e: Entry)
    requires IsRun(ws, ss) && a <= b < |ws| && Stale(ws[a], p, e)
    ensures Stale(ws[b], p, e)
    decreases b - a
  {
    if b > a {
      hide Enabled, Timely, Do, Init, Stale;
      StaleForever(ws, ss, a, b - 1, p, e);
      StaleStep(ws[b - 1], ss[b - 1], p, e);
    }
  }

  /** An entry recorded from a read that a write overlapped never matches the file
      again, at any later point of the run. */
  lemma TornNeverMatches(ws: seq<World>, ss: seq<Step>, a: nat, b: nat, i: nat, readable: bool)
    requires IsRun(ws, ss) && a < b < |ws| && ss[a] == Check(i, readable)
    requires i < |ws[a].procs| && ws[a].procs[i].call.Hashed? && !ws[a].procs[i].call.untouched
    requires ws[a].procs[i].call.ident.Some?
    requires ws[a].now - Max(ws[a].procs[i].call.ident.value.mtime, ws[a].procs[i].call.ident.value.ctime) > RACY_NS
    ensures var p := ws[a].procs[i].call.path;
            p in ws[b].files ==> IdentOf(ws[b].files[p]) != ws[a].procs[i].call.ident.value
  {
    InvAlways(ws, ss, a);
    var c := ws[a].procs[i].call;
    assert CallOk(ws[a], c) && Timely(ws[a], ss[a]);
    RecordedEntryOk(ws[a], c);
    var e := Entry(c.ident.value, c.digest);
    assert Stale(ws[a], c.path, e);
    StaleForever(ws, ss, a, b, c.path, e);
    hide IsRun;
  }

  // ---- The bound on the delay is exact ----

  /** A run with timestamps of this granularity in which every check comes within
      `delay` of its stat. */
  ghost predicate IsPromptRun(ws: seq<World>, ss: seq<Step>, grain: nat, delay: nat) {
    && |ws| == |ss| + 1 && Init(ws[0]) && ws[0].grain == grain
    && forall k :: 0 <= k < |ss| ==> Enabled(ws[k], ss[k]) && Prompt(ws[k], ss[k], delay) && ws[k + 1] == Do(ws[k], ss[k])
  }

  /** Every answer that no write has overlapped is the digest of the file. */
  ghost predicate Honest(ws: seq<World>) {
    forall k, i :: 0 <= k < |ws| && 0 <= i < |ws[k].procs| && ws[k].procs[i].call.Returned?
      ==> TellsTruth(ws[k], ws[k].procs[i].call.path, ws[k].procs[i].call.untouched, ws[k].procs[i].call.digest)
  }

  lemma SameGrain(w: World, s: Step)
    ensures Do(w, s).grain == w.grain
  {
    hide Lookup, Record;
  }

  lemma {:induction false} GrainKept(ws: seq<World>, ss: seq<Step>, grain: nat, delay: nat, k: nat)
    requires IsPromptRun(ws, ss, grain, delay) && k < |ws|
    ensures ws[k].grain == grain
  {
    if k > 0 {
      GrainKept(ws, ss, grain, delay, k - 1);
      hide Enabled, Prompt, Do, Init;
      SameGrain(ws[k - 1], ss[k - 1]);
    }
  }

  lemma PromptIsHonest(ws: seq<World>, ss: seq<Step>, grain: nat, delay: nat)
    requires IsPromptRun(ws, ss, grain, delay) && delay + grain <= 2_000_000_001
    ensures Honest(ws)
  {
    forall k | 0 <= k < |ss| ensures Timely(ws[k], ss[k]) {
      GrainKept(ws, ss, grain, delay, k);
    }
    assert IsRun(ws, ss) by {
      hide Enabled, Do, Init, Prompt;
    }
    hide IsPromptRun, IsRun;
    forall k, i | 0 <= k < |ws| && 0 <= i < |ws[k].procs| && ws[k].procs[i].call.Returned?
      ensures TellsTruth(ws[k], ws[k].procs[i].call.path, ws[k].procs[i].call.untouched, ws[k].procs[i].call.digest)
    {
      InvAlways(ws, ss, k);
      assert CallOk(ws[k], ws[k].procs[i].call);
    }
  }

  const P: Path := Path(0, 0)

  /** The file is stamped as early as a write at time 0 can be. */
  function Stamp(grain: nat): int {
    1 - grain
  }

  function OldId(grain: nat): Ident {
    Ident(5, 1, Stamp(grain), Stamp(grain))
  }

  function Slow(grain: nat, now: int, bytes: seq<Byte>, cache: Cache, call: Call): World {
    World(now, grain, map[P := File(bytes, 5, Stamp(grain), Stamp(grain))], map[], [Proc(cache, call)])
  }

  const LOADED: Cache := Cache(map[], map[0 := map[]], {})

  function Lying(grain: nat): Entry {
    Entry(OldId(grain), Sha256([1]))
  }

  function Kept(grain: nat): Cache {
    Cache(map[P := Lying(grain)], map[0 := map[0 := Lying(grain)]], {0})
  }

  lemma SlowRead(grain: nat)
    ensures var w := Slow(grain, 0, [1], EMPTY, Idle);
            Init(w) && Enabled(w, Stat(0, P))
            && Do(w, Stat(0, P)) == Slow(grain, 0, [1], EMPTY, Statted(P, Some(OldId(grain)), 0, true))
    ensures var w := Slow(grain, 0, [1], EMPTY, Statted(P, Some(OldId(grain)), 0, true));
            Enabled(w, Find(0, true))
            && Do(w, Find(0, true)) == Slow(grain, 0, [1], LOADED, Hashing(P, Some(OldId(grain)), 0, true, []))
    ensures var w := Slow(grain, 0, [1], LOADED, Hashing(P, Some(OldId(grain)), 0, true, []));
            Enabled(w, ReadChunk(0, [1]))
            && Do(w, ReadChunk(0, [1])) == Slow(grain, 0, [1], LOADED, Hashing(P, Some(OldId(grain)), 0, true, [1]))
  {
    hide FlushedTo;
    var none: seq<Byte> := [];
    assert none + [1] == [1];
  }

  lemma SlowWrite(grain: nat, delay: nat)
    requires grain > 0
    ensures var w := Slow(grain, 0, [1], LOADED, Hashing(P, Some(OldId(grain)), 0, true, [1]));
            var s := Write(P, File([2], 5, Stamp(grain), Stamp(grain)));
            Enabled(w, s) && Do(w, s) == Slow(grain, 0, [2], LOADED, Hashing(P, Some(OldId(grain)), 0, false, [1]))
    ensures var w := Slow(grain, 0, [2], LOADED, Hashing(P, Some(OldId(grain)), 0, false, [1]));
            Enabled(w, EndRead(0))
            && Do(w, EndRead(0)) == Slow(grain, 0, [2], LOADED, Hashed(P, Some(OldId(grain)), 0, false, Sha256([1])))
    ensures var w := Slow(grain, 0, [2], LOADED, Hashed(P, Some(OldId(grain)), 0, false, Sha256([1])));
            Enabled(w, Tick(delay))
            && Do(w, Tick(delay)) == Slow(grain, delay, [2], LOADED, Hashed(P, Some(OldId(grain)), 0, false, Sha256([1])))
  {
    hide FlushedTo;
  }

  lemma SlowCheck(grain: nat, delay: nat)
    requires delay + grain > 2_000_000_001
    ensures var w := Slow(grain, delay, [2], LOADED, Hashed(P, Some(OldId(grain)), 0, false, Sha256([1])));
            Enabled(w, Check(0, true)) && Prompt(w, Check(0, true), delay)
            && Do(w, Check(0, true)) == Slow(grain, delay, [2], Kept(grain), Returned(P, false, Sha256([1])))
  {
    hide FlushedTo, Lookup;
    var c := Record(LOADED, P, Lying(grain), delay, None);
    assert c.memo == map[P := Lying(grain)];
    assert c.shards == map[0 := map[0 := Lying(grain)]];
    assert c.dirty == {0};
  }

  lemma SlowReturn(grain: nat, delay: nat)
    ensures var w := Slow(grain, delay, [2], Kept(grain), Returned(P, false, Sha256([1])));
            Enabled(w, Stat(0, P))
            && Do(w, Stat(0, P)) == Slow(grain, delay, [2], Kept(grain), Statted(P, Some(OldId(grain)), delay, true))
    ensures var w := Slow(grain, delay, [2], Kept(grain), Statted(P, Some(OldId(grain)), delay, true));
            Enabled(w, Find(0, true))
            && Do(w, Find(0, true)) == Slow(grain, delay, [2], Kept(grain), Returned(P, true, Sha256([1])))
  {
    hide FlushedTo;
  }

  /** Whatever the granularity, one tick more of delay is too much. A file is written
      twice within one timestamp grain, the second time while it is being hashed,
      and the check comes as late as allowed. The next call finds the digest of the
      old bytes, although nothing has touched the file since its stat. */
  lemma SlowHashLies(grain: nat, delay: nat) returns (ws: seq<World>, ss: seq<Step>)
    requires grain > 0 && delay + grain > 2_000_000_001
    ensures IsPromptRun(ws, ss, grain, delay) && !Honest(ws)
  {
    hide Enabled, Do, Init;
    SlowRead(grain);
    SlowWrite(grain, delay);
    SlowCheck(grain, delay);
    SlowReturn(grain, delay);
    var id := Some(OldId(grain));
    ws := [Slow(grain, 0, [1], EMPTY, Idle),
           Slow(grain, 0, [1], EMPTY, Statted(P, id, 0, true)),
           Slow(grain, 0, [1], LOADED, Hashing(P, id, 0, true, [])),
           Slow(grain, 0, [1], LOADED, Hashing(P, id, 0, true, [1])),
           Slow(grain, 0, [2], LOADED, Hashing(P, id, 0, false, [1])),
           Slow(grain, 0, [2], LOADED, Hashed(P, id, 0, false, Sha256([1]))),
           Slow(grain, delay, [2], LOADED, Hashed(P, id, 0, false, Sha256([1]))),
           Slow(grain, delay, [2], Kept(grain), Returned(P, false, Sha256([1]))),
           Slow(grain, delay, [2], Kept(grain), Statted(P, id, delay, true)),
           Slow(grain, delay, [2], Kept(grain), Returned(P, true, Sha256([1])))];
    ss := [Stat(0, P), Find(0, true), ReadChunk(0, [1]), Write(P, File([2], 5, Stamp(grain), Stamp(grain))), EndRead(0),
           Tick(delay), Check(0, true), Stat(0, P), Find(0, true)];
    assert ws[9].procs[0].call == Returned(P, true, Sha256([1])) && ws[9].files[P].bytes == [2];
    assert !TellsTruth(ws[9], P, true, Sha256([1])) by {
      assert Sha256([1]) != Sha256([2]);
    }
  }

  /** For every granularity: all runs in which checks come within `delay` of their
      stats are honest, if and only if delay and grain together exceed the racy
      window by one tick at most. */
  lemma DelayExact(grain: nat, delay: nat)
    requires grain > 0
    ensures (forall ws, ss :: IsPromptRun(ws, ss, grain, delay) ==> Honest(ws)) <==> delay + grain <= 2_000_000_001
  {
    hide IsPromptRun, Honest;
    if delay + grain <= 2_000_000_001 {
      forall ws, ss | IsPromptRun(ws, ss, grain, delay) ensures Honest(ws) {
        PromptIsHonest(ws, ss, grain, delay);
      }
    } else {
      var ws, ss := SlowHashLies(grain, delay);
    }
  }
}
