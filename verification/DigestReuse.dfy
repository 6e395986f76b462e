/** What the ledger is for: a digest that one process has recorded and flushed
    answers the calls of the others, without reading the file again. */
module DigestReuse {
  import opened DigestCache
  import opened DigestProtocol
  import opened Wrappers
  import opened Numbers

  /** The process has the entry in the shard of the file's directory. */
  ghost predicate Owns(w: World, i: nat, p: Path, e: Entry) {
    && i < |w.procs| && p.dir in w.procs[i].cache.shards
    && p.base in w.procs[i].cache.shards[p.dir] && w.procs[i].cache.shards[p.dir][p.base] == e
  }

  ghost predicate InLedger(w: World, p: Path, e: Entry) {
    p.dir in w.ledger && p.base in w.ledger[p.dir] && w.ledger[p.dir][p.base] == e
  }

  /** The entry that a call which has read its file makes. */
  function MadeBy(c: Call): Entry
    requires c.Hashed? && c.ident.Some?
  {
    Entry(c.ident.value, c.digest)
  }

  /** Both timestamps are more than two seconds old. */
  predicate Settled(w: World, c: Call)
    requires c.Hashed? && c.ident.Some?
  {
    w.now - c.ident.value.mtime > 2_000_000_000 && w.now - c.ident.value.ctime > 2_000_000_000
  }

  /** Does nothing to the process's entry for the path: it does not forget, and does
      not check another call on that path. */
  ghost predicate LeavesOwn(w: World, s: Step, i: nat, p: Path) {
    && s != Forget(i)
    && !(s.Check? && s.proc == i && i < |w.procs| && w.procs[i].call.Hashed? && w.procs[i].call.path == p)
  }

  /** A flush of the directory reads the file, stays within the cap, and has no other
      entry for the path. */
  ghost predicate LeavesLedger(w: World, s: Step, p: Path, e: Entry) {
    s.Flush? && s.dir == p.dir && s.proc < |w.procs| ==>
      && s.readable && Within(w, s)
      && var own := ShardOf(w.procs[s.proc].cache, p.dir);
         p.base in own ==> own[p.base] == e
  }

  /** What is on disk and what the process has come to at most 4096 entries. */
  ghost predicate Within(w: World, s: Step)
    requires s.Flush? && s.proc < |w.procs|
  {
    var disk := OnDisk(w.ledger, s.dir, s.readable);
    |(if disk.Some? then disk.value else map[]) + ShardOf(w.procs[s.proc].cache, s.dir)| <= 4096
  }

  lemma CheckOwns(w: World, i: nat, readable: bool)
    requires i < |w.procs| && w.procs[i].call.Hashed? && w.procs[i].call.ident.Some? && Settled(w, w.procs[i].call)
    ensures Owns(Do(w, Check(i, readable)), i, w.procs[i].call.path, MadeBy(w.procs[i].call))
  {
  }

  lemma OwnStays(w: World, s: Step, i: nat, p: Path, e: Entry)
    requires Enabled(w, s) && Owns(w, i, p, e) && LeavesOwn(w, s, i, p)
    ensures Owns(Do(w, s), i, p, e)
  {
    hide FlushedTo;
  }

  lemma FlushShares(w: World, s: Step, p: Path, e: Entry)
    requires Enabled(w, s) && s.Flush? && s.dir == p.dir && Owns(w, s.proc, p, e) && Within(w, s)
    ensures InLedger(Do(w, s), p, e)
  {
  }

  lemma LedgerStays(w: World, s: Step, p: Path, e: Entry)
    requires Enabled(w, s) && InLedger(w, p, e) && LeavesLedger(w, s, p, e)
    ensures InLedger(Do(w, s), p, e)
  {
    if s.Flush? && s.dir == p.dir {
      assert OnDisk(w.ledger, p.dir, true) == Some(w.ledger[p.dir]);
    } else {
      hide FlushedTo, Lookup, Record;
    }
  }

  /** A process that has not looked at the path or its directory yet. */
  ghost predicate Fresh(w: World, j: nat, p: Path) {
    j < |w.procs| && p !in w.procs[j].cache.memo && p.dir !in w.procs[j].cache.shards
  }

  /** Its call returns with the ledger's digest in one step. */
  lemma LedgerAnswers(w: World, j: nat, p: Path, e: Entry)
    requires Fresh(w, j, p) && InLedger(w, p, e)
    requires w.procs[j].call.Statted? && w.procs[j].call.path == p && w.procs[j].call.ident == Some(e.ident)
    ensures var after := Do(w, Find(j, true));
            && after.procs[j].call == Returned(p, w.procs[j].call.untouched, e.digest)
            && p in after.procs[j].cache.memo && after.procs[j].cache.memo[p] == e
  {
  }

  lemma {:induction false} OwnsWhile(ws: seq<World>, ss: seq<Step>, a: nat, b: nat, i: nat, p: Path, e: Entry)
    requires IsRun(ws, ss) && a <= b < |ws| && Owns(ws[a], i, p, e)
    requires forall k :: a <= k < b ==> LeavesOwn(ws[k], ss[k], i, p)
    ensures Owns(ws[b], i, p, e)
    decreases b - a
  {
    hide Enabled, Timely, Do, Init, Owns, LeavesOwn;
    if a < b {
      OwnsWhile(ws, ss, a, b - 1, i, p, e);
      OwnStays(ws[b - 1], ss[b - 1], i, p, e);
    }
  }

  lemma {:induction false} LedgerWhile(ws: seq<World>, ss: seq<Step>, a: nat, b: nat, p: Path, e: Entry)
    requires IsRun(ws, ss) && a <= b < |ws| && InLedger(ws[a], p, e)
    requires forall k :: a <= k < b ==> LeavesLedger(ws[k], ss[k], p, e)
    ensures InLedger(ws[b], p, e)
    decreases b - a
  {
    hide Enabled, Timely, Do, Init, InLedger, LeavesLedger;
    if a < b {
      LedgerWhile(ws, ss, a, b - 1, p, e);
      LedgerStays(ws[b - 1], ss[b - 1], p, e);
    }
  }

  /** In every run: process `i` finishes a read of the file at step `a`, with the
      file's timestamps settled, and flushes the directory at `b`. Process `j`, which
      has not looked at the file yet, gets the same identity from its stat. When it
      looks the file up at step `c`, it returns the recorded digest at once, and never
      comes to reading. */
  lemma RecordedIsReused(ws: seq<World>, ss: seq<Step>, a: nat, b: nat, c: nat, i: nat, j: nat)
    requires IsRun(ws, ss) && a < b < c < |ss|
    requires ss[a].Check? && ss[a].proc == i && i < |ws[a].procs| && ws[a].procs[i].call.Hashed?
    requires ws[a].procs[i].call.ident.Some? && Settled(ws[a], ws[a].procs[i].call)
    requires var p := ws[a].procs[i].call.path; forall k :: a < k < b ==> LeavesOwn(ws[k], ss[k], i, p)
    requires ss[b].Flush? && ss[b].proc == i && ss[b].dir == ws[a].procs[i].call.path.dir
    requires i < |ws[b].procs| && Within(ws[b], ss[b])
    requires var call := ws[a].procs[i].call; forall k :: b < k < c ==> LeavesLedger(ws[k], ss[k], call.path, MadeBy(call))
    requires ss[c] == Find(j, true) && Fresh(ws[c], j, ws[a].procs[i].call.path)
    requires ws[c].procs[j].call.Statted? && ws[c].procs[j].call.path == ws[a].procs[i].call.path
    requires ws[c].procs[j].call.ident == ws[a].procs[i].call.ident
    ensures j < |ws[c + 1].procs| && ws[c + 1].procs[j].call.Returned?
    ensures ws[c + 1].procs[j].call.digest == ws[a].procs[i].call.digest
  {
    var call := ws[a].procs[i].call;
    var p, e := call.path, MadeBy(call);
    hide Enabled, Timely, Init, Do, Owns, InLedger, LeavesOwn, LeavesLedger, Within, Fresh, Settled;
    CheckOwns(ws[a], i, ss[a].readable);
    OwnsWhile(ws, ss, a + 1, b, i, p, e);
    FlushShares(ws[b], ss[b], p, e);
    LedgerWhile(ws, ss, b + 1, c, p, e);
    LedgerAnswers(ws[c], j, p, e);
    ProcsStay(ws[c], ss[c], j);
  }

  lemma ProcsStay(w: World, s: Step, j: nat)
    requires j < |w.procs|
    ensures j < |Do(w, s).procs|
  {
    hide Lookup, Record;
  }
}
