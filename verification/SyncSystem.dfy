/** The syncer, the finalized-block fetcher and the node, interleaved. The syncer commits one
    transaction per run; the fetcher's transaction reads committed data, so a syncer commit may
    land between any two of its statements. Node reorganisations show only as the branches the
    syncer is told about. */
module SyncSystem {
  import opened Common
  import opened BlockTree
  import opened SyncerDb
  import opened SyncerInvariant
  import opened Finality

  /** Where the fetcher is inside `run_once`. `bound` is the height of the announced block, none
      for a reorg event; `pending` is what the open transaction has given to the handler. */
  datatype Fetch =
    | Idle
    | Got(event: Event)
    | Open(bound: Option<nat>, expected: nat, pending: seq<Handled>, block: Option<Block>)

  /** `chain` is an auxiliary variable: `ChainDetermined` shows the tables fix it. */
  datatype Sys = Sys(db: Db, chain: seq<BlockHash>, current: nat, next: nat, fetch: Fetch)

  predicate Guard(p: Params, f: Fetch) {
    f.Open? && f.bound.Some? && Finalized(p, f.expected, f.bound.value)
  }

  // ---------------------------------------------------------------- steps

  ghost predicate Init(t: Tree, p: Params, s: Sys) {
    exists b: Block, id: nat :: InitWith(t, p, s, b, id)
  }

  ghost predicate InitWith(t: Tree, p: Params, s: Sys, b: Block, id: nat) {
    && ValidTree(t) && b.hash in t && t[b.hash].block == b && t[b.hash].height == p.start
    && s == Sys(ProcessBlock(EmptyDb.(nextId := id), b, p.start), [b.hash], p.start, p.start, Idle)
  }

  /** A working run: the branch `bs`, ending one above the current height and at most `depth`
      long, replaces the chain after its first `k` blocks. */
  ghost predicate SyncWorkWith(t: Tree, p: Params, s: Sys, s': Sys, k: nat, bs: seq<Block>) {
    && 1 <= k <= |s.chain| && 1 <= |bs| <= p.depth
    && Continues(t, s.chain[..k], bs)
    && p.start + k + |bs| == s.current + 2
    && s' == s.(db := CommitBranch(s.db, bs, p.start + k),
                chain := s.chain[..k] + Hashes(bs),
                current := s.current + 1)
  }

  ghost predicate SyncWork(t: Tree, p: Params, s: Sys, s': Sys) {
    exists k: nat, bs: seq<Block> :: SyncWorkWith(t, p, s, s', k, bs)
  }

  /** A rolled-back run; the id sequence is not rolled back. */
  ghost predicate SyncFail(s: Sys, s': Sys) {
    s'.db.nextId >= s.db.nextId && s' == s.(db := s.db.(nextId := s'.db.nextId))
  }

  /** A new syncer takes its height from the database. */
  ghost predicate SyncRestart(s: Sys, s': Sys) {
    IsMaxHeight(s.db, s'.current) && s' == s.(current := s'.current)
  }

  ghost predicate FetchEvent(s: Sys, s': Sys) {
    s.fetch.Idle? && s.db.cursor < |s.db.events| && s' == s.(fetch := Got(s.db.events[s.db.cursor]))
  }

  ghost predicate FetchHeight(s: Sys, s': Sys) {
    && s.fetch.Got?
    && var e := s.fetch.event;
       && (e.NewBlock? ==> e.id in s.db.blocks)
       && s' == s.(fetch := Open(if e.NewBlock? then Some(s.db.blocks[e.id].height) else None, s.next, [], None))
  }

  ghost predicate FetchBlock(p: Params, s: Sys, s': Sys) {
    && Guard(p, s.fetch) && s.fetch.block.None? && s.fetch.expected in s.db.full
    && s' == s.(fetch := s.fetch.(block := Some(s.db.full[s.fetch.expected])))
  }

  ghost predicate FetchHandleWith(s: Sys, s': Sys, id: nat) {
    && s.fetch.Open? && s.fetch.block.Some? && IsCanonicalAt(s.db, id, s.fetch.expected)
    && s' == s.(fetch := Open(s.fetch.bound, s.fetch.expected + 1,
                              s.fetch.pending + [Handled(id, s.fetch.block.value, s.fetch.expected)], None))
  }

  ghost predicate FetchHandle(s: Sys, s': Sys) {
    exists id: nat :: FetchHandleWith(s, s', id)
  }

  ghost function Committed(s: Sys): Db
    requires s.fetch.Open?
  {
    s.db.(cursor := s.db.cursor + 1, handled := s.db.handled + s.fetch.pending)
  }

  ghost predicate FetchCommit(p: Params, s: Sys, s': Sys) {
    && s.fetch.Open? && !Guard(p, s.fetch) && s.fetch.block.None?
    && s' == s.(db := Committed(s), next := s.fetch.expected, fetch := Idle)
  }

  /** The process dies after the commit, before the height in memory is updated; the new fetcher
      takes its height from the database. */
  ghost predicate FetchCommitCrash(p: Params, s: Sys, s': Sys) {
    && p.depth >= 1 && s.fetch.Open? && !Guard(p, s.fetch) && s.fetch.block.None?
    && EventsKnown(Committed(s))
    && s' == s.(db := Committed(s), next := NextFor(p, Committed(s)), fetch := Idle)
  }

  /** The event at the cursor makes height `next` final. */
  ghost predicate EventFinalizes(p: Params, db: Db, next: nat) {
    && db.cursor < |db.events|
    && var e := db.events[db.cursor];
       e.NewBlock? && e.id in db.blocks && Finalized(p, next, db.blocks[e.id].height)
  }

  /** The commit lands but its reply is lost: the run returns an error and the task, which
      recovers from errors, goes on with the height it had. */
  ghost predicate FetchCommitLost(p: Params, s: Sys, s': Sys) {
    && s.fetch.Open? && !Guard(p, s.fetch) && s.fetch.block.None?
    && s' == s.(db := Committed(s), fetch := Idle)
  }

  ghost predicate FetchFail(s: Sys, s': Sys) {
    s' == s.(fetch := Idle)
  }

  ghost predicate FetchRestart(p: Params, s: Sys, s': Sys) {
    p.depth >= 1 && EventsKnown(s.db) && s' == s.(next := NextFor(p, s.db), fetch := Idle)
  }

  ghost predicate SyncStep(t: Tree, p: Params, s: Sys, s': Sys) {
    SyncWork(t, p, s, s') || SyncFail(s, s') || SyncRestart(s, s')
  }

  /** A reply may be lost where the event makes no height final; `LostReply` shows why only there. */
  ghost predicate FetchStep(p: Params, s: Sys, s': Sys) {
    || FetchEvent(s, s') || FetchHeight(s, s') || FetchBlock(p, s, s') || FetchHandle(s, s')
    || FetchCommit(p, s, s') || FetchCommitCrash(p, s, s') || FetchFail(s, s') || FetchRestart(p, s, s')
    || (FetchCommitLost(p, s, s') && !EventFinalizes(p, s.db, s.next))
  }

  ghost predicate Step(t: Tree, p: Params, s: Sys, s': Sys) {
    SyncStep(t, p, s, s') || FetchStep(p, s, s')
  }

  ghost predicate Run(t: Tree, p: Params, run: seq<Sys>) {
    && p.depth >= 1 && run != [] && Init(t, p, run[0])
    && forall i :: 0 < i < |run| ==> Step(t, p, run[i - 1], run[i])
  }

  // ---------------------------------------------------------------- invariant

  ghost predicate TipOk(p: Params, s: Sys) {
    s.chain != [] && s.current == p.start + |s.chain| - 1 && NoneAbove(s.db, s.current)
  }

  ghost predicate ChainBlock(t: Tree, start: nat, chain: seq<BlockHash>, height: nat, b: Block) {
    start <= height < start + |chain| && chain[height - start] in t && b == t[chain[height - start]].block
  }

  /** `d` is the final canonical block at `height`. */
  ghost predicate FinalBlock(t: Tree, p: Params, s: Sys, d: Handled, height: nat) {
    && d.height == height && height + p.depth <= s.current + 1
    && ChainBlock(t, p.start, s.chain, height, d.block)
    && s.chain[height - p.start] in s.db.idOf && d.id == s.db.idOf[s.chain[height - p.start]]
  }

  ghost predicate FinalRun(t: Tree, p: Params, s: Sys, ds: seq<Handled>, from: nat) {
    forall i :: 0 <= i < |ds| ==> FinalBlock(t, p, s, ds[i], from + i)
  }

  /** The fetcher's committed progress: one final block per height from the start to `next`. */
  ghost predicate FetchOk(t: Tree, p: Params, s: Sys)
    requires p.depth >= 1
  {
    && EventsKnown(s.db) && s.next == NextFor(p, s.db)
    && p.start + |s.db.handled| == s.next
    && FinalRun(t, p, s, s.db.handled, p.start)
  }

  /** The open transaction's progress. */
  ghost predicate OpenOk(t: Tree, p: Params, s: Sys)
    requires EventsKnown(s.db)
  {
    match s.fetch
    case Idle => true
    case Got(e) => s.db.cursor < |s.db.events| && s.db.events[s.db.cursor] == e
    case Open(bound, expected, pending, block) =>
      && s.db.cursor < |s.db.events|
      && var e := s.db.events[s.db.cursor];
      && bound == (if e.NewBlock? then Some(s.db.blocks[e.id].height) else None)
      && expected == s.next + |pending|
      && FinalRun(t, p, s, pending, s.next)
      && (pending != [] ==> bound.Some? && Finalized(p, expected - 1, bound.value))
      && (block.Some? ==> Guard(p, s.fetch) && ChainBlock(t, p.start, s.chain, expected, block.value))
  }

  ghost predicate SysInv(t: Tree, p: Params, s: Sys) {
    && p.depth >= 1
    && Inv(t, p.start, s.db, s.chain)
    && TipOk(p, s)
    && FetchOk(t, p, s)
    && OpenOk(t, p, s)
  }

  // ---------------------------------------------------------------- how the tables evolve

  /** Rows keep hash, height and id, and the log only grows. */
  ghost predicate Evolves(d: Db, e: Db) {
    && (forall id :: id in d.blocks ==> id in e.blocks && e.blocks[id].hash == d.blocks[id].hash && e.blocks[id].height == d.blocks[id].height)
    && (forall h :: h in d.idOf ==> h in e.idOf && e.idOf[h] == d.idOf[h])
    && |d.events| <= |e.events| && e.events[..|d.events|] == d.events
  }

  /** Ids come from the sequence and the hash index points at rows. */
  ghost predicate Indexed(d: Db) {
    && (forall id :: id in d.blocks ==> id < d.nextId)
    && (forall h :: h in d.idOf ==> d.idOf[h] in d.blocks)
  }

  lemma {:induction false} EvolvesTransitive(d: Db, e: Db, f: Db)
    requires Evolves(d, e) && Evolves(e, f)
    ensures Evolves(d, f)
  {
    assert f.events[..|d.events|] == f.events[..|e.events|][..|d.events|];
  }

  lemma {:induction false} ProcessEvolves(d: Db, b: Block, height: nat)
    requires Indexed(d)
    ensures Evolves(d, ProcessBlock(d, b, height)) && Indexed(ProcessBlock(d, b, height))
    ensures ProcessBlock(d, b, height).cursor == d.cursor && ProcessBlock(d, b, height).handled == d.handled
  {
  }

  lemma {:induction false} ProcessAllEvolves(d: Db, bs: seq<Block>, height: nat)
    requires Indexed(d)
    ensures Evolves(d, ProcessBlocks(d, bs, height)) && Indexed(ProcessBlocks(d, bs, height))
    ensures ProcessBlocks(d, bs, height).cursor == d.cursor && ProcessBlocks(d, bs, height).handled == d.handled
    decreases |bs|
  {
    hide ProcessBlock; hide Indexed;
    if bs != [] {
      var n := |bs| - 1;
      ProcessAllEvolves(d, bs[..n], height);
      var mid := ProcessBlocks(d, bs[..n], height);
      ProcessEvolves(mid, bs[n], height + n);
      EvolvesTransitive(d, mid, ProcessBlock(mid, bs[n], height + n));
    }
  }

  lemma {:induction false} DropEvolves(d: Db, h: nat)
    requires Indexed(d)
    ensures Evolves(d, DropAbove(d, h)) && Indexed(DropAbove(d, h))
  {
  }

  lemma {:induction false} CommitEvolves(d: Db, bs: seq<Block>, height: nat)
    requires Indexed(d) && height > 0
    ensures var e := CommitBranch(d, bs, height);
            Evolves(d, e) && e.cursor == d.cursor && e.handled == d.handled
  {
    hide Indexed; hide Evolves; hide ProcessBlocks;
    var m := DropAbove(d, height - 1);
    DropEvolves(d, height - 1);
    ProcessAllEvolves(m, bs, height);
    EvolvesTransitive(d, m, ProcessBlocks(m, bs, height));
  }

  lemma {:induction false} TableIndexed(t: Tree, start: nat, d: Db)
    requires Table(t, start, d)
    ensures Indexed(d)
  {
    forall id | id in d.blocks ensures id < d.nextId {
      assert RowOk(t, start, d, id);
    }
  }

  // ---------------------------------------------------------------- what later states keep

  /** The tables evolve, the tip does not go back, and final blocks stay on the chain. */
  ghost predicate Later(p: Params, s: Sys, s': Sys) {
    && Evolves(s.db, s'.db) && s.current <= s'.current
    && (forall h: nat :: p.start <= h && h + p.depth <= s.current + 1 ==> SameAt(p.start, s.chain, s'.chain, h))
  }

  ghost predicate SameAt(start: nat, c: seq<BlockHash>, d: seq<BlockHash>, h: nat) {
    start <= h < start + |c| && h < start + |d| && d[h - start] == c[h - start]
  }

  lemma {:induction false} LaterTransitive(p: Params, a: Sys, b: Sys, c: Sys)
    requires Later(p, a, b) && Later(p, b, c)
    ensures Later(p, a, c)
  {
    EvolvesTransitive(a.db, b.db, c.db);
    forall h: nat | p.start <= h && h + p.depth <= a.current + 1
      ensures SameAt(p.start, a.chain, c.chain, h)
    {
      assert SameAt(p.start, a.chain, b.chain, h) && SameAt(p.start, b.chain, c.chain, h);
    }
  }

  /** A working run keeps every block with `depth` confirmations in place. */
  lemma {:induction false} WorkLater(t: Tree, p: Params, s: Sys, s': Sys, k: nat, bs: seq<Block>)
    requires SysInv(t, p, s) && SyncWorkWith(t, p, s, s', k, bs)
    ensures Later(p, s, s')
    ensures s'.db.cursor == s.db.cursor && s'.db.handled == s.db.handled
  {
    hide Inv; hide FetchOk; hide OpenOk; hide CommitBranch; hide Evolves; hide Continues; hide Table;
    assert Table(t, p.start, s.db) by { InvTable(t, p.start, s.db, s.chain); }
    TableIndexed(t, p.start, s.db);
    CommitEvolves(s.db, bs, p.start + k);
  }

  lemma {:induction false} InvTable(t: Tree, start: nat, db: Db, chain: seq<BlockHash>)
    requires Inv(t, start, db, chain)
    ensures Table(t, start, db) && Log(db) && Chain(t, start, chain)
  {
  }

  lemma {:induction false} FinalRunLater(t: Tree, p: Params, s: Sys, s': Sys, ds: seq<Handled>, from: nat)
    requires Later(p, s, s') && FinalRun(t, p, s, ds, from)
    ensures FinalRun(t, p, s', ds, from)
  {
    forall i | 0 <= i < |ds| ensures FinalBlock(t, p, s', ds[i], from + i) {
      assert FinalBlock(t, p, s, ds[i], from + i);
      assert SameAt(p.start, s.chain, s'.chain, from + i);
    }
  }

  lemma {:induction false} NextForStable(p: Params, d: Db, e: Db)
    requires p.depth >= 1 && EventsKnown(d) && EventsKnown(e) && Evolves(d, e) && e.cursor == d.cursor
    ensures NextFor(p, e) == NextFor(p, d)
  {
    assert e.events[..d.cursor] == e.events[..|d.events|][..d.cursor];
    MaxEventStable(d.blocks, e.blocks, d.events[..d.cursor]);
  }

  /** Whatever the syncer does between two statements of the fetcher leaves its progress valid. */
  lemma {:induction false} FetchSurvives(t: Tree, p: Params, s: Sys, s': Sys)
    requires SysInv(t, p, s) && Later(p, s, s')
    requires EventsKnown(s'.db) && s'.db.cursor == s.db.cursor && s'.db.handled == s.db.handled
    requires s'.next == s.next && s'.fetch == s.fetch
    ensures FetchOk(t, p, s')
    ensures OpenOk(t, p, s')
  {
    hide Inv;
    NextForStable(p, s.db, s'.db);
    FinalRunLater(t, p, s, s', s.db.handled, p.start);
    if s.fetch.Got? || s.fetch.Open? {
      assert s'.db.events[s.db.cursor] == s'.db.events[..|s.db.events|][s.db.cursor];
    }
    if s.fetch.Open? {
      FinalRunLater(t, p, s, s', s.fetch.pending, s.next);
      if s.fetch.block.Some? {
        BoundBelowTip(t, p, s);
        assert SameAt(p.start, s.chain, s'.chain, s.fetch.expected);
      }
    }
  }

  /** The height a transaction was opened for is not above the tip. */
  lemma {:induction false} BoundBelowTip(t: Tree, p: Params, s: Sys)
    requires SysInv(t, p, s) && s.fetch.Open? && s.fetch.bound.Some?
    ensures s.fetch.bound.value <= s.current
  {
    hide Inv;
    var e := s.db.events[s.db.cursor];
    assert e.id in s.db.blocks;
  }

  lemma {:induction false} WorkInv(t: Tree, p: Params, s: Sys, s': Sys, k: nat, bs: seq<Block>)
    requires SysInv(t, p, s) && SyncWorkWith(t, p, s, s', k, bs)
    ensures SysInv(t, p, s')
  {
    hide Inv; hide CommitBranch; hide FetchOk; hide OpenOk; hide Later; hide Log;
    WorkLater(t, p, s, s', k, bs);
    assert NoneAbove(s.db, s.current + 1);
    CommitInv(t, p.start, s.db, s.chain, k, bs, s.current + 1);
    InvTable(t, p.start, s'.db, s'.chain);
    LogKnown(s'.db);
    FetchSurvives(t, p, s, s');
  }

  lemma {:induction false} FailInv(t: Tree, p: Params, s: Sys, s': Sys)
    requires SysInv(t, p, s) && SyncFail(s, s')
    ensures SysInv(t, p, s') && Later(p, s, s')
  {
    hide FetchOk; hide OpenOk; hide Inv;
    FailTables(t, p.start, s.db, s'.db, s.chain);
    InvTable(t, p.start, s'.db, s'.chain);
    LogKnown(s'.db);
    SameLater(p, s, s');
    FetchSurvives(t, p, s, s');
  }

  lemma {:induction false} FailTables(t: Tree, start: nat, d: Db, e: Db, chain: seq<BlockHash>)
    requires Inv(t, start, d, chain) && e.nextId >= d.nextId && e == d.(nextId := e.nextId)
    ensures Inv(t, start, e, chain)
  {
    forall id | id in e.blocks ensures RowOk(t, start, e, id) && SpentOf(t, e, id) {
      assert RowOk(t, start, d, id) && SpentOf(t, d, id);
    }
  }

  lemma {:induction false} SameLater(p: Params, s: Sys, s': Sys)
    requires s.chain != [] && s.current == p.start + |s.chain| - 1 && p.depth >= 1
    requires s'.chain == s.chain && s'.current == s.current
    requires s'.db.blocks == s.db.blocks && s'.db.idOf == s.db.idOf && s'.db.events == s.db.events
    ensures Later(p, s, s')
  {
  }

  /** A restarted syncer resumes at the height it had. */
  lemma {:induction false} RestartSame(t: Tree, p: Params, s: Sys, s': Sys)
    requires SysInv(t, p, s) && SyncRestart(s, s')
    ensures s' == s
  {
    CanonicalIsBranch(t, p.start, s.db, s.chain);
  }
}
