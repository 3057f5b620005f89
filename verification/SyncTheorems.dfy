/** Safety of the interleaved system over whole runs. */
module SyncTheorems {
  import opened Common
  import opened BlockTree
  import opened SyncerDb
  import opened SyncerInvariant
  import opened Finality
  import opened SyncSystem

  // ---------------------------------------------------------------- fetcher steps

  lemma {:induction false} EventKeeps(t: Tree, p: Params, s: Sys, s': Sys)
    requires SysInv(t, p, s) && (FetchEvent(s, s') || FetchHeight(s, s') || FetchFail(s, s') || FetchRestart(p, s, s'))
    ensures SysInv(t, p, s')
  {
    hide Inv;
    FinalRunSame(t, p, s, s', s.db.handled, p.start);
  }

  /** Which blocks are final depends on the tables, the chain and the tip only. */
  lemma {:induction false} FinalRunSame(t: Tree, p: Params, s: Sys, s': Sys, ds: seq<Handled>, from: nat)
    requires FinalRun(t, p, s, ds, from)
    requires s'.chain == s.chain && s'.current == s.current && s'.db.idOf == s.db.idOf
    ensures FinalRun(t, p, s', ds, from)
  {
    forall i | 0 <= i < |ds| ensures FinalBlock(t, p, s', ds[i], from + i) {
      assert FinalBlock(t, p, s, ds[i], from + i);
    }
  }

  /** Inside the loop the next height is on the chain and final for the tip. */
  lemma {:induction false} GuardOnChain(t: Tree, p: Params, s: Sys)
    requires SysInv(t, p, s) && Guard(p, s.fetch)
    ensures p.start <= s.fetch.expected < p.start + |s.chain|
    ensures s.fetch.expected + p.depth <= s.current + 1
  {
    hide Inv;
    BoundBelowTip(t, p, s);
  }

  lemma {:induction false} BlockKeeps(t: Tree, p: Params, s: Sys, s': Sys)
    requires SysInv(t, p, s) && FetchBlock(p, s, s')
    ensures SysInv(t, p, s')
  {
    hide Inv;
    GuardOnChain(t, p, s);
    FullAt(t, p.start, s.db, s.chain, s.fetch.expected);
    FinalRunSame(t, p, s, s', s.db.handled, p.start);
    FinalRunSame(t, p, s, s', s.fetch.pending, s.next);
  }

  lemma {:induction false} FullAt(t: Tree, start: nat, db: Db, chain: seq<BlockHash>, h: nat)
    requires Inv(t, start, db, chain) && start <= h < start + |chain|
    ensures h in db.full && ChainBlock(t, start, chain, h, db.full[h])
  {
    assert FullBlock(t, start, db.full, chain, h);
  }

  lemma {:induction false} HandleKeeps(t: Tree, p: Params, s: Sys, s': Sys, id: nat)
    requires SysInv(t, p, s) && FetchHandleWith(s, s', id)
    ensures SysInv(t, p, s')
  {
    hide Inv; hide IsCanonicalAt;
    GuardOnChain(t, p, s);
    CanonicalRow(t, p.start, s.db, s.chain, s.fetch.expected);
    FinalRunSame(t, p, s, s', s.db.handled, p.start);
    FinalRunSame(t, p, s, s', s.fetch.pending, s.next);
    var d := Handled(id, s.fetch.block.value, s.fetch.expected);
    assert FinalBlock(t, p, s', d, s.fetch.expected);
    FinalRunSnoc(t, p, s', s.fetch.pending, s.next, d);
  }

  lemma {:induction false} FinalRunSnoc(t: Tree, p: Params, s: Sys, ds: seq<Handled>, from: nat, d: Handled)
    requires FinalRun(t, p, s, ds, from) && FinalBlock(t, p, s, d, from + |ds|)
    ensures FinalRun(t, p, s, ds + [d], from)
  {
  }

  lemma {:induction false} FinalRunConcat(t: Tree, p: Params, s: Sys, ds: seq<Handled>, es: seq<Handled>, from: nat)
    requires FinalRun(t, p, s, ds, from) && FinalRun(t, p, s, es, from + |ds|)
    ensures FinalRun(t, p, s, ds + es, from)
  {
    forall i | 0 <= i < |ds + es| ensures FinalBlock(t, p, s, (ds + es)[i], from + i) {
      if i >= |ds| {
        assert FinalBlock(t, p, s, es[i - |ds|], from + |ds| + (i - |ds|));
      }
    }
  }

  /** The loop's final height is the one a restart would compute once the event is processed. */
  lemma {:induction false} CommitNext(t: Tree, p: Params, s: Sys)
    requires SysInv(t, p, s) && s.fetch.Open? && !Guard(p, s.fetch)
    ensures EventsKnown(Committed(s)) && s.fetch.expected == NextFor(p, Committed(s))
  {
    hide Inv; hide MaxEventHeight; hide TipOk; hide FinalRun; hide AnnouncedFirst;
    var db := s.db;
    var e := db.events[db.cursor];
    LogOrder(t, p.start, s.db, s.chain);
    MaxEventOne(db.blocks, db.events, db.cursor);
    var m := MaxEventHeight(db.blocks, db.events[..db.cursor]);
    if e.NewBlock? {
      LoopEnd(p, m, db.blocks[e.id].height, s.fetch.expected);
    } else {
      ReorgedBelowMax(db);
    }
  }

  /** A reorg event never raises the greatest height: its block was announced before. */
  lemma {:induction false} ReorgedBelowMax(db: Db)
    requires AnnouncedFirst(db.events) && EventsKnown(db) && db.cursor < |db.events| && db.events[db.cursor].ReorgedBlock?
    ensures var h := db.blocks[db.events[db.cursor].id].height;
            var m := MaxEventHeight(db.blocks, db.events[..db.cursor]);
            m.Some? && h <= m.value
  {
    hide MaxEventHeight; hide AnnouncedFirst;
    var e := db.events[db.cursor];
    ReorgedSeen(db.events, db.cursor);
    hide Seen;
    MaxEventAtLeast(db.blocks, db.events[..db.cursor], e.id);
  }

  lemma {:induction false} LogOrder(t: Tree, start: nat, db: Db, chain: seq<BlockHash>)
    requires Inv(t, start, db, chain)
    ensures AnnouncedFirst(db.events)
  {
  }

  lemma {:induction false} ReorgedSeen(events: seq<Event>, i: nat)
    requires AnnouncedFirst(events) && i < |events| && events[i].ReorgedBlock?
    ensures events[i].id in Seen(events[..i])
  {
    hide Seen;
    assert events[..i + 1] == events[..i] + [events[i]];
    SeenOne(events[..i], events[i]);
  }

  lemma {:induction false} CommitKeeps(t: Tree, p: Params, s: Sys, s': Sys)
    requires SysInv(t, p, s) && (FetchCommit(p, s, s') || FetchCommitCrash(p, s, s'))
    ensures SysInv(t, p, s') && s'.next == s.fetch.expected
  {
    hide Inv; hide FinalRun; hide NextFor;
    CommitNext(t, p, s);
    CursorTables(t, p.start, s.db, s'.db, s.chain);
    FinalRunSame(t, p, s, s', s.db.handled, p.start);
    FinalRunSame(t, p, s, s', s.fetch.pending, s.next);
    FinalRunConcat(t, p, s', s.db.handled, s.fetch.pending, p.start);
  }

  lemma {:induction false} CursorTables(t: Tree, start: nat, d: Db, e: Db, chain: seq<BlockHash>)
    requires Inv(t, start, d, chain) && e == d.(cursor := e.cursor, handled := e.handled) && e.cursor <= |d.events|
    ensures Inv(t, start, e, chain)
  {
    forall id | id in e.blocks ensures RowOk(t, start, e, id) && SpentOf(t, e, id) {
      assert RowOk(t, start, d, id) && SpentOf(t, d, id);
    }
  }

  /** A restarted fetcher resumes at the height it had. */
  lemma {:induction false} FetchRestartSame(t: Tree, p: Params, s: Sys, s': Sys)
    requires SysInv(t, p, s) && FetchRestart(p, s, s')
    ensures s' == s.(fetch := Idle)
  {
  }

  /** No read of the fetcher fails: the announced row, the full block and the canonical row exist. */
  lemma {:induction false} FetchNeverFails(t: Tree, p: Params, s: Sys)
    requires SysInv(t, p, s)
    ensures s.fetch.Got? ==> s.fetch.event.id in s.db.blocks
    ensures Guard(p, s.fetch) ==> s.fetch.expected in s.db.full
                                  && exists id: nat :: IsCanonicalAt(s.db, id, s.fetch.expected)
  {
    hide Inv; hide FinalRun;
    if Guard(p, s.fetch) {
      GuardOnChain(t, p, s);
      FullAt(t, p.start, s.db, s.chain, s.fetch.expected);
      CanonicalRow(t, p.start, s.db, s.chain, s.fetch.expected);
      assert IsCanonicalAt(s.db, s.db.idOf[s.chain[s.fetch.expected - p.start]], s.fetch.expected);
    }
  }

  // ---------------------------------------------------------------- the fetcher's transaction is serializable

  ghost predicate Readable(db: Db, h: nat) {
    h in db.full && exists id: nat :: IsCanonicalAt(db, id, h)
  }

  /** What one loop iteration at height `h` gives to the handler, read in one state. */
  ghost function HandledAt(db: Db, h: nat): Handled
    requires Readable(db, h)
  {
    var id: nat :| IsCanonicalAt(db, id, h);
    Handled(id, db.full[h], h)
  }

  ghost function HandleRange(db: Db, from: nat, end: nat): (ds: seq<Handled>)
    requires from <= end && forall h: nat :: from <= h < end ==> Readable(db, h)
    ensures |ds| == end - from
    ensures forall i :: 0 <= i < |ds| ==> ds[i] == HandledAt(db, from + i)
    decreases end
  {
    if from == end then [] else HandleRange(db, from, end - 1) + [HandledAt(db, end - 1)]
  }

  ghost predicate CanFetch(p: Params, db: Db) {
    && p.depth >= 1 && EventsKnown(db) && db.cursor < |db.events|
    && NextFor(p, db) <= NextFor(p, db.(cursor := db.cursor + 1))
    && forall h: nat :: NextFor(p, db) <= h < NextFor(p, db.(cursor := db.cursor + 1)) ==> Readable(db, h)
  }

  /** A whole fetcher run on one event in one state. */
  ghost function AtomicFetch(p: Params, db: Db): Db
    requires CanFetch(p, db)
  {
    var moved := db.(cursor := db.cursor + 1);
    moved.(handled := db.handled + HandleRange(db, NextFor(p, db), NextFor(p, moved)))
  }

  /** A final block is what a read of the current tables returns. */
  lemma {:induction false} FinalIsRead(t: Tree, p: Params, s: Sys, d: Handled, h: nat)
    requires SysInv(t, p, s) && FinalBlock(t, p, s, d, h)
    ensures Readable(s.db, h) && HandledAt(s.db, h) == d
  {
    hide Inv;
    FullAt(t, p.start, s.db, s.chain, h);
    CanonicalRow(t, p.start, s.db, s.chain, h);
    assert IsCanonicalAt(s.db, d.id, h);
  }

  lemma {:induction false} PendingIsRead(t: Tree, p: Params, s: Sys)
    requires SysInv(t, p, s) && s.fetch.Open?
    ensures s.fetch.expected == s.next + |s.fetch.pending|
    ensures forall h: nat :: s.next <= h < s.fetch.expected ==> Readable(s.db, h)
    ensures HandleRange(s.db, s.next, s.fetch.expected) == s.fetch.pending
  {
    hide Readable; hide HandledAt; hide Inv;
    assert FinalRun(t, p, s, s.fetch.pending, s.next);
    forall h: nat | s.next <= h < s.fetch.expected
      ensures Readable(s.db, h) && HandledAt(s.db, h) == s.fetch.pending[h - s.next]
    {
      assert FinalBlock(t, p, s, s.fetch.pending[h - s.next], s.next + (h - s.next));
      FinalIsRead(t, p, s, s.fetch.pending[h - s.next], h);
    }
  }

  /** Although syncer commits may land between the fetcher's statements, what it commits is what
      a run executed at once in the commit state would have written. */
  lemma {:induction false} FetchSerializable(t: Tree, p: Params, s: Sys, s': Sys)
    requires SysInv(t, p, s) && FetchCommit(p, s, s')
    ensures CanFetch(p, s.db) && s'.db == AtomicFetch(p, s.db)
    ensures EventsKnown(s'.db) && s'.next == NextFor(p, s'.db)
  {
    hide Inv; hide Readable; hide HandledAt; hide OpenOk; hide HandleRange;
    CommitNext(t, p, s);
    PendingIsRead(t, p, s);
    var moved := s.db.(cursor := s.db.cursor + 1);
    assert EventsKnown(moved) && NextFor(p, moved) == s.fetch.expected;
  }

  /** A run that is through handled a block exactly when its event makes the next height final. */
  lemma {:induction false} HandlesIffFinal(t: Tree, p: Params, s: Sys)
    requires SysInv(t, p, s) && s.fetch.Open? && !Guard(p, s.fetch)
    ensures s.fetch.pending != [] <==> EventFinalizes(p, s.db, s.next)
  {
    hide Inv; hide FinalRun; hide NextFor;
  }

  /** After a lost reply the height in memory is the one the database gives exactly when the event
      did not make it final; otherwise the block at that height has been handled already. */
  lemma {:induction false} LostReply(t: Tree, p: Params, s: Sys, s': Sys)
    requires SysInv(t, p, s) && FetchCommitLost(p, s, s')
    ensures EventsKnown(s'.db) && (s'.next == NextFor(p, s'.db) <==> !EventFinalizes(p, s.db, s.next))
    ensures SysInv(t, p, s') <==> !EventFinalizes(p, s.db, s.next)
    ensures EventFinalizes(p, s.db, s.next) ==>
      && |s'.db.handled| > s'.next - p.start >= 0
      && s'.db.handled[s'.next - p.start].height == s'.next
  {
    hide Inv; hide NextFor;
    CommitNext(t, p, s);
    HandlesIffFinal(t, p, s);
    var good := s.(db := Committed(s), next := s.fetch.expected, fetch := Idle);
    CommitKeeps(t, p, s, good);
    if s.fetch.pending != [] {
      assert FinalBlock(t, p, s, s.fetch.pending[0], s.next + 0);
    }
  }

  /** What decides this can be read when the run begins: the event and the height do not change
      until the commit. */
  lemma {:induction false} LostReplyFromStart(t: Tree, p: Params, run: seq<Sys>, i: nat, j: nat, s': Sys)
    requires Run(t, p, run) && i <= j < |run|
    requires run[i].fetch.Idle? && run[i].db.cursor == run[j].db.cursor < |run[i].db.events|
    requires FetchCommitLost(p, run[j], s')
    ensures EventsKnown(s'.db) && (s'.next == NextFor(p, s'.db) <==> !EventFinalizes(p, run[i].db, run[i].next))
  {
    hide Run; hide NextFor;
    RunInv(t, p, run, i);
    RunInv(t, p, run, j);
    RunLater(t, p, run, i, j);
    hide Inv;
    NextForStable(p, run[i].db, run[j].db);
    LostReply(t, p, run[j], s');
  }

  // ---------------------------------------------------------------- every step

  lemma {:induction false} StepInv(t: Tree, p: Params, s: Sys, s': Sys)
    requires SysInv(t, p, s) && Step(t, p, s, s')
    ensures SysInv(t, p, s')
  {
    hide SysInv;
    if SyncWork(t, p, s, s') {
      var k: nat, bs: seq<Block> :| SyncWorkWith(t, p, s, s', k, bs);
      WorkInv(t, p, s, s', k, bs);
    } else if SyncFail(s, s') {
      FailInv(t, p, s, s');
    } else if SyncRestart(s, s') {
      RestartSame(t, p, s, s');
    } else if FetchBlock(p, s, s') {
      BlockKeeps(t, p, s, s');
    } else if FetchHandle(s, s') {
      var id: nat :| FetchHandleWith(s, s', id);
      HandleKeeps(t, p, s, s', id);
    } else if FetchCommit(p, s, s') || FetchCommitCrash(p, s, s') {
      CommitKeeps(t, p, s, s');
    } else if FetchCommitLost(p, s, s') && !EventFinalizes(p, s.db, s.next) {
      LostReply(t, p, s, s');
    } else {
      EventKeeps(t, p, s, s');
    }
  }

  lemma {:induction false} StepLater(t: Tree, p: Params, s: Sys, s': Sys)
    requires SysInv(t, p, s) && Step(t, p, s, s')
    ensures Later(p, s, s')
    ensures s.db.handled <= s'.db.handled
  {
    if SyncWork(t, p, s, s') {
      var k: nat, bs: seq<Block> :| SyncWorkWith(t, p, s, s', k, bs);
      hide *;
      WorkLater(t, p, s, s', k, bs);
    } else if SyncRestart(s, s') {
      RestartSame(t, p, s, s');
      hide SysInv;
      InvOfSys(t, p, s);
      SameLater(p, s, s');
    } else {
      InvOfSys(t, p, s);
      hide SysInv; hide Inv; hide SyncWork; hide SyncRestart;
      QuietStep(t, p, s, s');
      SameLater(p, s, s');
    }
  }

  /** Any other step leaves the block tables and the log alone and only adds to the handled list. */
  lemma {:induction false} QuietStep(t: Tree, p: Params, s: Sys, s': Sys)
    requires Step(t, p, s, s') && !SyncWork(t, p, s, s') && !SyncRestart(s, s')
    ensures s'.chain == s.chain && s'.current == s.current
    ensures s'.db.blocks == s.db.blocks && s'.db.idOf == s.db.idOf && s'.db.events == s.db.events
    ensures s.db.handled <= s'.db.handled
  {
    hide SyncWork; hide SyncRestart; hide NextFor; hide EventsKnown; hide Finalized; hide IsCanonicalAt;
  }

  lemma {:induction false} InitInv(t: Tree, p: Params, s: Sys)
    requires p.depth >= 1 && Init(t, p, s)
    ensures SysInv(t, p, s)
  {
    var b: Block, id: nat :| InitWith(t, p, s, b, id);
    InitialInv(t, id, b, p.start);
    InvTable(t, p.start, s.db, s.chain);
    LogKnown(s.db);
  }

  // ---------------------------------------------------------------- whole runs

  lemma {:induction false} RunInv(t: Tree, p: Params, run: seq<Sys>, i: nat)
    requires Run(t, p, run) && i < |run|
    ensures SysInv(t, p, run[i])
  {
    hide SysInv; hide Step; hide Init;
    if i == 0 {
      InitInv(t, p, run[0]);
    } else {
      RunInv(t, p, run, i - 1);
      StepInv(t, p, run[i - 1], run[i]);
    }
  }

  lemma {:induction false} RunLater(t: Tree, p: Params, run: seq<Sys>, i: nat, j: nat)
    requires Run(t, p, run) && i <= j < |run|
    ensures Later(p, run[i], run[j])
    ensures run[i].db.handled <= run[j].db.handled
    decreases j
  {
    hide Step; hide Init; hide Later;
    if i == j {
      RunInv(t, p, run, i);
      InvOfSys(t, p, run[i]);
      SameLater(p, run[i], run[j]);
    } else {
      RunLater(t, p, run, i, j - 1);
      RunInv(t, p, run, j - 1);
      hide SysInv;
      StepLater(t, p, run[j - 1], run[j]);
      LaterTransitive(p, run[i], run[j - 1], run[j]);
    }
  }

  lemma {:induction false} InvOfSys(t: Tree, p: Params, s: Sys)
    requires SysInv(t, p, s)
    ensures Inv(t, p.start, s.db, s.chain) && TipOk(p, s) && p.depth >= 1
  {
  }

  /** Refinement: in every reachable state the canonical rows are the branch of the block tree
      from the start height to the tip, at the current height. */
  lemma {:induction false} CanonicalChainInRuns(t: Tree, p: Params, run: seq<Sys>, i: nat)
    requires Run(t, p, run) && i < |run|
    ensures var s := run[i];
            && ValidTree(t) && s.chain != [] && s.chain[|s.chain| - 1] in t
            && var tip := s.chain[|s.chain| - 1];
            && t[tip].height == s.current && |s.chain| == s.current - p.start + 1
            && |s.chain| <= t[tip].height + 1
            && (forall h :: IsCanonicalHash(s.db, h) <==> h in Branch(t, tip, |s.chain|))
            && (forall m: nat :: IsMaxHeight(s.db, m) <==> m == s.current)
  {
    RunInv(t, p, run, i);
    InvOfSys(t, p, run[i]);
    InvTable(t, p.start, run[i].db, run[i].chain);
    CanonicalIsBranch(t, p.start, run[i].db, run[i].chain);
  }

  /** A canonical block with `depth` confirmations stays the only canonical block at its height
      in every later state. */
  lemma {:induction false} FinalForever(t: Tree, p: Params, run: seq<Sys>, i: nat, j: nat, id: nat, h: nat)
    requires Run(t, p, run) && i <= j < |run|
    requires IsCanonicalAt(run[i].db, id, h) && h + p.depth <= run[i].current + 1
    ensures forall other: nat :: IsCanonicalAt(run[j].db, other, h) <==> other == id
    ensures id in run[j].db.blocks && run[j].db.blocks[id].hash == run[i].db.blocks[id].hash
  {
    RunInv(t, p, run, i);
    RunInv(t, p, run, j);
    RunLater(t, p, run, i, j);
    InvOfSys(t, p, run[i]);
    InvOfSys(t, p, run[j]);
    var s, s' := run[i], run[j];
    assert RowOk(t, p.start, s.db, id);
    hide SysInv; hide Run;
    assert SameAt(p.start, s.chain, s'.chain, h);
    CanonicalRow(t, p.start, s.db, s.chain, h);
    CanonicalRow(t, p.start, s'.db, s'.chain, h);
  }

  lemma {:induction false} RowHash(t: Tree, start: nat, db: Db, chain: seq<BlockHash>, h: BlockHash)
    requires Inv(t, start, db, chain) && h in db.idOf && h in t
    ensures db.idOf[h] in db.blocks && db.blocks[db.idOf[h]].hash == h == t[h].block.hash
  {
    assert ValidNode(t, h);
  }

  lemma {:induction false} HandledIsCanonical(t: Tree, p: Params, s: Sys, k: nat)
    requires SysInv(t, p, s) && k < |s.db.handled|
    ensures var d, db := s.db.handled[k], s.db;
            && d.height == p.start + k
            && (forall id: nat :: IsCanonicalAt(db, id, d.height) <==> id == d.id)
            && d.id in db.blocks && db.blocks[d.id].hash == d.block.hash
            && d.height in db.full && db.full[d.height] == d.block
  {
    hide Inv; hide OpenOk; hide EventsKnown; hide NextFor;
    var d := s.db.handled[k];
    assert FinalBlock(t, p, s, d, p.start + k);
    CanonicalRow(t, p.start, s.db, s.chain, p.start + k);
    FullAt(t, p.start, s.db, s.chain, p.start + k);
    RowHash(t, p.start, s.db, s.chain, s.chain[k]);
    assert IsCanonicalAt(s.db, d.id, d.height);
  }

  /** The k-th block ever committed by the handler is the block at height `start + k`; it stays
      in the record, and in every later state it is the canonical block and the stored full
      block at that height. */
  lemma {:induction false} HandledForever(t: Tree, p: Params, run: seq<Sys>, i: nat, j: nat, k: nat)
    requires Run(t, p, run) && i <= j < |run| && k < |run[i].db.handled|
    ensures var d, db := run[i].db.handled[k], run[j].db;
            && d.height == p.start + k
            && k < |db.handled| && db.handled[k] == d
            && (forall id: nat :: IsCanonicalAt(db, id, d.height) <==> id == d.id)
            && d.id in db.blocks && db.blocks[d.id].hash == d.block.hash
            && d.height in db.full && db.full[d.height] == d.block
  {
    hide Run; hide Later; hide SysInv;
    RunInv(t, p, run, j);
    RunLater(t, p, run, i, j);
    HandledIsCanonical(t, p, run[j], k);
    assert run[j].db.handled[k] == run[i].db.handled[k];
  }

  /** Once every event is consumed, the next height is the least one, from the start on, with fewer
      than `depth` confirmations; all below it have been handled, one block each. */
  lemma {:induction false} DrainedIsCaughtUp(t: Tree, p: Params, run: seq<Sys>, i: nat, h: nat)
    requires Run(t, p, run) && i < |run| && run[i].db.cursor == |run[i].db.events|
    ensures h >= p.start ==> (h + p.depth <= run[i].current + 1 <==> h < run[i].next)
    ensures run[i].next == Larger(p.start, run[i].current + 2 - p.depth) && |run[i].db.handled| == run[i].next - p.start
  {
    RunInv(t, p, run, i);
    var s := run[i];
    assert s.db.events[..s.db.cursor] == s.db.events;
    MaxIsTip(t, p, s);
    NextIsLeastUnfinalized(p, s.current, h);
  }

  /** Once an event of height `m` is consumed, every height from the start on with `depth`
      confirmations under `m` has been handled, in its place. */
  lemma {:induction false} ConsumedIsHandled(t: Tree, p: Params, run: seq<Sys>, i: nat, n: nat, h: nat)
    requires Run(t, p, run) && i < |run| && n < run[i].db.cursor
    ensures var db := run[i].db;
            && n < |db.events| && db.events[n].id in db.blocks
            && (p.start <= h && h + p.depth <= db.blocks[db.events[n].id].height + 1 ==>
                  h < run[i].next && h - p.start < |db.handled| && db.handled[h - p.start].height == h)
  {
    hide Run; hide Inv;
    RunInv(t, p, run, i);
    var db := run[i].db;
    assert db.events[..db.cursor][n] == db.events[n];
    MaxEventCovers(db.blocks, db.events[..db.cursor], n);
    NextIsLeastUnfinalized(p, MaxEventHeight(db.blocks, db.events[..db.cursor]).value, h);
    if p.start <= h < run[i].next {
      assert FinalBlock(t, p, run[i], db.handled[h - p.start], p.start + (h - p.start));
    }
  }

  lemma {:induction false} MaxIsTip(t: Tree, p: Params, s: Sys)
    requires SysInv(t, p, s)
    ensures MaxEventHeight(s.db.blocks, s.db.events) == Some(s.current)
  {
    hide SysInv; hide Inv; hide Table; hide Chain; hide Log; hide NoneAbove;
    InvOfSys(t, p, s);
    InvTable(t, p.start, s.db, s.chain);
    CanonicalRow(t, p.start, s.db, s.chain, s.current);
    MaxIsTop(s.db, s.db.idOf[s.chain[|s.chain| - 1]], s.current);
  }

  /** The greatest height in the log is that of any canonical row with none above it. */
  lemma {:induction false} MaxIsTop(db: Db, id: nat, top: nat)
    requires Log(db) && NoneAbove(db, top) && IsCanonicalAt(db, id, top)
    ensures EventsKnown(db) && MaxEventHeight(db.blocks, db.events) == Some(top)
  {
    LogKnown(db);
    assert id in Seen(db.events);
    hide *;
    MaxEventAtLeast(db.blocks, db.events, id);
    MaxEventAtMost(db.blocks, db.events, top);
  }

  /** The log replays to the canonical blocks after every commit, and a block announced twice was
      reorged in between. */
  lemma {:induction false} LogInRuns(t: Tree, p: Params, run: seq<Sys>, i: nat)
    requires Run(t, p, run) && i < |run|
    ensures var db := run[i].db;
            && Replay(db.events) == CanonicalIds(db)
            && forall a: nat, b: nat, id :: a < b < |db.events| && db.events[a] == NewBlock(id) && db.events[b] == NewBlock(id)
                 ==> exists k :: a < k < b && db.events[k] == ReorgedBlock(id)
  {
    hide SysInv; hide Run; hide Inv; hide Table; hide Chain; hide Replay; hide FreshNewBlocks; hide Seen; hide AnnouncedFirst;
    hide CanonicalIds;
    var db := run[i].db;
    RunInv(t, p, run, i);
    InvOfSys(t, p, run[i]);
    InvTable(t, p.start, db, run[i].chain);
    forall a: nat, b: nat, id | a < b < |db.events| && db.events[a] == NewBlock(id) && db.events[b] == NewBlock(id)
      ensures exists k :: a < k < b && db.events[k] == ReorgedBlock(id)
    {
      ReorgBetweenNewBlocks(db.events, a, b, id);
    }
  }

  /** The stored full block at every height from the start to the tip is the canonical block. */
  lemma {:induction false} FullBlocksInRuns(t: Tree, p: Params, run: seq<Sys>, i: nat, h: nat)
    requires Run(t, p, run) && i < |run| && p.start <= h <= run[i].current
    ensures var db := run[i].db;
            h in db.full && db.full[h].hash in db.idOf && IsCanonicalAt(db, db.idOf[db.full[h].hash], h)
  {
    hide Run; hide SysInv;
    RunInv(t, p, run, i);
    var s := run[i];
    InvOfSys(t, p, s);
    hide Inv;
    FullAt(t, p.start, s.db, s.chain, h);
    CanonicalRow(t, p.start, s.db, s.chain, h);
    RowHash(t, p.start, s.db, s.chain, s.chain[h - p.start]);
  }

  /** A hash keeps its id for ever, and the output tables hold, for every stored block, exactly
      its transactions and inputs, in order, however often it left and rejoined the chain. */
  lemma {:induction false} OutputsInRuns(t: Tree, p: Params, run: seq<Sys>, i: nat, j: nat, h: BlockHash)
    requires Run(t, p, run) && i <= j < |run| && h in run[i].db.idOf
    ensures h in run[j].db.idOf && run[j].db.idOf[h] == run[i].db.idOf[h]
    ensures h in t
    ensures var id := run[i].db.idOf[h];
            && SelectTxs(run[j].db.txs, id) == TxRows(id, t[h].block.txs)
            && SelectSpent(run[j].db.spent, id) == SpentRows(id, t[h].block.txs)
  {
    RunInv(t, p, run, j);
    RunLater(t, p, run, i, j);
    var db, id := run[j].db, run[i].db.idOf[h];
    assert RowOk(t, p.start, db, id) && SpentOf(t, db, id);
  }
}
