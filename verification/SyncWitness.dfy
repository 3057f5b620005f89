/** Concrete runs of the system. */
module SyncWitness {
  import opened Common
  import opened BlockTree
  import opened SyncerDb
  import opened SyncerInvariant
  import opened Finality
  import opened SyncSystem
  import opened SyncTheorems

  /** A tree of one block, and the system right after it was saved. */
  function OneBlock(): Block {
    Block(0, 1, [])
  }

  lemma {:induction false} OneBlockStart() returns (s: Sys)
    ensures Init(map[0 := Node(OneBlock(), 0)], Params(0, 1), s) && s.fetch.Idle? && s.next == 0
    ensures s.db.cursor == 0 && s.db.events == [NewBlock(1)]
    ensures 0 in s.db.full && s.db.full[0] == OneBlock() && 1 in s.db.blocks && s.db.blocks[1] == Row(0, 1, 0, true)
  {
    var t, p := map[0 := Node(OneBlock(), 0)], Params(0, 1);
    assert ValidNode(t, 0);
    s := Sys(ProcessBlock(EmptyDb.(nextId := 1), OneBlock(), 0), [0], 0, 0, Idle);
    assert InitWith(t, p, s, OneBlock(), 1);
  }

  /** The fetcher's steps up to its commit. */
  lemma {:induction false} OneBlockSteps(t: Tree, p: Params, s: Sys) returns (run: seq<Sys>)
    requires p == Params(0, 1) && s.fetch.Idle? && s.next == 0 && s.db.cursor == 0 && s.db.events == [NewBlock(1)]
    requires 0 in s.db.full && s.db.full[0] == OneBlock() && 1 in s.db.blocks && s.db.blocks[1] == Row(0, 1, 0, true)
    ensures |run| == 5 && run[0] == s && forall i :: 0 < i < |run| ==> Step(t, p, run[i - 1], run[i])
    ensures run[4] == s.(fetch := Open(Some(0), 1, [Handled(1, OneBlock(), 0)], None))
  {
    var b := OneBlock();
    var got := s.(fetch := Got(NewBlock(1)));
    var begun := s.(fetch := Open(Some(0), 0, [], None));
    var read := s.(fetch := Open(Some(0), 0, [], Some(b)));
    var done := s.(fetch := Open(Some(0), 1, [Handled(1, b, 0)], None));
    assert read.fetch.pending + [Handled(1, b, 0)] == done.fetch.pending;
    assert FetchEvent(s, got) && FetchHeight(got, begun) && FetchBlock(p, begun, read) && FetchHandleWith(read, done, 1);
    assert Step(t, p, s, got) && Step(t, p, got, begun) && Step(t, p, begun, read) && Step(t, p, read, done);
    hide *;
    run := [s, got, begun, read, done];
  }

  /** A run after whose last state a lost reply leaves the height in memory behind the database. */
  lemma {:induction false} LostReplyHappens() returns (t: Tree, p: Params, run: seq<Sys>, s': Sys)
    ensures Run(t, p, run) && FetchCommitLost(p, run[|run| - 1], s')
    ensures EventsKnown(s'.db) && s'.next != NextFor(p, s'.db)
  {
    hide Init; hide Step; hide SysInv; hide NextFor; hide EventsKnown;
    t, p := map[0 := Node(OneBlock(), 0)], Params(0, 1);
    var s := OneBlockStart();
    run := OneBlockSteps(t, p, s);
    assert Run(t, p, run);
    var done := run[4];
    s' := done.(db := Committed(done), fetch := Idle);
    RunInv(t, p, run, 4);
    LostReply(t, p, done, s');
  }

  /** `log` goes on from `before` and `e` is among its new events. */
  ghost predicate Adds(before: seq<Event>, log: seq<Event>, e: Event) {
    before <= log && e in log[|before|..]
  }

  lemma {:induction false} DropAdds(db: Db, height: nat, id: nat)
    requires Indexed(db) && id in db.blocks && db.blocks[id].height > height
    ensures Adds(db.events, DropAbove(db, height).events, ReorgedBlock(id))
  {
    hide DropAbove;
    ReorgEventsNameAllAbove(db, height, id);
  }

  lemma {:induction false} StillAdds(before: seq<Event>, d: Db, e: Db, event: Event)
    requires Adds(before, d.events, event) && Evolves(d, e)
    ensures Adds(before, e.events, event)
  {
    var n := |before|;
    var i :| n <= i < |d.events| && d.events[i] == event;
    assert e.events[i] == e.events[..|d.events|][i];
    assert e.events[n..][i - n] == event;
  }

  /** A working run announces as reorged every row above its fork point, canonical or not. */
  lemma {:induction false} CommitAdds(db: Db, bs: seq<Block>, height: nat, id: nat)
    requires Indexed(db) && height > 0 && id in db.blocks && db.blocks[id].height >= height
    ensures Adds(db.events, CommitBranch(db, bs, height).events, ReorgedBlock(id))
  {
    hide *;
    var m := DropAbove(db, height - 1);
    DropAdds(db, height - 1, id);
    DropEvolves(db, height - 1);
    ProcessAllEvolves(m, bs, height);
    StillAdds(db.events, m, ProcessBlocks(m, bs, height), ReorgedBlock(id));
    CommitIs(db, bs, height);
  }

  lemma {:induction false} WorkNames(t: Tree, p: Params, s: Sys, s': Sys, k: nat, bs: seq<Block>, id: nat)
    requires SysInv(t, p, s) && SyncWorkWith(t, p, s, s', k, bs)
    requires id in s.db.blocks && s.db.blocks[id].height >= p.start + k
    ensures Adds(s.db.events, s'.db.events, ReorgedBlock(id))
  {
    hide SysInv; hide Inv; hide Continues; hide CommitBranch; hide Indexed; hide Table; hide Log; hide Chain; hide Adds;
    InvOfSys(t, p, s);
    InvTable(t, p.start, s.db, s.chain);
    TableIndexed(t, p.start, s.db);
    CommitAdds(s.db, bs, p.start + k, id);
  }

  /** Three branches of a block 0: 1; then 2, 3; then 4, 5, 6. */
  function Forks(): Tree {
    map[0 := Node(Block(0, 7, []), 0),
        1 := Node(Block(1, 0, []), 1),
        2 := Node(Block(2, 0, []), 1), 3 := Node(Block(3, 2, []), 2),
        4 := Node(Block(4, 0, []), 1), 5 := Node(Block(5, 4, []), 2), 6 := Node(Block(6, 5, []), 3)]
  }

  ghost function Forked(s: Sys, bs: seq<Block>): Sys
    requires s.chain != []
  {
    s.(db := CommitBranch(s.db, bs, 1), chain := s.chain[..1] + Hashes(bs), current := s.current + 1)
  }

  lemma {:induction false} ForkWorks(t: Tree, p: Params, s: Sys, bs: seq<Block>)
    requires p.start == 0 && s.chain != [] && 1 <= |bs| <= p.depth && |bs| == s.current + 1
    requires Continues(t, [s.chain[0]], bs)
    ensures SyncWorkWith(t, p, s, Forked(s, bs), 1, bs) && Step(t, p, s, Forked(s, bs))
    ensures |Forked(s, bs).chain| == 1 + |bs| && Forked(s, bs).chain[0] == s.chain[0] && Forked(s, bs).chain[1] == bs[0].hash
  {
    hide CommitBranch; hide Continues;
    assert s.chain[..1] == [s.chain[0]];
    assert SyncWorkWith(t, p, s, Forked(s, bs), 1, bs);
  }

  /** A run in which a block that has left the chain is announced as reorged a second time. */
  lemma {:induction false} ReorgedTwice() returns (t: Tree, p: Params, run: seq<Sys>, id: nat)
    ensures Run(t, p, run) && |run| == 4
    ensures Adds(run[1].db.events, run[2].db.events, ReorgedBlock(id))
    ensures id in run[2].db.blocks && !run[2].db.blocks[id].canonical
    ensures Adds(run[2].db.events, run[3].db.events, ReorgedBlock(id))
  {
    hide Adds; hide CommitBranch; hide ProcessBlock; hide Forked; hide Step; hide SysInv; hide SyncWorkWith;
    t, p := Forks(), Params(0, 3);
    var a, b, c := [t[1].block], [t[2].block, t[3].block], [t[4].block, t[5].block, t[6].block];
    assert Continues(t, [0], a) && Continues(t, [0], b) && Continues(t, [0], c);
    var s0 := ForksStart();
    hide Forks; hide Continues;
    ForkWorks(t, p, s0, a);
    var s1 := Forked(s0, a);
    CurrentAfter(s0, a);
    ForkWorks(t, p, s1, b);
    var s2 := Forked(s1, b);
    CurrentAfter(s1, b);
    ForkWorks(t, p, s2, c);
    var s3 := Forked(s2, c);
    run := [s0, s1, s2, s3];
    assert Run(t, p, run);
    hide Run; hide Init;
    id := LeftChain(t, p, run, 1);
    RunInv(t, p, run, 1);
    WorkNames(t, p, s1, s2, 1, b, id);
    RunInv(t, p, run, 2);
    WorkNames(t, p, s2, s3, 1, c, id);
  }

  lemma {:induction false} CurrentAfter(s: Sys, bs: seq<Block>)
    requires s.chain != []
    ensures Forked(s, bs).current == s.current + 1
  {
  }

  lemma {:induction false} ForksStart() returns (s: Sys)
    ensures Init(Forks(), Params(0, 3), s) && s.chain == [0] && s.current == 0
  {
    var t, p := Forks(), Params(0, 3);
    ForksValid();
    s := Sys(ProcessBlock(EmptyDb.(nextId := 1), t[0].block, 0), [0], 0, 0, Idle);
    hide ProcessBlock;
    assert InitWith(t, p, s, t[0].block, 1);
  }

  lemma {:induction false} ForksValid()
    ensures ValidTree(Forks())
  {
    var t := Forks();
    forall h | h in t ensures ValidNode(t, h) {
    }
  }

  /** The block `h` at height 1 of the first chain is off the second one. */
  lemma {:induction false} LeftChain(t: Tree, p: Params, run: seq<Sys>, h: BlockHash) returns (id: nat)
    requires Run(t, p, run) && |run| > 2 && p.start == 0
    requires |run[1].chain| == 2 && run[1].chain[1] == h && |run[2].chain| > 1 && run[2].chain[1] != h
    ensures id in run[1].db.blocks && run[1].db.blocks[id].height == 1
    ensures id in run[2].db.blocks && run[2].db.blocks[id].height == 1 && !run[2].db.blocks[id].canonical
  {
    hide Run; hide SysInv; hide Inv; hide TipOk;
    RunInv(t, p, run, 1);
    RunInv(t, p, run, 2);
    RunLater(t, p, run, 1, 2);
    InvOfSys(t, p, run[1]);
    InvOfSys(t, p, run[2]);
    CanonicalRow(t, 0, run[1].db, run[1].chain, 1);
    id := run[1].db.idOf[h];
    assert IsCanonicalAt(run[1].db, id, 1);
    OffChain(t, 0, run[1].db, run[2].db, run[1].chain, run[2].chain, h);
  }

  lemma {:induction false} OffChain(t: Tree, start: nat, d: Db, e: Db, was: seq<BlockHash>, chain: seq<BlockHash>, h: BlockHash)
    requires Inv(t, start, d, was) && Inv(t, start, e, chain) && Evolves(d, e)
    requires h in d.idOf && d.idOf[h] in d.blocks && d.blocks[d.idOf[h]].height == start + 1 && |chain| > 1 && chain[1] != h
    ensures d.idOf[h] in e.blocks && !e.blocks[d.idOf[h]].canonical && e.blocks[d.idOf[h]].height == start + 1
  {
  }
}
