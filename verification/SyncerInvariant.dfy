/** What every committed state of the syncer's tables satisfies. `chain` lists the hashes of
    the canonical blocks from the start height up; it is determined by the tables. */
module SyncerInvariant {
  import opened BlockTree
  import opened SyncerDb

  /** `chain` has block `h` at height `height`. */
  ghost predicate OnChain(start: nat, chain: seq<BlockHash>, h: BlockHash, height: nat) {
    start <= height < start + |chain| && chain[height - start] == h
  }

  ghost predicate RowOk(t: Tree, start: nat, db: Db, id: nat)
    requires id in db.blocks
  {
    var r := db.blocks[id];
    && id < db.nextId
    && r.hash in t && r.prev == t[r.hash].block.prev && r.height == t[r.hash].height && start <= r.height
    && r.hash in db.idOf && db.idOf[r.hash] == id
  }

  /** Every row carries its block's true parent and height, under one id per hash. */
  ghost predicate Table(t: Tree, start: nat, db: Db) {
    && (forall id {:trigger RowOk(t, start, db, id)} :: id in db.blocks ==> RowOk(t, start, db, id))
    && (forall h :: h in db.idOf ==> db.idOf[h] in db.blocks && db.blocks[db.idOf[h]].hash == h)
  }

  /** `chain` is a branch of the tree from the start height. */
  ghost predicate Chain(t: Tree, start: nat, chain: seq<BlockHash>) {
    ValidTree(t) && chain != [] && IsBranch(t, chain) && t[chain[0]].height == start
  }

  /** The canonical rows are exactly the blocks of `chain`. */
  ghost predicate Canonical(start: nat, db: Db, chain: seq<BlockHash>) {
    && (forall id :: id in db.blocks ==>
          (db.blocks[id].canonical <==> OnChain(start, chain, db.blocks[id].hash, db.blocks[id].height)))
    && (forall i :: 0 <= i < |chain| ==> chain[i] in db.idOf)
  }

  /** The full block stored for each height of the chain is the canonical one. */
  ghost predicate FullBlocks(t: Tree, start: nat, db: Db, chain: seq<BlockHash>)
  {
    forall h: nat :: start <= h < start + |chain| ==> FullBlock(t, start, db.full, chain, h)
  }

  ghost predicate FullBlock(t: Tree, start: nat, full: map<nat, Block>, chain: seq<BlockHash>, h: nat)
    requires start <= h < start + |chain|
  {
    h in full && chain[h - start] in t && full[h] == t[chain[h - start]].block
  }

  ghost predicate Log(db: Db) {
    && Replay(db.events) == CanonicalIds(db)
    && FreshNewBlocks(db.events)
    && AnnouncedFirst(db.events)
    && Seen(db.events) == db.blocks.Keys
    && db.cursor <= |db.events|
  }

  ghost predicate SpentOf(t: Tree, db: Db, id: nat)
    requires id in db.blocks && db.blocks[id].hash in t
  {
    var txs := t[db.blocks[id].hash].block.txs;
    SelectTxs(db.txs, id) == TxRows(id, txs) && SelectSpent(db.spent, id) == SpentRows(id, txs)
  }

  /** The transaction and spent-output tables hold exactly the stored blocks' inputs, in order. */
  ghost predicate Outputs(t: Tree, start: nat, db: Db)
    requires Table(t, start, db)
  {
    && (forall id {:trigger SpentOf(t, db, id)} :: id in db.blocks ==> RowOk(t, start, db, id) && SpentOf(t, db, id))
    && (forall i :: 0 <= i < |db.txs| ==> db.txs[i].blockId in db.blocks)
    && (forall i :: 0 <= i < |db.spent| ==> db.spent[i].blockId in db.blocks)
  }

  ghost predicate Inv(t: Tree, start: nat, db: Db, chain: seq<BlockHash>) {
    && Table(t, start, db)
    && Chain(t, start, chain)
    && Canonical(start, db, chain)
    && FullBlocks(t, start, db, chain)
    && Log(db)
    && Outputs(t, start, db)
  }

  /** No row, canonical or not, lies above `top`. */
  ghost predicate NoneAbove(db: Db, top: nat) {
    forall id :: id in db.blocks ==> db.blocks[id].height <= top
  }

  // ---------------------------------------------------------------- readings of the invariant

  /** The canonical row at a height of the chain exists, is unique and is the chain's block. */
  lemma {:induction false} CanonicalRow(t: Tree, start: nat, db: Db, chain: seq<BlockHash>, height: nat)
    requires Inv(t, start, db, chain) && start <= height < start + |chain|
    ensures var h := chain[height - start];
            h in db.idOf && (forall id: nat :: IsCanonicalAt(db, id, height) <==> id == db.idOf[h])
  {
    var h := chain[height - start];
    BranchHeights(t, chain, height - start);
    var id := db.idOf[h];
    assert RowOk(t, start, db, id);
    forall other: nat | IsCanonicalAt(db, other, height)
      ensures other == id
    {
      assert RowOk(t, start, db, other);
    }
  }

  /** The canonical rows are the branch of the tree that ends in the tip, from the start height;
      the tip's height is the maximum height. */
  lemma {:induction false} CanonicalIsBranch(t: Tree, start: nat, db: Db, chain: seq<BlockHash>)
    requires Inv(t, start, db, chain)
    ensures var tip := chain[|chain| - 1];
            && t[tip].height == start + |chain| - 1
            && chain == Branch(t, tip, |chain|)
            && (forall h :: IsCanonicalHash(db, h) <==> h in Branch(t, tip, |chain|))
            && (forall m: nat :: IsMaxHeight(db, m) <==> m == start + |chain| - 1)
  {
    var n := |chain|;
    BranchUnique(t, chain);
    BranchHeights(t, chain, n - 1);
    forall h ensures IsCanonicalHash(db, h) <==> h in chain {
      if h in chain {
        var i :| 0 <= i < n && chain[i] == h;
        BranchHeights(t, chain, i);
        assert RowOk(t, start, db, db.idOf[h]);
      }
    }
    CanonicalRow(t, start, db, chain, start + n - 1);
    assert IsCanonicalAt(db, db.idOf[chain[n - 1]], start + n - 1);
    forall id: nat, k: nat | IsCanonicalAt(db, id, k)
      ensures k <= start + n - 1
    {
      assert RowOk(t, start, db, id);
    }
  }

  /** The tables determine the chain. */
  lemma {:induction false} ChainDetermined(t: Tree, start: nat, db: Db, c: seq<BlockHash>, d: seq<BlockHash>)
    requires Inv(t, start, db, c) && Inv(t, start, db, d)
    ensures c == d
  {
    CanonicalIsBranch(t, start, db, c);
    CanonicalIsBranch(t, start, db, d);
    assert IsMaxHeight(db, start + |c| - 1);
    assert |c| == |d|;
    forall i | 0 <= i < |c| ensures c[i] == d[i] {
      CanonicalRow(t, start, db, c, start + i);
      CanonicalRow(t, start, db, d, start + i);
      assert IsCanonicalAt(db, db.idOf[c[i]], start + i);
    }
  }

  // ---------------------------------------------------------------- preservation: reorg

  lemma {:induction false} DropTable(t: Tree, start: nat, db: Db, h: nat)
    requires Table(t, start, db)
    ensures Table(t, start, DropAbove(db, h))
  {
    var d := DropAbove(db, h);
    forall id | id in d.blocks ensures RowOk(t, start, d, id) {
      assert RowOk(t, start, db, id);
    }
  }

  lemma {:induction false} DropCanonical(start: nat, db: Db, chain: seq<BlockHash>, k: nat)
    requires Canonical(start, db, chain) && 1 <= k <= |chain|
    ensures Canonical(start, DropAbove(db, start + k - 1), chain[..k])
  {
    var d := DropAbove(db, start + k - 1);
    forall id | id in d.blocks
      ensures d.blocks[id].canonical <==> OnChain(start, chain[..k], d.blocks[id].hash, d.blocks[id].height)
    {
      assert id in db.blocks;
    }
  }

  lemma {:induction false} DropLog(t: Tree, start: nat, db: Db, h: nat)
    requires Table(t, start, db) && Log(db)
    ensures Log(DropAbove(db, h))
  {
    var d := DropAbove(db, h);
    var ids := IdsAbove(db.blocks, db.nextId, h);
    ReplayReorgs(db.events, ids);
    FreshReorgs(db.events, ids);
    AnnouncedReorgs(db.events, ids);
    assert d.blocks.Keys == db.blocks.Keys;
    forall id ensures id in Replay(d.events) <==> id in CanonicalIds(d) {
      if id in db.blocks {
        assert RowOk(t, start, db, id);
      }
      assert id in CanonicalIds(db) <==> id in db.blocks && db.blocks[id].canonical;
    }
  }

  lemma {:induction false} DropOutputs(t: Tree, start: nat, db: Db, h: nat)
    requires Table(t, start, db) && Outputs(t, start, db) && Table(t, start, DropAbove(db, h))
    ensures Outputs(t, start, DropAbove(db, h))
  {
    var d := DropAbove(db, h);
    forall id | id in d.blocks ensures RowOk(t, start, d, id) && SpentOf(t, d, id) {
      assert RowOk(t, start, db, id) && SpentOf(t, db, id);
      assert RowOk(t, start, d, id);
    }
  }

  lemma {:induction false} PrefixChain(t: Tree, start: nat, db: Db, d: Db, chain: seq<BlockHash>, k: nat)
    requires Chain(t, start, chain) && FullBlocks(t, start, db, chain) && 1 <= k <= |chain| && d.full == db.full
    ensures Chain(t, start, chain[..k]) && FullBlocks(t, start, d, chain[..k])
  {
    forall h: nat | start <= h < start + k ensures FullBlock(t, start, d.full, chain[..k], h) {
      assert FullBlock(t, start, db.full, chain, h);
    }
  }

  lemma {:induction false} DropInv(t: Tree, start: nat, db: Db, chain: seq<BlockHash>, k: nat)
    requires Inv(t, start, db, chain) && 1 <= k <= |chain|
    ensures Inv(t, start, DropAbove(db, start + k - 1), chain[..k])
  {
    hide Table; hide Canonical; hide Log; hide Outputs; hide Chain; hide FullBlocks;
    PrefixChain(t, start, db, DropAbove(db, start + k - 1), chain, k);
    DropTable(t, start, db, start + k - 1);
    DropCanonical(start, db, chain, k);
    DropLog(t, start, db, start + k - 1);
    DropOutputs(t, start, db, start + k - 1);
  }

  // ---------------------------------------------------------------- preservation: a saved block

  /** `b` is the tree's block directly above the chain. */
  ghost predicate Extends(t: Tree, chain: seq<BlockHash>, b: Block) {
    chain != [] && b.hash in t && t[b.hash].block == b && b.prev == chain[|chain| - 1]
  }

  lemma {:induction false} ExtendedChain(t: Tree, start: nat, chain: seq<BlockHash>, b: Block)
    requires Chain(t, start, chain) && Extends(t, chain, b)
    ensures Chain(t, start, chain + [b.hash]) && t[b.hash].height == start + |chain|
  {
    BranchHeights(t, chain, |chain| - 1);
    assert ValidNode(t, b.hash);
  }

  lemma {:induction false} ExtendedFull(t: Tree, start: nat, db: Db, chain: seq<BlockHash>, b: Block)
    requires FullBlocks(t, start, db, chain) && Extends(t, chain, b)
    ensures FullBlocks(t, start, ProcessBlock(db, b, start + |chain|), chain + [b.hash])
  {
    var c, s := chain + [b.hash], ProcessBlock(db, b, start + |chain|);
    forall h: nat | start <= h < start + |c| ensures FullBlock(t, start, s.full, c, h) {
      if h < start + |chain| {
        assert FullBlock(t, start, db.full, chain, h);
      }
    }
  }

  lemma {:induction false} SaveTable(t: Tree, start: nat, db: Db, b: Block, height: nat)
    requires Table(t, start, db) && b.hash in t && t[b.hash].block == b && t[b.hash].height == height >= start
    requires ValidNode(t, b.hash)
    ensures Table(t, start, SaveBlock(db, b, height))
  {
    var s := SaveBlock(db, b, height);
    forall id | id in s.blocks ensures RowOk(t, start, s, id) {
      if id in db.blocks {
        assert RowOk(t, start, db, id);
      }
    }
    forall h | h in s.idOf ensures s.idOf[h] in s.blocks && s.blocks[s.idOf[h]].hash == h {
      if h in db.idOf {
        assert RowOk(t, start, db, db.idOf[h]);
      }
    }
  }

  lemma {:induction false} SaveCanonical(t: Tree, start: nat, db: Db, chain: seq<BlockHash>, b: Block)
    requires Table(t, start, db) && Chain(t, start, chain) && Canonical(start, db, chain) && Extends(t, chain, b)
    ensures var s := SaveBlock(db, b, start + |chain|);
            Table(t, start, s) && Canonical(start, s, chain + [b.hash])
  {
    hide Chain; hide ConsensusTxs; hide TxRows; hide SpentRows; hide Table; hide ValidTree;
    var s := SaveBlock(db, b, start + |chain|);
    var c := chain + [b.hash];
    ExtendedChain(t, start, chain, b);
    ChainNode(t, start, c, |chain|);
    SaveTable(t, start, db, b, start + |chain|);
    forall id | id in s.blocks
      ensures s.blocks[id].canonical <==> OnChain(start, c, s.blocks[id].hash, s.blocks[id].height)
    {
      TableRow(t, start, s, id);
      if id in db.blocks {
        TableRow(t, start, db, id);
      }
    }
  }

  lemma {:induction false} ChainNode(t: Tree, start: nat, chain: seq<BlockHash>, i: nat)
    requires Chain(t, start, chain) && i < |chain|
    ensures chain[i] in t && ValidNode(t, chain[i])
  {
  }

  /** The block about to be saved is not in the log's current set. */
  lemma {:induction false} SavedIsFresh(t: Tree, start: nat, db: Db, chain: seq<BlockHash>, b: Block)
    requires Table(t, start, db) && Chain(t, start, chain) && Canonical(start, db, chain) && Extends(t, chain, b)
    ensures SavedId(db, b) !in CanonicalIds(db)
  {
    ExtendedChain(t, start, chain, b);
    var id := SavedId(db, b);
    if id in db.blocks {
      assert RowOk(t, start, db, id);
    }
  }

  lemma {:induction false} SaveLog(db: Db, b: Block, height: nat)
    requires Log(db) && SavedId(db, b) !in CanonicalIds(db)
    ensures Log(ProcessBlock(db, b, height))
  {
    var s := ProcessBlock(db, b, height);
    var id := SavedId(db, b);
    hide Replay; hide Seen; hide FreshNewBlocks; hide AnnouncedFirst;
    ReplayOne(db.events, NewBlock(id));
    FreshOne(db.events, NewBlock(id));
    AnnouncedOne(db.events, NewBlock(id));
    SeenOne(db.events, NewBlock(id));
    assert s.blocks.Keys == db.blocks.Keys + {id};
    assert CanonicalIds(s) == CanonicalIds(db) + {id};
  }

  lemma {:induction false} SaveOutputs(t: Tree, start: nat, db: Db, b: Block, height: nat)
    requires Table(t, start, db) && Outputs(t, start, db)
    requires b.hash in t && t[b.hash].block == b
    requires Table(t, start, SaveBlock(db, b, height))
    ensures Outputs(t, start, SaveBlock(db, b, height))
  {
    var s := SaveBlock(db, b, height);
    if b.hash in db.idOf && db.idOf[b.hash] in db.blocks {
      forall id | id in s.blocks ensures RowOk(t, start, s, id) && SpentOf(t, s, id) {
        assert RowOk(t, start, db, id) && SpentOf(t, db, id);
      }
    } else {
      SaveNewOutputs(t, start, db, b, height);
    }
  }

  lemma {:induction false} SaveNewOutputs(t: Tree, start: nat, db: Db, b: Block, height: nat)
    requires Table(t, start, db) && Outputs(t, start, db)
    requires b.hash in t && t[b.hash].block == b && !(b.hash in db.idOf && db.idOf[b.hash] in db.blocks)
    requires Table(t, start, SaveBlock(db, b, height))
    ensures Outputs(t, start, SaveBlock(db, b, height))
  {
    hide Table; hide TxRows; hide SpentRows; hide SelectSpent; hide SelectTxs;
    var s, added := SaveBlock(db, b, height), db.nextId;
    NextIdFree(t, start, db);
    forall id | id in s.blocks ensures RowOk(t, start, s, id) && SpentOf(t, s, id) {
      TableRow(t, start, s, id);
      if id == added {
        AppendedOutputs(db, b.txs, added);
      } else {
        TableRow(t, start, db, id);
        assert SpentOf(t, db, id);
        SelectSpentAppend(db.spent, SpentRows(added, b.txs), added, id);
        SelectTxsAppend(db.txs, TxRows(added, b.txs), added, id);
      }
    }
    forall i | 0 <= i < |s.spent| ensures s.spent[i].blockId in s.blocks {
      if i >= |db.spent| {
        assert s.spent[i] in SpentRows(added, b.txs);
      }
    }
  }

  lemma {:induction false} NextIdFree(t: Tree, start: nat, db: Db)
    requires Table(t, start, db)
    ensures db.nextId !in db.blocks
  {
    assert db.nextId in db.blocks ==> RowOk(t, start, db, db.nextId);
  }

  lemma {:induction false} TableRow(t: Tree, start: nat, db: Db, id: nat)
    requires Table(t, start, db) && id in db.blocks
    ensures RowOk(t, start, db, id)
  {
  }

  /** The rows added for a fresh id are all of its rows. */
  lemma {:induction false} AppendedOutputs(db: Db, txs: seq<Tx>, id: nat)
    requires forall i :: 0 <= i < |db.txs| ==> db.txs[i].blockId != id
    requires forall i :: 0 <= i < |db.spent| ==> db.spent[i].blockId != id
    ensures SelectTxs(db.txs + TxRows(id, txs), id) == TxRows(id, txs)
    ensures SelectSpent(db.spent + SpentRows(id, txs), id) == SpentRows(id, txs)
  {
    SelectSpentAppend(db.spent, SpentRows(id, txs), id, id);
    SelectTxsAppend(db.txs, TxRows(id, txs), id, id);
    SelectNone(db.spent, id);
    SelectNoTxs(db.txs, id);
  }

  lemma {:induction false} SaveInv(t: Tree, start: nat, db: Db, chain: seq<BlockHash>, b: Block)
    requires Inv(t, start, db, chain) && Extends(t, chain, b)
    ensures Inv(t, start, ProcessBlock(db, b, start + |chain|), chain + [b.hash])
  {
    hide Table; hide Canonical; hide Log; hide Outputs; hide Chain; hide FullBlocks;
    ExtendedChain(t, start, chain, b);
    ExtendedFull(t, start, db, chain, b);
    SaveCanonical(t, start, db, chain, b);
    SavedIsFresh(t, start, db, chain, b);
    SaveLog(db, b, start + |chain|);
    SaveOutputs(t, start, db, b, start + |chain|);
    AddEvent(t, start, SaveBlock(db, b, start + |chain|), ProcessBlock(db, b, start + |chain|), chain + [b.hash]);
  }

  /** The row and output conditions do not read the event log. */
  lemma {:induction false} AddEvent(t: Tree, start: nat, db: Db, e: Db, chain: seq<BlockHash>)
    requires Table(t, start, db) && Outputs(t, start, db) && Canonical(start, db, chain)
    requires e.blocks == db.blocks && e.idOf == db.idOf && e.nextId == db.nextId && e.txs == db.txs && e.spent == db.spent
    ensures Table(t, start, e) && Outputs(t, start, e) && Canonical(start, e, chain)
  {
    forall id | id in e.blocks ensures RowOk(t, start, e, id) && SpentOf(t, e, id) {
      assert RowOk(t, start, db, id) && SpentOf(t, db, id);
    }
  }

  // ---------------------------------------------------------------- preservation: a working run

  ghost function Hashes(bs: seq<Block>): (hs: seq<BlockHash>)
    ensures |hs| == |bs| && forall i :: 0 <= i < |bs| ==> hs[i] == bs[i].hash
  {
    if bs == [] then [] else Hashes(bs[..|bs| - 1]) + [bs[|bs| - 1].hash]
  }

  /** `bs` are tree blocks that continue the chain one after the other. */
  ghost predicate Continues(t: Tree, chain: seq<BlockHash>, bs: seq<Block>) {
    && chain != []
    && (forall i :: 0 <= i < |bs| ==> bs[i].hash in t && t[bs[i].hash].block == bs[i])
    && (forall i :: 0 <= i < |bs| ==> bs[i].prev == ParentOf(chain, bs, i))
  }

  ghost function ParentOf(chain: seq<BlockHash>, bs: seq<Block>, i: nat): BlockHash
    requires chain != [] && i < |bs|
  {
    if i == 0 then chain[|chain| - 1] else bs[i - 1].hash
  }

  lemma {:induction false} ContinuesPrefix(t: Tree, chain: seq<BlockHash>, bs: seq<Block>, n: nat)
    requires Continues(t, chain, bs) && n <= |bs|
    ensures Continues(t, chain, bs[..n])
  {
    forall i | 0 <= i < n
      ensures bs[..n][i].prev == ParentOf(chain, bs[..n], i)
    {
      assert bs[i].prev == ParentOf(chain, bs, i);
    }
  }

  lemma {:induction false} ContinuesLast(t: Tree, chain: seq<BlockHash>, bs: seq<Block>, n: nat)
    requires Continues(t, chain, bs) && n < |bs|
    ensures Extends(t, chain + Hashes(bs[..n]), bs[n])
    ensures chain + Hashes(bs[..n]) + [bs[n].hash] == chain + Hashes(bs[..n + 1])
  {
    assert bs[n].prev == ParentOf(chain, bs, n);
    assert bs[..n + 1][..n] == bs[..n];
  }

  lemma {:induction false} ProcessInv(t: Tree, start: nat, db: Db, chain: seq<BlockHash>, bs: seq<Block>)
    requires Inv(t, start, db, chain) && Continues(t, chain, bs)
    ensures Inv(t, start, ProcessBlocks(db, bs, start + |chain|), chain + Hashes(bs))
    decreases |bs|
  {
    hide Inv; hide ProcessBlock; hide Extends; hide Continues;
    if bs == [] {
      assert chain + Hashes(bs) == chain;
    } else {
      var n := |bs| - 1;
      ContinuesPrefix(t, chain, bs, n);
      ProcessInv(t, start, db, chain, bs[..n]);
      var mid := chain + Hashes(bs[..n]);
      ContinuesLast(t, chain, bs, n);
      SaveInv(t, start, ProcessBlocks(db, bs[..n], start + |chain|), mid, bs[n]);
      assert bs[..n + 1] == bs;
    }
  }

  lemma {:induction false} ProcessNoneAbove(t: Tree, start: nat, db: Db, chain: seq<BlockHash>, bs: seq<Block>, top: nat)
    requires Continues(t, chain, bs)
    requires NoneAbove(db, top) && start + |chain| + |bs| - 1 <= top
    ensures NoneAbove(ProcessBlocks(db, bs, start + |chain|), top)
    decreases |bs|
  {
    if bs != [] {
      ContinuesPrefix(t, chain, bs, |bs| - 1);
      ProcessNoneAbove(t, start, db, chain, bs[..|bs| - 1], top);
    }
  }

  lemma {:induction false} DropNoneAbove(db: Db, h: nat, top: nat)
    requires NoneAbove(db, top)
    ensures NoneAbove(DropAbove(db, h), top)
  {
  }

  lemma {:induction false} CommitIs(db: Db, bs: seq<Block>, height: nat)
    requires height > 0
    ensures CommitBranch(db, bs, height) == ProcessBlocks(DropAbove(db, height - 1), bs, height)
  {
  }

  /** A working run that forks off after the chain's first `k` blocks replaces the rest of the
      chain by the new branch and keeps the invariant. */
  lemma {:induction false} CommitInv(t: Tree, start: nat, db: Db, chain: seq<BlockHash>, k: nat, bs: seq<Block>, top: nat)
    requires Inv(t, start, db, chain) && 1 <= k <= |chain| && Continues(t, chain[..k], bs)
    requires NoneAbove(db, top) && start + k + |bs| - 1 <= top
    ensures Inv(t, start, CommitBranch(db, bs, start + k), chain[..k] + Hashes(bs))
    ensures NoneAbove(CommitBranch(db, bs, start + k), top)
  {
    hide *;
    var d := DropAbove(db, start + k - 1);
    CommitIs(db, bs, start + k);
    DropInv(t, start, db, chain, k);
    DropNoneAbove(db, start + k - 1, top);
    ProcessInv(t, start, d, chain[..k], bs);
    ProcessNoneAbove(t, start, d, chain[..k], bs, top);
  }

  /** The first block of an empty database: `set_initial_block_info_if_not_exists`. */
  lemma {:induction false} InitialInv(t: Tree, nextId: nat, b: Block, start: nat)
    requires ValidTree(t) && b.hash in t && t[b.hash].block == b && t[b.hash].height == start
    ensures Inv(t, start, ProcessBlock(EmptyDb.(nextId := nextId), b, start), [b.hash])
    ensures NoneAbove(ProcessBlock(EmptyDb.(nextId := nextId), b, start), start)
  {
    var e := EmptyDb.(nextId := nextId);
    var s := ProcessBlock(e, b, start);
    InitialLog(nextId, b, start);
    assert Table(t, start, e);
    assert Table(t, start, SaveBlock(e, b, start)) by {
      assert RowOk(t, start, SaveBlock(e, b, start), nextId);
    }
    SaveOutputs(t, start, e, b, start);
    AddEvent(t, start, SaveBlock(e, b, start), s, [b.hash]);
  }

  lemma {:induction false} InitialLog(nextId: nat, b: Block, start: nat)
    ensures Log(ProcessBlock(EmptyDb.(nextId := nextId), b, start))
  {
    var e := EmptyDb.(nextId := nextId);
    assert CanonicalIds(e) == {};
    SaveLog(e, b, start);
  }
}
