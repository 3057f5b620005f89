/** The Bitcoin syncer task: fetching a branch from the node and committing it. */
module Syncer {
  import opened Common
  import opened BlockTree
  import opened SyncerDb
  import opened SyncerInvariant
  import opened Finality
  import opened SyncSystem
  import opened SyncerDatabase

  datatype BlockInfo = BlockInfo(hash: BlockHash, prev: BlockHash, height: nat)

  /** The node's side of one run: its answer for the next height, and which header and block
      calls fail, by their order. Every other call is answered from the tree. */
  datatype Rpc = Rpc(tip: Option<BlockHash>, badHeaders: set<nat>, badBlocks: set<nat>)

  function GetHeader(tree: Tree, rpc: Rpc, call: nat, h: BlockHash): Option<BlockHash> {
    if call in rpc.badHeaders || h !in tree then None else Some(tree[h].block.prev)
  }

  function GetBlock(tree: Tree, rpc: Rpc, call: nat, h: BlockHash): Option<Block> {
    if call in rpc.badBlocks || h !in tree then None else Some(tree[h].block)
  }

  /** The block reported for a height has that height in the tree. */
  ghost predicate Honest(tree: Tree, rpc: Rpc, height: nat) {
    ValidTree(tree) && (rpc.tip.Some? ==> rpc.tip.value in tree && tree[rpc.tip.value].height == height)
  }

  // ---------------------------------------------------------------- the branch to fetch

  ghost predicate InfoOk(tree: Tree, info: BlockInfo) {
    info.hash in tree && info.prev == tree[info.hash].block.prev && info.height == tree[info.hash].height
  }

  /** `bs` is the branch that ends in `tip` and starts right above the nearest canonical ancestor. */
  ghost predicate IsFork(tree: Tree, db: Db, tip: BlockHash, bs: seq<BlockInfo>) {
    && bs != [] && bs[|bs| - 1].hash == tip
    && (forall i :: 0 <= i < |bs| ==> InfoOk(tree, bs[i]))
    && (forall i :: 0 < i < |bs| ==> bs[i].prev == bs[i - 1].hash)
    && IsCanonicalHash(db, bs[0].prev)
    && (forall i :: 0 < i < |bs| ==> !IsCanonicalHash(db, bs[i].prev))
  }

  /** `nb` lists, from `tip` down, blocks whose parents are not canonical, except perhaps the last. */
  ghost predicate IsWalk(tree: Tree, db: Db, tip: BlockHash, nb: seq<BlockInfo>) {
    && nb != [] && nb[0].hash == tip
    && (forall i :: 0 <= i < |nb| ==> InfoOk(tree, nb[i]))
    && (forall i :: 0 < i < |nb| ==> nb[i].hash == nb[i - 1].prev)
    && (forall i :: 0 <= i < |nb| - 1 ==> !IsCanonicalHash(db, nb[i].prev))
  }

  function Reverse(s: seq<BlockInfo>): (r: seq<BlockInfo>)
    ensures |r| == |s| && forall i :: 0 <= i < |s| ==> r[i] == s[|s| - 1 - i]
  {
    if s == [] then [] else [s[|s| - 1]] + Reverse(s[..|s| - 1])
  }

  lemma {:induction false} WalkIsFork(tree: Tree, db: Db, tip: BlockHash, nb: seq<BlockInfo>)
    requires IsWalk(tree, db, tip, nb) && IsCanonicalHash(db, nb[|nb| - 1].prev)
    ensures IsFork(tree, db, tip, Reverse(nb))
  {
    var r := Reverse(nb);
    forall i | 0 < i < |r| ensures r[i].prev == r[i - 1].hash && !IsCanonicalHash(db, r[i].prev) {
      assert r[i - 1] == nb[|nb| - 1 - i + 1];
    }
  }

  /** Any fork agrees with a walk from the same tip for as long as the walk's parents are not
      canonical. */
  lemma {:induction false} ForkFollowsWalk(tree: Tree, db: Db, tip: BlockHash, nb: seq<BlockInfo>, bs: seq<BlockInfo>, k: nat)
    requires IsWalk(tree, db, tip, nb) && IsFork(tree, db, tip, bs) && k < |nb|
    ensures k < |bs| && bs[|bs| - 1 - k] == nb[k]
    decreases k
  {
    if k > 0 {
      ForkFollowsWalk(tree, db, tip, nb, bs, k - 1);
      var j := |bs| - k;
      assert bs[j].prev == nb[k - 1].prev;
      assert j > 0;
      assert bs[j - 1].hash == nb[k].hash;
      assert InfoOk(tree, bs[j - 1]) && InfoOk(tree, nb[k]);
    }
  }

  /** The branch to fetch is determined by the tables and the reported tip. */
  lemma {:induction false} ForkUnique(tree: Tree, db: Db, tip: BlockHash, b: seq<BlockInfo>, c: seq<BlockInfo>)
    requires IsFork(tree, db, tip, b) && IsFork(tree, db, tip, c)
    ensures b == c
  {
    ForkPrefix(tree, db, tip, b, c);
    ForkPrefix(tree, db, tip, c, b);
    forall i | 0 <= i < |b| ensures b[i] == c[i] {
      var w := Reverse(b);
      ForkIsWalk(tree, db, tip, b);
      ForkFollowsWalk(tree, db, tip, w, c, |b| - 1 - i);
    }
  }

  lemma {:induction false} ForkIsWalk(tree: Tree, db: Db, tip: BlockHash, bs: seq<BlockInfo>)
    requires IsFork(tree, db, tip, bs)
    ensures IsWalk(tree, db, tip, Reverse(bs))
  {
    var r := Reverse(bs);
    forall i | 0 < i < |r| ensures r[i].hash == r[i - 1].prev {
      assert r[i - 1] == bs[|bs| - 1 - i + 1];
    }
  }

  lemma {:induction false} ForkPrefix(tree: Tree, db: Db, tip: BlockHash, b: seq<BlockInfo>, c: seq<BlockInfo>)
    requires IsFork(tree, db, tip, b) && IsFork(tree, db, tip, c)
    ensures |b| <= |c|
  {
    ForkIsWalk(tree, db, tip, b);
    ForkFollowsWalk(tree, db, tip, Reverse(b), c, |b| - 1);
  }

  /** `fetch_new_blocks`: the branch above the nearest canonical ancestor, oldest first; an error
      if it is longer than `depth`, leaves the tree, or a call fails. */
  method FetchNewBlocks(db: Database, tree: Tree, rpc: Rpc, current: nat, depth: nat)
    returns (r: Result<Option<seq<BlockInfo>>>)
    requires Honest(tree, rpc, current + 1) && depth >= 1
    ensures r == Ok(None) <==> rpc.tip.None?
    ensures r.Ok? && r.value.Some? ==>
              && IsFork(tree, db.View(), rpc.tip.value, r.value.value)
              && |r.value.value| <= depth
              && forall i :: 0 <= i < |r.value.value| ==> r.value.value[i].height == current + 2 - |r.value.value| + i
    ensures r.Err? && rpc.badHeaders == {} ==>
              forall bs :: IsFork(tree, db.View(), rpc.tip.value, bs) ==> |bs| > depth
  {
    if rpc.tip.None? {
      return Ok(None);
    }
    var tip := rpc.tip.value;
    var calls := 0;
    var prev := GetHeader(tree, rpc, calls, tip);
    if prev.None? {
      return Err;
    }
    var newBlocks := [BlockInfo(tip, prev.value, current + 1)];
    ghost var view := db.View();
    while !(prev.value in db.idOf && db.idOf[prev.value] in db.blocks && db.blocks[db.idOf[prev.value]].canonical)
      invariant prev.Some? && |newBlocks| <= depth
      invariant IsWalk(tree, view, tip, newBlocks) && newBlocks[|newBlocks| - 1].prev == prev.value
      invariant forall i :: 0 <= i < |newBlocks| ==> newBlocks[i].height + i == current + 1
      decreases depth - |newBlocks|
    {
      var parent := prev.value;
      var last := newBlocks[|newBlocks| - 1];
      calls := calls + 1;
      prev := GetHeader(tree, rpc, calls, parent);
      assert ValidNode(tree, last.hash) && InfoOk(tree, last);
      if prev.None? {
        forall bs ensures rpc.badHeaders == {} ==> !IsFork(tree, view, tip, bs) {
          if IsFork(tree, view, tip, bs) {
            ForkGoesOn(tree, view, tip, newBlocks, bs);
          }
        }
        return Err;
      }
      newBlocks := newBlocks + [BlockInfo(parent, prev.value, last.height - 1)];
      if |newBlocks| > depth {
        forall bs | IsFork(tree, view, tip, bs) ensures |bs| > depth {
          ForkFollowsWalk(tree, view, tip, newBlocks, bs, |newBlocks| - 1);
        }
        return Err;
      }
    }
    WalkIsFork(tree, view, tip, newBlocks);
    r := Ok(Some(Reverse(newBlocks)));
  }

  /** A fork goes on past a walk that has met no canonical block, so the next parent is known. */
  lemma {:induction false} ForkGoesOn(tree: Tree, db: Db, tip: BlockHash, nb: seq<BlockInfo>, bs: seq<BlockInfo>)
    requires IsWalk(tree, db, tip, nb) && IsFork(tree, db, tip, bs)
    requires !IsCanonicalHash(db, nb[|nb| - 1].prev)
    ensures |bs| > |nb| && nb[|nb| - 1].prev in tree
  {
    ForkFollowsWalk(tree, db, tip, nb, bs, |nb| - 1);
    var j := |bs| - |nb|;
    assert bs[j].prev == nb[|nb| - 1].prev;
    assert j > 0;
    assert InfoOk(tree, bs[j - 1]);
  }

  // ---------------------------------------------------------------- saving blocks

  ghost predicate NoRowsFor(db: Db, id: nat) {
    && (forall i :: 0 <= i < |db.txs| ==> db.txs[i].blockId != id)
    && (forall i :: 0 <= i < |db.spent| ==> db.spent[i].blockId != id)
  }

  /** `save_transaction_spent_utxos`. */
  method SaveTransactionSpentUtxos(db: Database, tx: Tx, id: nat) returns (ok: bool)
    modifies db`txs, db`spent
    ensures ok ==> db.txs == old(db.txs) + [TxRow(id, tx.txid)]
    ensures ok ==> db.spent == old(db.spent) + InputRows(id, tx.txid, tx.inputs)
    ensures (&& Distinct(tx.inputs) && TxRow(id, tx.txid) !in old(db.txs)
             && (forall r :: r in old(db.spent) ==> r.blockId != id || r.spending != tx.txid)) ==> ok
  {
    ok := db.InsertTxid(TxRow(id, tx.txid));
    if !ok {
      return;
    }
    for i := 0 to |tx.inputs|
      invariant db.txs == old(db.txs) + [TxRow(id, tx.txid)]
      invariant db.spent == old(db.spent) + InputRows(id, tx.txid, tx.inputs[..i])
    {
      var row := SpentRow(id, tx.txid, tx.inputs[i]);
      ghost var done := InputRows(id, tx.txid, tx.inputs[..i]);
      assert Distinct(tx.inputs) ==> row !in done;
      ok := db.InsertSpentUtxo(row);
      if !ok {
        return;
      }
      assert done + [row] == InputRows(id, tx.txid, tx.inputs[..i + 1]);
      assert old(db.spent) + done + [row] == old(db.spent) + (done + [row]);
    }
    assert tx.inputs[..|tx.inputs|] == tx.inputs;
  }

  /** The loop of `save_block` over a new block's transactions. */
  method SaveTransactions(db: Database, txs: seq<Tx>, id: nat) returns (ok: bool)
    modifies db`txs, db`spent
    ensures ok ==> db.txs == old(db.txs) + TxRows(id, txs) && db.spent == old(db.spent) + SpentRows(id, txs)
    ensures ConsensusTxs(txs) && old(NoRowsFor(db.View(), id)) ==> ok
  {
    hide TxRows; hide SpentRows; hide InputRows; hide ConsensusTxs; hide NoRowsFor; hide Distinct;
    NoRows(id, txs);
    for i := 0 to |txs|
      invariant db.txs == old(db.txs) + TxRows(id, txs[..i])
      invariant db.spent == old(db.spent) + SpentRows(id, txs[..i])
    {
      ghost var front := txs[..i];
      NoConflict(old(db.View()), txs, id, i);
      ok := SaveTransactionSpentUtxos(db, txs[i], id);
      if !ok {
        return;
      }
      RowsSnoc(id, txs, i);
      assert db.txs == old(db.txs) + (TxRows(id, front) + [TxRow(id, txs[i].txid)]);
      assert db.spent == old(db.spent) + (SpentRows(id, front) + InputRows(id, txs[i].txid, txs[i].inputs));
    }
    assert txs[..|txs|] == txs;
    ok := true;
  }

  /** In a consensus-valid block the next transaction's rows are all new. */
  lemma {:induction false} NoConflict(db: Db, txs: seq<Tx>, id: nat, i: nat)
    requires i < |txs|
    ensures ConsensusTxs(txs) && NoRowsFor(db, id) ==>
      && Distinct(txs[i].inputs)
      && TxRow(id, txs[i].txid) !in db.txs + TxRows(id, txs[..i])
      && forall r :: r in db.spent + SpentRows(id, txs[..i]) ==> r.blockId != id || r.spending != txs[i].txid
  {
    hide SpentRows;
    if ConsensusTxs(txs) && NoRowsFor(db, id) {
      forall r | r in db.spent + SpentRows(id, txs[..i]) ensures r.blockId != id || r.spending != txs[i].txid {
        if r in SpentRows(id, txs[..i]) {
          var j :| 0 <= j < i && txs[..i][j].txid == r.spending;
        }
      }
    }
  }

  lemma {:induction false} NoRows(id: nat, txs: seq<Tx>)
    ensures TxRows(id, txs[..0]) == [] && SpentRows(id, txs[..0]) == []
  {
  }

  lemma {:induction false} RowsSnoc(id: nat, txs: seq<Tx>, i: nat)
    requires i < |txs|
    ensures TxRows(id, txs[..i + 1]) == TxRows(id, txs[..i]) + [TxRow(id, txs[i].txid)]
    ensures SpentRows(id, txs[..i + 1]) == SpentRows(id, txs[..i]) + InputRows(id, txs[i].txid, txs[i].inputs)
  {
    assert txs[..i + 1][..i] == txs[..i];
  }

  /** What the unique indexes ask of a block about to be saved. */
  ghost predicate Insertable(db: Db, b: Block) {
    && ConsensusTxs(b.txs) && NoRowsFor(db, db.nextId)
    && (b.hash in db.idOf ==> db.idOf[b.hash] in db.blocks)
  }

  /** `save_block`. */
  method SaveBlock(db: Database, block: Block, height: nat) returns (r: Result<nat>)
    modifies db
    ensures r.Ok? ==> db.View() == SyncerDb.SaveBlock(old(db.View()), block, height)
                      && r.value == SavedId(old(db.View()), block)
    ensures old(Insertable(db.View(), block)) ==> r.Ok?
    ensures db.nextId >= old(db.nextId) && db.cursor == old(db.cursor) && db.handled == old(db.handled)
  {
    hide TxRows; hide SpentRows; hide ConsensusTxs;
    var known := db.UpdateBlockAsCanonical(block.hash);
    db.UpsertFullBlock(block, height);
    if known.Some? {
      return Ok(known.value);
    }
    var id := db.InsertBlockInfo(block.hash, block.prev, height);
    if id.None? {
      return Err;
    }
    var ok := SaveTransactions(db, block.txs, id.value);
    r := if ok then Ok(id.value) else Err;
  }

  /** `handle_reorg_events`. */
  method HandleReorgEvents(db: Database, ancestor: nat)
    modifies db
    ensures db.View() == DropAbove(old(db.View()), ancestor)
  {
    var ids := db.UpdateNonCanonical(ancestor);
    for i := 0 to |ids|
      invariant db.View() == DropAbove(old(db.View()), ancestor).(events := db.events)
      invariant db.events == old(db.events) + Reorgs(ids[..i])
    {
      db.InsertEvent(ReorgedBlock(ids[i]));
      assert Reorgs(ids[..i]) + [ReorgedBlock(ids[i])] == Reorgs(ids[..i + 1]);
      assert db.events == old(db.events) + (Reorgs(ids[..i]) + [ReorgedBlock(ids[i])]);
    }
    assert ids[..|ids|] == ids;
  }

  ghost function BlocksOf(tree: Tree, infos: seq<BlockInfo>): (bs: seq<Block>)
    requires forall i :: 0 <= i < |infos| ==> InfoOk(tree, infos[i])
    ensures |bs| == |infos|
    ensures forall i :: 0 <= i < |infos| ==> InfoOk(tree, infos[i]) && bs[i] == tree[infos[i].hash].block
  {
    if infos == [] then []
    else
      var n := |infos| - 1;
      assert InfoOk(tree, infos[n]);
      BlocksOf(tree, infos[..n]) + [tree[infos[n].hash].block]
  }

  /** `process_new_blocks`, for a fetched branch on top of a chain that ends at its parent. */
  method ProcessNewBlocks(db: Database, tree: Tree, rpc: Rpc, infos: seq<BlockInfo>, ghost start: nat, ghost chain: seq<BlockHash>)
    returns (r: Result<()>)
    requires forall i :: 0 <= i < |infos| ==> InfoOk(tree, infos[i])
    requires Continues(tree, chain, BlocksOf(tree, infos)) && Inv(tree, start, db.View(), chain)
    requires forall i :: 0 <= i < |infos| ==> infos[i].height == start + |chain| + i
    modifies db
    ensures r.Ok? ==> db.View() == ProcessBlocks(old(db.View()), BlocksOf(tree, infos), start + |chain|)
    ensures rpc.badBlocks == {} ==> r.Ok?
    ensures db.nextId >= old(db.nextId)
  {
    hide Inv; hide SyncerDb.SaveBlock; hide Continues;
    ghost var all, height := BlocksOf(tree, infos), start + |chain|;
    assert all[..0] == [];
    for i := 0 to |infos|
      invariant db.View() == ProcessBlocks(old(db.View()), all[..i], height)
      invariant db.nextId >= old(db.nextId)
    {
      var block := GetBlock(tree, rpc, i, infos[i].hash);
      if block.None? {
        return Err;
      }
      ghost var before := db.View();
      ContinuesPrefix(tree, chain, all, i);
      ProcessInv(tree, start, old(db.View()), chain, all[..i]);
      FreshRows(tree, start, before, chain + Hashes(all[..i]), infos[i].hash);
      var id := SaveBlock(db, block.value, infos[i].height);
      if id.Err? {
        return Err;
      }
      db.InsertEvent(NewBlock(id.value));
      assert all[..i + 1][..i] == all[..i];
      assert db.View() == ProcessBlock(before, block.value, infos[i].height);
    }
    assert all[..|infos|] == all;
    r := Ok(());
  }

  /** No output row carries the id the sequence gives next, so no insert of a consensus-valid
      block can violate a unique index. */
  lemma {:induction false} FreshRows(tree: Tree, start: nat, db: Db, chain: seq<BlockHash>, h: BlockHash)
    requires Inv(tree, start, db, chain) && h in tree
    ensures Insertable(db, tree[h].block)
  {
    assert ValidNode(tree, h);
    TableIndexed(tree, start, db);
  }

  // ---------------------------------------------------------------- the task

  /** A fetched branch forks off the chain right above a block of it. */
  lemma {:induction false} ForkPoint(tree: Tree, start: nat, db: Db, chain: seq<BlockHash>, info: BlockInfo)
    requires Inv(tree, start, db, chain) && InfoOk(tree, info) && IsCanonicalHash(db, info.prev)
    ensures start < info.height <= start + |chain| && chain[info.height - 1 - start] == info.prev
  {
    assert ValidNode(tree, info.hash);
    assert RowOk(tree, start, db, db.idOf[info.prev]);
  }

  lemma {:induction false} BlocksMatch(tree: Tree, infos: seq<BlockInfo>, i: nat)
    requires ValidTree(tree) && i < |infos| && forall j :: 0 <= j < |infos| ==> InfoOk(tree, infos[j])
    ensures var b := BlocksOf(tree, infos)[i];
            b.hash == infos[i].hash && b.prev == infos[i].prev && b.hash in tree && tree[b.hash].block == b
  {
    assert InfoOk(tree, infos[i]);
    assert ValidNode(tree, infos[i].hash);
  }

  /** A fetched branch continues the chain up to its fork point and ends in the reported block. */
  lemma {:induction false} ForkContinues(tree: Tree, start: nat, db: Db, chain: seq<BlockHash>, tip: BlockHash, infos: seq<BlockInfo>)
    requires Inv(tree, start, db, chain) && IsFork(tree, db, tip, infos)
    ensures start < infos[0].height <= start + |chain|
    ensures Continues(tree, chain[..infos[0].height - start], BlocksOf(tree, infos))
    ensures BlocksOf(tree, infos)[|infos| - 1].hash == tip
  {
    ForkPoint(tree, start, db, chain, infos[0]);
    assert ValidTree(tree);
    var below, bs := chain[..infos[0].height - start], BlocksOf(tree, infos);
    hide *;
    forall i | 0 <= i < |bs|
      ensures bs[i].hash in tree && tree[bs[i].hash].block == bs[i] && bs[i].hash == infos[i].hash && bs[i].prev == infos[i].prev
    {
      BlocksMatch(tree, infos, i);
    }
    LinkedContinues(tree, below, infos, bs);
  }

  lemma {:induction false} LinkedContinues(tree: Tree, below: seq<BlockHash>, infos: seq<BlockInfo>, bs: seq<Block>)
    requires below != [] && infos != [] && |infos| == |bs| && infos[0].prev == below[|below| - 1]
    requires forall i :: 0 < i < |infos| ==> infos[i].prev == infos[i - 1].hash
    requires forall i :: 0 <= i < |bs| ==>
      bs[i].hash in tree && tree[bs[i].hash].block == bs[i] && bs[i].hash == infos[i].hash && bs[i].prev == infos[i].prev
    ensures Continues(tree, below, bs)
  {
  }

  class BitcoinSyncerTask {
    const db: Database
    const tree: Tree
    const params: Params
    var currentHeight: nat
    ghost var chain: seq<BlockHash>

    constructor (db: Database, tree: Tree, params: Params, height: nat, ghost chain: seq<BlockHash>)
      ensures this.db == db && this.tree == tree && this.params == params
      ensures currentHeight == height && this.chain == chain
    {
      this.db, this.tree, this.params, this.currentHeight, this.chain := db, tree, params, height, chain;
    }

    ghost function State(): Sys
      reads this, db
    {
      Sys(db.View(), chain, currentHeight, 0, Idle)
    }

    ghost predicate Valid()
      reads this, db
    {
      params.depth >= 1 && Inv(tree, params.start, db.View(), chain) && TipOk(params, State())
    }

    /** `run_once`: does nothing without a next block; on an error the transaction is rolled back
        and the height kept; otherwise the reported block's branch becomes the canonical chain
        and the height rises by one. */
    method RunOnce(rpc: Rpc) returns (r: Result<bool>)
      requires Valid() && Honest(tree, rpc, currentHeight + 1)
      modifies this, db
      ensures Valid()
      ensures r == Ok(false) <==> rpc.tip.None?
      ensures r == Ok(false) ==> State() == old(State())
      ensures r == Ok(true) ==> SyncWork(tree, params, old(State()), State()) && chain[|chain| - 1] == rpc.tip.value
      ensures r.Err? ==> SyncFail(old(State()), State())
      ensures r.Err? && rpc.badHeaders == {} && rpc.badBlocks == {} ==>
                forall bs :: IsFork(tree, old(db.View()), rpc.tip.value, bs) ==> |bs| > params.depth
    {
      hide Inv; hide Continues; hide ValidTree; hide ProcessBlocks; hide BlocksOf; hide IsCanonicalHash;
      var fetched := FetchNewBlocks(db, tree, rpc, currentHeight, params.depth);
      if fetched.Err? {
        return Err;
      }
      if fetched.value.None? || fetched.value.value == [] {
        return Ok(false);
      }
      var newBlocks := fetched.value.value;
      var first := newBlocks[0].height;
      ghost var k, bs := first - params.start, BlocksOf(tree, newBlocks);
      ForkContinues(tree, params.start, db.View(), chain, rpc.tip.value, newBlocks);
      DropInv(tree, params.start, db.View(), chain, k);

      var saved := db.View();
      HandleReorgEvents(db, first - 1);
      var processed := ProcessNewBlocks(db, tree, rpc, newBlocks, params.start, chain[..k]);
      if processed.Err? {
        db.Rollback(saved);
        FailTables(tree, params.start, saved, db.View(), chain);
        return Err;
      }
      CommitInv(tree, params.start, saved, chain, k, bs, currentHeight + 1);
      currentHeight := newBlocks[|newBlocks| - 1].height;
      chain := chain[..k] + Hashes(bs);
      assert SyncWorkWith(tree, params, old(State()), State(), k, bs);
      r := Ok(true);
    }
  }

  // ---------------------------------------------------------------- starting up

  /** The node's answers while starting: the block count and the block at the start height. */
  datatype StartRpc = StartRpc(count: Option<nat>, hash: Option<BlockHash>, headerOk: bool, blockOk: bool)

  ghost predicate StartHonest(tree: Tree, rpc: StartRpc, start: nat) {
    ValidTree(tree) && (rpc.hash.Some? ==> rpc.hash.value in tree && tree[rpc.hash.value].height == start)
  }

  /** Nothing was ever committed; only the id sequence may have moved. */
  ghost predicate NeverUsed(d: Db) {
    d == EmptyDb.(nextId := d.nextId)
  }

  lemma {:induction false} UnusedHasNone(d: Db)
    requires NeverUsed(d)
    ensures CanonicalIds(d) == {} && forall m: nat :: !IsMaxHeight(d, m)
  {
  }

  lemma {:induction false} UsedHasCanonical(tree: Tree, start: nat, db: Db, chain: seq<BlockHash>)
    requires Inv(tree, start, db, chain)
    ensures CanonicalIds(db) != {}
  {
    CanonicalRow(tree, start, db, chain, start);
    assert IsCanonicalAt(db, db.idOf[chain[0]], start);
    assert db.idOf[chain[0]] in CanonicalIds(db);
  }

  /** `set_initial_block_info_if_not_exists`: an empty database gets the block at the start
      height, unless the node is not that far; a database in use is left alone. */
  method SetInitialBlockInfo(db: Database, tree: Tree, start: nat, rpc: StartRpc, ghost chain: seq<BlockHash>)
    returns (r: Result<()>)
    requires StartHonest(tree, rpc, start)
    requires if chain == [] then NeverUsed(db.View()) else Inv(tree, start, db.View(), chain)
    modifies db
    ensures chain != [] ==> r == Ok(()) && db.View() == old(db.View())
    ensures chain == [] && r.Ok? && rpc.count.Some? && start <= rpc.count.value ==>
              rpc.hash.Some? && db.View() == ProcessBlock(old(db.View()), tree[rpc.hash.value].block, start)
    ensures chain == [] && r.Ok? && rpc.count.Some? && start > rpc.count.value ==> NeverUsed(db.View())
    ensures chain == [] && r.Err? ==> NeverUsed(db.View())
    ensures chain == [] ==>
              (r.Ok? <==> (rpc.count.Some? && (start <= rpc.count.value ==> rpc.hash.Some? && rpc.headerOk && rpc.blockOk)))
  {
    if chain == [] {
      UnusedHasNone(db.View());
    } else {
      UsedHasCanonical(tree, start, db.View(), chain);
    }
    var m := db.GetMaxHeight();
    if m.Some? {
      return Ok(());
    }
    if rpc.count.None? {
      return Err;
    }
    if start > rpc.count.value {
      return Ok(());
    }
    if rpc.hash.None? || !rpc.headerOk || !rpc.blockOk {
      return Err;
    }
    var block := tree[rpc.hash.value].block;
    assert ValidNode(tree, rpc.hash.value);
    var id := SaveBlock(db, block, start);
    if id.Err? {
      return Err;
    }
    db.InsertEvent(NewBlock(id.value));
    r := Ok(());
  }

  lemma {:induction false} NodeOk(tree: Tree, h: BlockHash)
    requires ValidTree(tree) && h in tree
    ensures tree[h].block.hash == h
  {
    assert ValidNode(tree, h);
  }

  /** `BitcoinSyncer::new`: the task starts at the greatest canonical height; on a fresh database
      in an initial state of the system. */
  method NewSyncer(db: Database, tree: Tree, p: Params, rpc: StartRpc, ghost chain: seq<BlockHash>)
    returns (r: Result<BitcoinSyncerTask>)
    requires p.depth >= 1 && StartHonest(tree, rpc, p.start)
    requires if chain == [] then NeverUsed(db.View())
             else Inv(tree, p.start, db.View(), chain) && NoneAbove(db.View(), p.start + |chain| - 1)
    modifies db
    ensures r.Ok? ==> fresh(r.value) && r.value.db == db && r.value.tree == tree && r.value.params == p && r.value.Valid()
    ensures r.Ok? && chain == [] ==> Init(tree, p, r.value.State().(next := p.start))
    ensures chain != [] ==> r.Ok? && r.value.chain == chain && db.View() == old(db.View())
    ensures chain == [] ==> (r.Ok? <==> rpc.count.Some? && p.start <= rpc.count.value
                                        && rpc.hash.Some? && rpc.headerOk && rpc.blockOk)
  {
    hide Inv; hide ValidTree; hide ProcessBlock; hide IsMaxHeight; hide Branch; hide IsCanonicalHash;
    ghost var before := db.nextId;
    var started := SetInitialBlockInfo(db, tree, p.start, rpc, chain);
    if started.Err? {
      return Err;
    }
    ghost var now := chain;
    if chain == [] && p.start <= rpc.count.value {
      NodeOk(tree, rpc.hash.value);
      InitialInv(tree, before, tree[rpc.hash.value].block, p.start);
      now := [rpc.hash.value];
    }
    var m := db.GetMaxHeight();
    if now != [] {
      CanonicalIsBranch(tree, p.start, db.View(), now);
      UsedHasCanonical(tree, p.start, db.View(), now);
    } else {
      UnusedHasNone(db.View());
    }
    if m.None? {
      return Err;
    }
    var task := new BitcoinSyncerTask(db, tree, p, m.value, now);
    if chain == [] {
      assert InitWith(tree, p, task.State().(next := p.start), tree[rpc.hash.value].block, before);
    }
    r := Ok(task);
  }

  /** A step of the syncer task is a step of the whole system, whatever the fetcher is doing. */
  lemma {:induction false} TaskStepInSystem(t: Tree, p: Params, s: Sys, s': Sys, next: nat, fetch: Fetch)
    requires SyncWork(t, p, s, s') || SyncFail(s, s')
    ensures SyncStep(t, p, s.(next := next, fetch := fetch), s'.(next := next, fetch := fetch))
  {
    hide Continues; hide CommitBranch;
    if SyncWork(t, p, s, s') {
      var k: nat, bs: seq<Block> :| SyncWorkWith(t, p, s, s', k, bs);
      assert SyncWorkWith(t, p, s.(next := next, fetch := fetch), s'.(next := next, fetch := fetch), k, bs);
    }
  }
}
