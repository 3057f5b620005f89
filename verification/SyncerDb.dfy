/** The tables the Bitcoin syncer keeps, as one value, and what each write does to them. */
module SyncerDb {
  import opened BlockTree

  /** One row of `bitcoin_syncer`; its key is the serial id. */
  datatype Row = Row(hash: BlockHash, prev: BlockHash, height: nat, canonical: bool)

  datatype Event = NewBlock(id: nat) | ReorgedBlock(id: nat)

  datatype TxRow = TxRow(blockId: nat, txid: Txid)
  datatype SpentRow = SpentRow(blockId: nat, spending: Txid, spent: OutPoint)

  /** A finalized block given to the handler, whose effects commit with the cursor. */
  datatype Handled = Handled(id: nat, block: Block, height: nat)

  /** `idOf` is the unique index on the hash column, `nextId` the id sequence,
      `cursor` the number of events the consumer has processed. */
  datatype Db = Db(
    blocks: map<nat, Row>,
    idOf: map<BlockHash, nat>,
    nextId: nat,
    full: map<nat, Block>,
    txs: seq<TxRow>,
    spent: seq<SpentRow>,
    events: seq<Event>,
    cursor: nat,
    handled: seq<Handled>)

  const EmptyDb := Db(map[], map[], 1, map[], [], [], [], 0, [])

  // ---------------------------------------------------------------- event log

  /** Replaying the log: a NewBlock adds its id, a ReorgedBlock takes it away. */
  function Replay(events: seq<Event>): set<nat> {
    if events == [] then {}
    else
      Apply(Replay(events[..|events| - 1]), events[|events| - 1])
  }

  function Apply(ids: set<nat>, e: Event): set<nat> {
    if e.NewBlock? then ids + {e.id} else ids - {e.id}
  }

  /** No NewBlock event repeats an id that is already in. */
  ghost predicate FreshNewBlocks(events: seq<Event>) {
    forall i :: 0 <= i < |events| && events[i].NewBlock? ==> events[i].id !in Replay(events[..i])
  }

  function Reorgs(ids: seq<nat>): (es: seq<Event>)
    ensures |es| == |ids|
    ensures forall i :: 0 <= i < |ids| ==> es[i] == ReorgedBlock(ids[i])
  {
    seq(|ids|, i requires 0 <= i < |ids| => ReorgedBlock(ids[i]))
  }

  lemma {:induction false} ReplayOne(events: seq<Event>, e: Event)
    ensures Replay(events + [e]) == Apply(Replay(events), e)
  {
    assert (events + [e])[..|events|] == events;
  }

  lemma {:induction false} ReplayReorgs(events: seq<Event>, ids: seq<nat>)
    ensures Replay(events + Reorgs(ids)) == Replay(events) - (set i | i in ids)
    decreases |ids|
  {
    hide Replay;
    if ids == [] {
      assert events + Reorgs(ids) == events;
    } else {
      var front, last := ids[..|ids| - 1], ids[|ids| - 1];
      ReplayReorgs(events, front);
      assert events + Reorgs(ids) == (events + Reorgs(front)) + [ReorgedBlock(last)];
      ReplayOne(events + Reorgs(front), ReorgedBlock(last));
      assert ids == front + [last];
    }
  }

  lemma {:induction false} FreshOne(events: seq<Event>, e: Event)
    requires FreshNewBlocks(events)
    requires e.NewBlock? ==> e.id !in Replay(events)
    ensures FreshNewBlocks(events + [e])
  {
    var es := events + [e];
    forall i | 0 <= i < |es| && es[i].NewBlock?
      ensures es[i].id !in Replay(es[..i])
    {
      assert es[..i] == events[..i];
      if i == |events| {
        assert events[..i] == events;
      }
    }
  }

  lemma {:induction false} FreshReorgs(events: seq<Event>, ids: seq<nat>)
    requires FreshNewBlocks(events)
    ensures FreshNewBlocks(events + Reorgs(ids))
    decreases |ids|
  {
    hide Replay; hide FreshNewBlocks;
    if ids == [] {
      assert events + Reorgs(ids) == events;
    } else {
      var front, last := ids[..|ids| - 1], ids[|ids| - 1];
      FreshReorgs(events, front);
      FreshOne(events + Reorgs(front), ReorgedBlock(last));
      assert events + Reorgs(ids) == (events + Reorgs(front)) + [ReorgedBlock(last)];
    }
  }

  /** An id that is in after `j` events and was announced at `i < j` stays in unless a
      ReorgedBlock for it lies between. */
  lemma {:induction false} StaysUntilReorged(events: seq<Event>, i: nat, j: nat, id: nat)
    requires i < j <= |events| && events[i] == NewBlock(id)
    requires forall k :: i < k < j ==> events[k] != ReorgedBlock(id)
    ensures id in Replay(events[..j])
    decreases j
  {
    assert events[..j] == events[..j - 1] + [events[j - 1]];
    ReplayOne(events[..j - 1], events[j - 1]);
    if i < j - 1 {
      StaysUntilReorged(events, i, j - 1, id);
    }
  }

  /** Two announcements of one block always have its reorg between them. */
  lemma {:induction false} ReorgBetweenNewBlocks(events: seq<Event>, i: nat, j: nat, id: nat)
    requires FreshNewBlocks(events)
    requires i < j < |events| && events[i] == NewBlock(id) && events[j] == NewBlock(id)
    ensures exists k :: i < k < j && events[k] == ReorgedBlock(id)
  {
    if forall k :: i < k < j ==> events[k] != ReorgedBlock(id) {
      StaysUntilReorged(events, i, j, id);
    }
  }

  /** The ids announced by a NewBlock event. */
  function Seen(events: seq<Event>): set<nat> {
    if events == [] then {}
    else
      var last := events[|events| - 1];
      Seen(events[..|events| - 1]) + (if last.NewBlock? then {last.id} else {})
  }

  /** Every event is about a block announced by then. */
  ghost predicate AnnouncedFirst(events: seq<Event>) {
    forall i :: 0 <= i < |events| ==> events[i].id in Seen(events[..i + 1])
  }

  lemma {:induction false} SeenOne(events: seq<Event>, e: Event)
    ensures Seen(events + [e]) == Seen(events) + (if e.NewBlock? then {e.id} else {})
  {
    assert (events + [e])[..|events|] == events;
  }

  lemma {:induction false} AnnouncedOne(events: seq<Event>, e: Event)
    requires AnnouncedFirst(events)
    requires e.ReorgedBlock? ==> e.id in Seen(events)
    ensures AnnouncedFirst(events + [e])
  {
    var es := events + [e];
    SeenOne(events, e);
    forall i | 0 <= i < |es| ensures es[i].id in Seen(es[..i + 1]) {
      if i < |events| {
        assert es[..i + 1] == events[..i + 1];
      } else {
        assert es[..i + 1] == es;
      }
    }
  }

  lemma {:induction false} AnnouncedReorgs(events: seq<Event>, ids: seq<nat>)
    requires AnnouncedFirst(events) && forall id :: id in ids ==> id in Seen(events)
    ensures AnnouncedFirst(events + Reorgs(ids)) && Seen(events + Reorgs(ids)) == Seen(events)
    decreases |ids|
  {
    hide Seen; hide AnnouncedFirst;
    if ids == [] {
      assert events + Reorgs(ids) == events;
    } else {
      var front, last := ids[..|ids| - 1], ids[|ids| - 1];
      assert forall id :: id in front ==> id in ids;
      AnnouncedReorgs(events, front);
      assert last in ids;
      AnnouncedOne(events + Reorgs(front), ReorgedBlock(last));
      SeenOne(events + Reorgs(front), ReorgedBlock(last));
      assert events + Reorgs(ids) == (events + Reorgs(front)) + [ReorgedBlock(last)];
    }
  }

  // ---------------------------------------------------------------- reads

  /** `get_block_info_from_hash`: canonical rows only. */
  predicate IsCanonicalHash(db: Db, h: BlockHash) {
    h in db.idOf && db.idOf[h] in db.blocks && db.blocks[db.idOf[h]].canonical
  }

  ghost predicate IsCanonicalAt(db: Db, id: nat, height: nat) {
    id in db.blocks && db.blocks[id].canonical && db.blocks[id].height == height
  }

  ghost function CanonicalIds(db: Db): set<nat> {
    set id | id in db.blocks && db.blocks[id].canonical
  }

  /** `get_max_height`: the greatest height of a canonical row. */
  ghost predicate IsMaxHeight(db: Db, m: nat) {
    && (exists id :: IsCanonicalAt(db, id, m))
    && (forall id: nat, k: nat :: IsCanonicalAt(db, id, k) ==> k <= m)
  }

  // ---------------------------------------------------------------- writes

  function TxRows(id: nat, txs: seq<Tx>): (rows: seq<TxRow>)
    ensures |rows| == |txs|
    ensures forall i :: 0 <= i < |txs| ==> rows[i] == TxRow(id, txs[i].txid)
  {
    seq(|txs|, i requires 0 <= i < |txs| => TxRow(id, txs[i].txid))
  }

  function InputRows(id: nat, txid: Txid, inputs: seq<OutPoint>): (rows: seq<SpentRow>)
    ensures |rows| == |inputs|
    ensures forall i :: 0 <= i < |inputs| ==> rows[i] == SpentRow(id, txid, inputs[i])
  {
    seq(|inputs|, i requires 0 <= i < |inputs| => SpentRow(id, txid, inputs[i]))
  }

  /** Every input of every transaction, in block order. */
  function SpentRows(id: nat, txs: seq<Tx>): (rows: seq<SpentRow>)
    ensures forall r :: r in rows ==> r.blockId == id && (exists i :: 0 <= i < |txs| && txs[i].txid == r.spending)
  {
    if txs == [] then []
    else
      var last := txs[|txs| - 1];
      SpentRows(id, txs[..|txs| - 1]) + InputRows(id, last.txid, last.inputs)
  }

  /** The rows of a block are its inputs, all of them and no others. */
  lemma {:induction false} SpentRowsAre(id: nat, txs: seq<Tx>, r: SpentRow)
    ensures r in SpentRows(id, txs) <==> r.blockId == id && exists i :: 0 <= i < |txs| && txs[i].txid == r.spending && r.spent in txs[i].inputs
    decreases |txs|
  {
    if txs != [] {
      var front, last := txs[..|txs| - 1], txs[|txs| - 1];
      SpentRowsAre(id, front, r);
      var rows := InputRows(id, last.txid, last.inputs);
      if r.blockId == id && r.spending == last.txid && r.spent in last.inputs {
        var k :| 0 <= k < |last.inputs| && last.inputs[k] == r.spent;
        assert rows[k] == r;
      }
      if i :| 0 <= i < |txs| && txs[i].txid == r.spending && r.spent in txs[i].inputs {
        assert i < |front| ==> front[i] == txs[i];
      }
    }
  }

  /** `save_block`: a known block becomes canonical again, a new one is inserted with its inputs. */
  function SaveBlock(db: Db, b: Block, height: nat): Db {
    if b.hash in db.idOf && db.idOf[b.hash] in db.blocks then
      var id := db.idOf[b.hash];
      db.(blocks := db.blocks[id := db.blocks[id].(canonical := true)],
          full := db.full[height := b])
    else
      var id := db.nextId;
      db.(blocks := db.blocks[id := Row(b.hash, b.prev, height, true)],
          idOf := db.idOf[b.hash := id],
          nextId := id + 1,
          full := db.full[height := b],
          txs := db.txs + TxRows(id, b.txs),
          spent := db.spent + SpentRows(id, b.txs))
  }

  function SavedId(db: Db, b: Block): nat {
    if b.hash in db.idOf && db.idOf[b.hash] in db.blocks then db.idOf[b.hash] else db.nextId
  }

  function ProcessBlock(db: Db, b: Block, height: nat): Db {
    var saved := SaveBlock(db, b, height);
    saved.(events := saved.events + [NewBlock(SavedId(db, b))])
  }

  /** `process_new_blocks` on blocks at heights `height`, `height + 1`, ... */
  function ProcessBlocks(db: Db, bs: seq<Block>, height: nat): Db {
    if bs == [] then db
    else
      var n := |bs| - 1;
      ProcessBlock(ProcessBlocks(db, bs[..n], height), bs[n], height + n)
  }

  /** The ids below `n` of rows above `height`, greatest first. */
  function IdsAbove(blocks: map<nat, Row>, n: nat, height: nat): (ids: seq<nat>)
    ensures forall id :: id in ids <==> id < n && id in blocks && blocks[id].height > height
    ensures forall i, j :: 0 <= i < j < |ids| ==> ids[i] > ids[j]
  {
    if n == 0 then []
    else if n - 1 in blocks && blocks[n - 1].height > height then
      var rest := IdsAbove(blocks, n - 1, height);
      assert forall i :: 0 <= i < |rest| ==> rest[i] in rest;
      [n - 1] + rest
    else IdsAbove(blocks, n - 1, height)
  }

  /** `handle_reorg_events`: every row above the ancestor loses its flag and gets an event,
      whether or not it was canonical. */
  function DropAbove(db: Db, height: nat): Db {
    db.(blocks := map id | id in db.blocks ::
                    if db.blocks[id].height > height then db.blocks[id].(canonical := false) else db.blocks[id],
        events := db.events + Reorgs(IdsAbove(db.blocks, db.nextId, height)))
  }

  /** A working syncer run: un-canonicalise above the ancestor, then save the new branch. */
  function CommitBranch(db: Db, bs: seq<Block>, height: nat): Db
    requires height > 0
  {
    ProcessBlocks(DropAbove(db, height - 1), bs, height)
  }

  /** The events of a reorg name every row above the ancestor, greatest id first, also rows that
      were not canonical any more: a ReorgedBlock may follow another one for the same block. */
  lemma {:induction false} ReorgEventsNameAllAbove(db: Db, height: nat, id: nat)
    requires id in db.blocks && id < db.nextId
    ensures db.events <= DropAbove(db, height).events
    ensures db.blocks[id].height > height <==> ReorgedBlock(id) in DropAbove(db, height).events[|db.events|..]
  {
    var ids := IdsAbove(db.blocks, db.nextId, height);
    assert DropAbove(db, height).events[|db.events|..] == Reorgs(ids);
    if db.blocks[id].height > height {
      assert id in ids;
      var i :| 0 <= i < |ids| && ids[i] == id;
      assert Reorgs(ids)[i] == ReorgedBlock(id);
    }
  }

  // ---------------------------------------------------------------- spent outputs

  function SelectSpent(rows: seq<SpentRow>, id: nat): seq<SpentRow> {
    if rows == [] then []
    else
      var last := rows[|rows| - 1];
      SelectSpent(rows[..|rows| - 1], id) + (if last.blockId == id then [last] else [])
  }

  function SelectTxs(rows: seq<TxRow>, id: nat): seq<TxRow> {
    if rows == [] then []
    else
      var last := rows[|rows| - 1];
      SelectTxs(rows[..|rows| - 1], id) + (if last.blockId == id then [last] else [])
  }

  lemma {:induction false} SelectSpentAppend(rows: seq<SpentRow>, more: seq<SpentRow>, owner: nat, id: nat)
    requires forall r :: r in more ==> r.blockId == owner
    ensures SelectSpent(rows + more, id) == SelectSpent(rows, id) + (if owner == id then more else [])
    decreases |more|
  {
    if more == [] {
      assert rows + more == rows;
    } else {
      var front := more[..|more| - 1];
      SelectSpentAppend(rows, front, owner, id);
      assert (rows + more)[..|rows + more| - 1] == rows + front;
      assert more == front + [more[|more| - 1]];
      assert more[|more| - 1] in more;
    }
  }

  lemma {:induction false} SelectTxsAppend(rows: seq<TxRow>, more: seq<TxRow>, owner: nat, id: nat)
    requires forall r :: r in more ==> r.blockId == owner
    ensures SelectTxs(rows + more, id) == SelectTxs(rows, id) + (if owner == id then more else [])
    decreases |more|
  {
    if more == [] {
      assert rows + more == rows;
    } else {
      var front := more[..|more| - 1];
      SelectTxsAppend(rows, front, owner, id);
      assert (rows + more)[..|rows + more| - 1] == rows + front;
      assert more == front + [more[|more| - 1]];
      assert more[|more| - 1] in more;
    }
  }

  lemma {:induction false} SelectNone(rows: seq<SpentRow>, id: nat)
    requires forall r :: r in rows ==> r.blockId != id
    ensures SelectSpent(rows, id) == []
    decreases |rows|
  {
    if rows != [] {
      SelectNone(rows[..|rows| - 1], id);
      assert rows[|rows| - 1] in rows;
    }
  }

  lemma {:induction false} SelectNoTxs(rows: seq<TxRow>, id: nat)
    requires forall r :: r in rows ==> r.blockId != id
    ensures SelectTxs(rows, id) == []
    decreases |rows|
  {
    if rows != [] {
      SelectNoTxs(rows[..|rows| - 1], id);
      assert rows[|rows| - 1] in rows;
    }
  }
}
