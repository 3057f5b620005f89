/** The syncer's database handle: one method per query, each tied to the tables as a value. */
module SyncerDatabase {
  import opened Common
  import opened BlockTree
  import opened SyncerDb

  class Database {
    var blocks: map<nat, Row>
    var idOf: map<BlockHash, nat>
    var nextId: nat
    var full: map<nat, Block>
    var txs: seq<TxRow>
    var spent: seq<SpentRow>
    var events: seq<Event>
    var cursor: nat
    var handled: seq<Handled>

    constructor ()
      ensures View() == EmptyDb
    {
      blocks, idOf, nextId, full, txs, spent, events, cursor, handled := map[], map[], 1, map[], [], [], [], 0, [];
    }

    function View(): Db
      reads this
    {
      Db(blocks, idOf, nextId, full, txs, spent, events, cursor, handled)
    }

    /** Dropping an uncommitted transaction restores the tables but not the id sequence. */
    method Rollback(saved: Db)
      modifies this
      ensures View() == saved.(nextId := old(nextId))
    {
      blocks, idOf, full := saved.blocks, saved.idOf, saved.full;
      txs, spent, events := saved.txs, saved.spent, saved.events;
      cursor, handled := saved.cursor, saved.handled;
    }

    /** `get_max_height`. */
    method GetMaxHeight() returns (m: Option<nat>)
      ensures m.None? ==> CanonicalIds(View()) == {}
      ensures m.Some? ==> IsMaxHeight(View(), m.value)
    {
      m := None;
      var rest := set id | id in blocks && blocks[id].canonical;
      while rest != {}
        invariant forall id :: id in rest ==> id in blocks && blocks[id].canonical
        invariant m.None? ==> forall id :: id in blocks && blocks[id].canonical ==> id in rest
        invariant m.Some? ==>
            && (exists id :: IsCanonicalAt(View(), id, m.value))
            && forall id :: id in blocks && blocks[id].canonical && id !in rest ==> blocks[id].height <= m.value
        decreases rest
      {
        var id :| id in rest;
        rest := rest - {id};
        if m.None? || m.value < blocks[id].height {
          m := Some(blocks[id].height);
          assert IsCanonicalAt(View(), id, m.value);
        }
      }
    }

    /** `update_block_as_canonical`: the id, if the hash is stored. */
    method UpdateBlockAsCanonical(hash: BlockHash) returns (id: Option<nat>)
      modifies this`blocks
      ensures id.Some? <==> hash in idOf && idOf[hash] in old(blocks)
      ensures id.Some? ==> id.value == idOf[hash] &&
                           blocks == old(blocks)[id.value := old(blocks)[id.value].(canonical := true)]
      ensures id.None? ==> blocks == old(blocks)
    {
      if hash in idOf && idOf[hash] in blocks {
        id := Some(idOf[hash]);
        blocks := blocks[idOf[hash] := blocks[idOf[hash]].(canonical := true)];
      } else {
        id := None;
      }
    }

    /** A second row for a hash violates the unique index; the id is used up all the same. */
    method InsertBlockInfo(hash: BlockHash, prev: BlockHash, height: nat) returns (id: Option<nat>)
      modifies this`blocks, this`idOf, this`nextId
      ensures nextId == old(nextId) + 1 && id == if hash in old(idOf) then None else Some(old(nextId))
      ensures id.Some? ==> blocks == old(blocks)[id.value := Row(hash, prev, height, true)] && idOf == old(idOf)[hash := id.value]
      ensures id.None? ==> blocks == old(blocks) && idOf == old(idOf)
    {
      id := if hash in idOf then None else Some(nextId);
      if id.Some? {
        blocks, idOf := blocks[nextId := Row(hash, prev, height, true)], idOf[hash := nextId];
      }
      nextId := nextId + 1;
    }

    method UpsertFullBlock(block: Block, height: nat)
      modifies this`full
      ensures full == old(full)[height := block]
    {
      full := full[height := block];
    }

    /** `update_non_canonical_block_hashes`: clears the flag above `height` and returns the ids of
        all rows above it, greatest first. */
    method UpdateNonCanonical(height: nat) returns (ids: seq<nat>)
      modifies this`blocks
      ensures ids == IdsAbove(old(blocks), nextId, height)
      ensures blocks == DropAbove(old(View()), height).blocks
    {
      ids := IdsAbove(blocks, nextId, height);
      blocks := map id | id in blocks ::
        if blocks[id].height > height then blocks[id].(canonical := false) else blocks[id];
    }

    method InsertEvent(e: Event)
      modifies this`events
      ensures events == old(events) + [e]
    {
      events := events + [e];
    }

    /** A second row with the same key violates the table's primary key. */
    method InsertTxid(row: TxRow) returns (ok: bool)
      modifies this`txs
      ensures ok <==> row !in old(txs)
      ensures txs == if ok then old(txs) + [row] else old(txs)
    {
      ok := row !in txs;
      if ok {
        txs := txs + [row];
      }
    }

    method InsertSpentUtxo(row: SpentRow) returns (ok: bool)
      modifies this`spent
      ensures ok <==> row !in old(spent)
      ensures spent == if ok then old(spent) + [row] else old(spent)
    {
      ok := row !in spent;
      if ok {
        spent := spent + [row];
      }
    }

    /** `fetch_next_bitcoin_syncer_evt`: the next event, moving the cursor past it. */
    method FetchNextEvent() returns (e: Option<Event>)
      modifies this`cursor
      ensures old(cursor) < |events| ==> e == Some(events[old(cursor)]) && cursor == old(cursor) + 1
      ensures old(cursor) >= |events| ==> e == None && cursor == old(cursor)
    {
      if cursor < |events| {
        e := Some(events[cursor]);
        cursor := cursor + 1;
      } else {
        e := None;
      }
    }

    /** `get_canonical_block_id_from_height`. */
    method GetCanonicalId(height: nat) returns (id: Option<nat>)
      ensures id.None? ==> forall i: nat :: !IsCanonicalAt(View(), i, height)
      ensures id.Some? ==> IsCanonicalAt(View(), id.value, height)
    {
      var found := set i | i in blocks && blocks[i].canonical && blocks[i].height == height;
      if found == {} {
        id := None;
        forall i: nat ensures !IsCanonicalAt(View(), i, height) {
          assert i !in found;
        }
      } else {
        var i :| i in found;
        id := Some(i);
      }
    }
  }
}
