/** The finalized-block fetcher task. */
module Fetcher {
  import opened Common
  import opened BlockTree
  import opened SyncerDb
  import opened Finality
  import opened SyncSystem
  import opened SyncTheorems
  import opened SyncerDatabase

  class FinalizedBlockFetcherTask {
    const db: Database
    const params: Params
    var nextFinalizedHeight: nat

    constructor (db: Database, params: Params, next: nat)
      ensures this.db == db && this.params == params && nextFinalizedHeight == next
    {
      this.db, this.params, this.nextFinalizedHeight := db, params, next;
    }

    /** `run_once`, from any reachable state `s` of the system. Without an event nothing happens.
        Otherwise the event is consumed and every height that has `depth` confirmations under it
        is handled once, in order; if the handler fails, the transaction is rolled back and the height kept. The
        numbers in `refused` are the handler calls that fail. No read of the database fails. */
    method RunOnce(refused: set<nat>, ghost tree: Tree, ghost s: Sys) returns (r: Result<bool>)
      requires SysInv(tree, params, s) && s.fetch == Idle
      requires s.db == db.View() && s.next == nextFinalizedHeight
      modifies this, db
      ensures r == Ok(false) <==> s.db.cursor == |s.db.events|
      ensures r == Ok(true) ==> CanFetch(params, s.db) && db.View() == AtomicFetch(params, s.db)
      ensures r == Ok(true) ==> EventsKnown(db.View()) && nextFinalizedHeight == NextFor(params, db.View())
      ensures r == Ok(true) ==> params.start <= s.next && s.db.cursor < |s.db.events| && s.db.events[s.db.cursor].id in s.db.blocks
      ensures r == Ok(true) && s.db.events[s.db.cursor].ReorgedBlock? ==> nextFinalizedHeight == s.next
      ensures r == Ok(true) && s.db.events[s.db.cursor].NewBlock? ==>
                nextFinalizedHeight == Larger(s.next, s.db.blocks[s.db.events[s.db.cursor].id].height + 2 - params.depth)
      ensures r == Ok(true) ==> SysInv(tree, params, s.(db := db.View(), next := nextFinalizedHeight))
      ensures r != Ok(true) ==> db.View() == s.db && nextFinalizedHeight == s.next
      ensures refused == {} ==> r.Ok?
    {
      hide SysInv; hide AtomicFetch; hide CanFetch; hide EventsKnown; hide NextFor;
      CursorInLog(tree, params, s);
      var saved := db.View();
      var event := db.FetchNextEvent();
      if event.None? {
        return Ok(false);
      }
      var expected := nextFinalizedHeight;
      ghost var g := s.(fetch := Got(event.value));
      EventKeeps(tree, params, s, g);
      if event.value.NewBlock? {
        FetchNeverFails(tree, params, g);
        var tip := db.blocks[event.value.id].height;
        ghost var begun := g.(fetch := Open(Some(tip), expected, [], None));
        EventKeeps(tree, params, g, begun);
        g := begun;
        var call := 0;
        while Finalized(params, expected, tip)
          invariant SysInv(tree, params, g) && nextFinalizedHeight == s.next
          invariant g.fetch.Open? && g == s.(fetch := Open(Some(tip), expected, g.fetch.pending, None))
          invariant db.View() == Committed(g)
          invariant s.next <= expected && (expected > s.next ==> expected - 1 + params.depth <= tip + 1)
          decreases (tip as int) - expected
        {
          FetchNeverFails(tree, params, g);
          var block := db.full[expected];
          ghost var read := g.(fetch := g.fetch.(block := Some(block)));
          BlockKeeps(tree, params, g, read);
          var id := db.GetCanonicalId(expected);
          if id.None? || call in refused {
            ghost var known :| IsCanonicalAt(s.db, known, expected);
            assert IsCanonicalAt(db.View(), known, expected);
            db.Rollback(saved);
            return Err;
          }
          ghost var done := g.(fetch := Open(Some(tip), expected + 1, g.fetch.pending + [Handled(id.value, block, expected)], None));
          assert IsCanonicalAt(s.db, id.value, expected);
          assert FetchHandleWith(read, done, id.value);
          HandleKeeps(tree, params, read, done, id.value);
          db.handled := db.handled + [Handled(id.value, block, expected)];
          g := done;
          expected, call := expected + 1, call + 1;
        }
      } else {
        ghost var begun := g.(fetch := Open(None, expected, [], None));
        FetchNeverFails(tree, params, g);
        EventKeeps(tree, params, g, begun);
        g := begun;
      }
      StartBound(tree, params, s);
      ghost var end := g.(db := Committed(g), next := expected, fetch := Idle);
      assert FetchCommit(params, g, end);
      FetchSerializable(tree, params, g, end);
      CommitKeeps(tree, params, g, end);
      nextFinalizedHeight := expected;
      r := Ok(true);
    }
  }

  lemma {:induction false} StartBound(t: Tree, p: Params, s: Sys)
    requires SysInv(t, p, s)
    ensures p.depth >= 1 && p.start <= s.next
  {
  }

  lemma {:induction false} CursorInLog(t: Tree, p: Params, s: Sys)
    requires SysInv(t, p, s)
    ensures s.db.cursor <= |s.db.events|
  {
  }
}
