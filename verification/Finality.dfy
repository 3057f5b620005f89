/** When a block is final, and the first height a consumer still has to handle. */
module Finality {
  import opened Common
  import opened SyncerDb
  import opened SyncerInvariant

  /** `depth` confirmations make a block final; the tip has one. */
  datatype Params = Params(start: nat, depth: nat)

  /** `is_block_finalized`. */
  predicate Finalized(p: Params, height: nat, tip: nat) {
    height <= tip && tip - height + 1 >= p.depth
  }

  function MaxOpt(m: Option<nat>, h: nat): Option<nat> {
    if m.Some? && m.value >= h then m else Some(h)
  }

  /** `get_max_processed_block_height`: the greatest height among the blocks of these events. */
  function MaxEventHeight(blocks: map<nat, Row>, events: seq<Event>): Option<nat>
    requires forall i :: 0 <= i < |events| ==> events[i].id in blocks
  {
    if events == [] then None
    else
      var n := |events| - 1;
      MaxOpt(MaxEventHeight(blocks, events[..n]), blocks[events[n].id].height)
  }

  /** `get_next_finalized_block_height_for_consumer`, from the greatest height processed. */
  function NextAfter(p: Params, m: Option<nat>): nat
    requires p.depth >= 1
  {
    if m.Some? && m.value >= p.depth - 1 && m.value - (p.depth - 1) + 1 > p.start
    then m.value - (p.depth - 1) + 1
    else p.start
  }

  ghost predicate EventsKnown(db: Db) {
    db.cursor <= |db.events| && forall i :: 0 <= i < |db.events| ==> db.events[i].id in db.blocks
  }

  /** The height from which a restarted consumer resumes. */
  function NextFor(p: Params, db: Db): nat
    requires p.depth >= 1 && EventsKnown(db)
  {
    NextAfter(p, MaxEventHeight(db.blocks, db.events[..db.cursor]))
  }

  lemma {:induction false} SeenPrefix(events: seq<Event>, n: nat)
    requires n <= |events|
    ensures Seen(events[..n]) <= Seen(events)
    decreases |events| - n
  {
    if n == |events| {
      assert events[..n] == events;
    } else {
      assert events[..n + 1] == events[..n] + [events[n]];
      SeenOne(events[..n], events[n]);
      SeenPrefix(events, n + 1);
    }
  }

  lemma {:induction false} LogKnown(db: Db)
    requires Log(db)
    ensures EventsKnown(db)
  {
    forall i | 0 <= i < |db.events| ensures db.events[i].id in db.blocks {
      SeenPrefix(db.events, i + 1);
    }
  }

  lemma {:induction false} MaxEventOne(blocks: map<nat, Row>, events: seq<Event>, n: nat)
    requires forall i :: 0 <= i < |events| ==> events[i].id in blocks
    requires n < |events|
    ensures MaxEventHeight(blocks, events[..n + 1]) ==
            MaxOpt(MaxEventHeight(blocks, events[..n]), blocks[events[n].id].height)
  {
    assert events[..n + 1][..n] == events[..n];
  }

  /** The maximum covers every block announced so far. */
  lemma {:induction false} MaxEventAtLeast(blocks: map<nat, Row>, events: seq<Event>, id: nat)
    requires forall i :: 0 <= i < |events| ==> events[i].id in blocks
    requires id in Seen(events) && id in blocks
    ensures MaxEventHeight(blocks, events).Some? && blocks[id].height <= MaxEventHeight(blocks, events).value
    decreases |events|
  {
    var n := |events| - 1;
    if events[n] != NewBlock(id) {
      MaxEventAtLeast(blocks, events[..n], id);
    }
  }

  lemma {:induction false} MaxEventAtMost(blocks: map<nat, Row>, events: seq<Event>, top: nat)
    requires forall i :: 0 <= i < |events| ==> events[i].id in blocks
    requires forall id :: id in blocks ==> blocks[id].height <= top
    ensures MaxEventHeight(blocks, events).Some? ==> MaxEventHeight(blocks, events).value <= top
    decreases |events|
  {
    if events != [] {
      MaxEventAtMost(blocks, events[..|events| - 1], top);
    }
  }

  /** Rows keep their height, so the maximum over old events stays. */
  lemma {:induction false} MaxEventStable(b: map<nat, Row>, c: map<nat, Row>, events: seq<Event>)
    requires forall i :: 0 <= i < |events| ==> events[i].id in b
    requires forall id :: id in b ==> id in c && c[id].height == b[id].height
    ensures MaxEventHeight(b, events) == MaxEventHeight(c, events)
    decreases |events|
  {
    if events != [] {
      MaxEventStable(b, c, events[..|events| - 1]);
    }
  }

  /** The finalization loop, run from the height a consumer resumes at, stops at the height it
      would resume at after one more event at height `tip`. */
  lemma {:induction false} LoopEnd(p: Params, m: Option<nat>, tip: nat, expected: nat)
    requires p.depth >= 1
    requires NextAfter(p, m) <= expected && !Finalized(p, expected, tip)
    requires expected > NextAfter(p, m) ==> Finalized(p, expected - 1, tip)
    ensures expected == NextAfter(p, MaxOpt(m, tip))
  {
  }

  /** With the greatest processed height at `tip`, resuming is at the least height, from the start
      on, with fewer than `depth` confirmations. */
  lemma {:induction false} NextIsLeastUnfinalized(p: Params, tip: nat, h: nat)
    requires p.depth >= 1
    ensures h >= p.start ==> (h + p.depth <= tip + 1 <==> h < NextAfter(p, Some(tip)))
    ensures Finalized(p, h, tip) <==> h + p.depth <= tip + 1
    ensures NextAfter(p, Some(tip)) >= p.start && NextAfter(p, None) == p.start
  {
  }

  /** The maximum covers every event so far. */
  lemma {:induction false} MaxEventCovers(blocks: map<nat, Row>, events: seq<Event>, n: nat)
    requires forall i :: 0 <= i < |events| ==> events[i].id in blocks
    requires n < |events|
    ensures MaxEventHeight(blocks, events).Some? && blocks[events[n].id].height <= MaxEventHeight(blocks, events).value
    decreases |events|
  {
    if n < |events| - 1 {
      MaxEventCovers(blocks, events[..|events| - 1], n);
    }
  }
}
