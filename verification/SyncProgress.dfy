/** The fetcher gets through the log when nothing fails. */
module SyncProgress {
  import opened Common
  import opened BlockTree
  import opened SyncerDb
  import opened Finality
  import opened SyncSystem
  import opened SyncTheorems

  ghost predicate Steps(t: Tree, p: Params, path: seq<Sys>) {
    path != [] && forall i :: 0 < i < |path| ==> Step(t, p, path[i - 1], path[i])
  }

  ghost function Last(path: seq<Sys>): Sys
    requires path != []
  {
    path[|path| - 1]
  }

  lemma {:induction false} StepsConcat(t: Tree, p: Params, a: seq<Sys>, b: seq<Sys>)
    requires Steps(t, p, a) && Steps(t, p, b) && Step(t, p, Last(a), b[0])
    ensures Steps(t, p, a + b) && Last(a + b) == Last(b) && (a + b)[0] == a[0]
  {
    hide Step;
    forall i | 0 < i < |a + b| ensures Step(t, p, (a + b)[i - 1], (a + b)[i]) {
      if i > |a| {
        assert Step(t, p, b[i - |a| - 1], b[i - |a|]);
      }
    }
  }

  /** From an open transaction, reads and handler calls lead to the end of the loop. */
  lemma {:induction false} LoopEnds(t: Tree, p: Params, s: Sys) returns (path: seq<Sys>)
    requires SysInv(t, p, s) && s.fetch.Open? && s.fetch.block.None?
    ensures Steps(t, p, path) && path[0] == s && SysInv(t, p, Last(path))
    ensures Last(path) == s.(fetch := Last(path).fetch) && Last(path).fetch.Open?
    ensures !Guard(p, Last(path).fetch) && Last(path).fetch.block.None?
    decreases if Guard(p, s.fetch) then s.fetch.bound.value + 1 - s.fetch.expected else 0
  {
    hide SysInv;
    if !Guard(p, s.fetch) {
      path := [s];
    } else {
      FetchNeverFails(t, p, s);
      var read := s.(fetch := s.fetch.(block := Some(s.db.full[s.fetch.expected])));
      BlockKeeps(t, p, s, read);
      var id: nat :| IsCanonicalAt(s.db, id, s.fetch.expected);
      var done := s.(fetch := Open(s.fetch.bound, s.fetch.expected + 1,
                                   s.fetch.pending + [Handled(id, read.fetch.block.value, s.fetch.expected)], None));
      assert FetchHandleWith(read, done, id);
      HandleKeeps(t, p, read, done, id);
      assert Step(t, p, s, read) && Step(t, p, read, done);
      var rest := LoopEnds(t, p, done);
      hide *;
      StepsConcat(t, p, [s, read], rest);
      path := [s, read] + rest;
    }
  }

  /** `s'` is `s` after one whole run of the fetcher on the next event. */
  ghost predicate FetchRun(p: Params, s: Sys, s': Sys) {
    && s.fetch.Idle? && CanFetch(p, s.db) && EventsKnown(AtomicFetch(p, s.db))
    && s' == s.(db := AtomicFetch(p, s.db), next := NextFor(p, AtomicFetch(p, s.db)))
  }

  /** While an event is left, a run can consume it. */
  lemma {:induction false} FetchRuns(t: Tree, p: Params, s: Sys) returns (path: seq<Sys>)
    requires SysInv(t, p, s) && s.fetch.Idle? && s.db.cursor < |s.db.events|
    ensures Steps(t, p, path) && path[0] == s && |path| > 1 && FetchRun(p, s, Last(path))
  {
    hide SysInv; hide CanFetch; hide AtomicFetch; hide NextFor; hide EventsKnown;
    var got := s.(fetch := Got(s.db.events[s.db.cursor]));
    EventKeeps(t, p, s, got);
    FetchNeverFails(t, p, got);
    var e := got.fetch.event;
    var begun := s.(fetch := Open(if e.NewBlock? then Some(s.db.blocks[e.id].height) else None, s.next, [], None));
    EventKeeps(t, p, got, begun);
    var loop := LoopEnds(t, p, begun);
    var ready := Last(loop);
    var end := ready.(db := Committed(ready), next := ready.fetch.expected, fetch := Idle);
    assert FetchCommit(p, ready, end);
    FetchSerializable(t, p, ready, end);
    assert Step(t, p, s, got) && Step(t, p, got, begun) && Step(t, p, ready, end);
    hide Step; hide Guard;
    StepsConcat(t, p, [s, got], loop);
    StepsConcat(t, p, [s, got] + loop, [end]);
    path := [s, got] + loop + [end];
  }

  /** The run `longer` goes on from `run` by whole fetcher runs; `ends` are the places between. */
  ghost predicate ByFetchRuns(p: Params, run: seq<Sys>, longer: seq<Sys>, ends: seq<nat>) {
    && run != [] && run <= longer && ends != [] && ends[0] == |run| - 1 && ends[|ends| - 1] == |longer| - 1
    && (forall i :: 0 <= i < |ends| ==> ends[i] < |longer|)
    && (forall i :: 0 < i < |ends| ==> ends[i - 1] < ends[i] && FetchRun(p, longer[ends[i - 1]], longer[ends[i]]))
  }

  /** From every reachable idle state, as many fetcher runs as events are left consume the whole
      log; the next height is then the least one with fewer than `depth`
      confirmations. */
  lemma {:induction false} Drains(t: Tree, p: Params, run: seq<Sys>) returns (longer: seq<Sys>, ends: seq<nat>)
    requires Run(t, p, run) && Last(run).fetch.Idle?
    ensures Run(t, p, longer) && ByFetchRuns(p, run, longer, ends)
    ensures Last(run).db.cursor + |ends| - 1 == |Last(run).db.events|
    ensures Last(longer).db.cursor == |Last(longer).db.events| && Last(longer).db.events == Last(run).db.events
    ensures Last(longer).current == Last(run).current
    ensures Last(longer).next == Larger(p.start, Last(run).current + 2 - p.depth)
    decreases |Last(run).db.events| - Last(run).db.cursor
  {
    hide SysInv;
    var s := Last(run);
    RunInv(t, p, run, |run| - 1);
    CursorBound(t, p, s);
    if s.db.cursor == |s.db.events| {
      longer, ends := run, [|run| - 1];
      DrainedIsCaughtUp(t, p, run, |run| - 1, 0);
    } else {
      var path := FetchRuns(t, p, s);
      var next := run + path[1..];
      RunsOn(t, p, run, path);
      assert Last(next) == Last(path);
      FetchedOne(p, s, Last(path));
      var rest: seq<nat>;
      longer, rest := Drains(t, p, next);
      ends := [|run| - 1] + rest;
      Joined(p, run, next, longer, rest);
    }
  }

  lemma {:induction false} CursorBound(t: Tree, p: Params, s: Sys)
    requires SysInv(t, p, s)
    ensures s.db.cursor <= |s.db.events|
  {
  }

  lemma {:induction false} FetchedOne(p: Params, s: Sys, s': Sys)
    requires FetchRun(p, s, s')
    ensures s'.db.cursor == s.db.cursor + 1 && s'.db.events == s.db.events && s'.current == s.current && s'.fetch.Idle?
  {
    hide NextFor; hide HandleRange;
  }

  lemma {:induction false} RunsOn(t: Tree, p: Params, run: seq<Sys>, path: seq<Sys>)
    requires Run(t, p, run) && Steps(t, p, path) && path[0] == Last(run)
    ensures Run(t, p, run + path[1..])
  {
    hide Step; hide Init;
    var all := run + path[1..];
    forall i | 0 < i < |all| ensures Step(t, p, all[i - 1], all[i]) {
      if i >= |run| {
        assert all[i] == path[i - |run| + 1] && all[i - 1] == path[i - |run|];
      }
    }
  }

  lemma {:induction false} Joined(p: Params, run: seq<Sys>, next: seq<Sys>, longer: seq<Sys>, rest: seq<nat>)
    requires run != [] && run <= next && |run| < |next| && FetchRun(p, Last(run), Last(next))
    requires ByFetchRuns(p, next, longer, rest)
    ensures ByFetchRuns(p, run, longer, [|run| - 1] + rest)
  {
    hide FetchRun;
    var ends := [|run| - 1] + rest;
    assert longer[|run| - 1] == Last(run) && longer[|next| - 1] == Last(next);
    forall i | 0 < i < |ends| ensures ends[i - 1] < ends[i] && FetchRun(p, longer[ends[i - 1]], longer[ends[i]]) {
      if i > 1 {
        assert ends[i - 1] == rest[i - 2] && ends[i] == rest[i - 1];
      }
    }
  }
}
