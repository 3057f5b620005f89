/** The aggregator's store of participant keys: filled under a write lock by whichever caller gets
    it, read by all. */
module KeyStore {
  import opened Common

  // ---------------------------------------------------------------- what one holder of the write lock does

  predicate AllSome<T>(keys: seq<Option<T>>) {
    forall i :: 0 <= i < |keys| ==> keys[i].Some?
  }

  ghost predicate Unique<T>(keys: seq<Option<T>>) {
    forall i, j :: 0 <= i < j < |keys| && keys[i].Some? && keys[j].Some? ==> keys[i] != keys[j]
  }

  function Values<T>(keys: seq<Option<T>>): (r: seq<T>)
    requires AllSome(keys)
    ensures |r| == |keys| && forall i :: 0 <= i < |keys| ==> r[i] == keys[i].value
  {
    seq(|keys|, i requires 0 <= i < |keys| => keys[i].value)
  }

  /** Missing keys are replaced by the clients' answers; none is a failed call. */
  function Fill<T>(keys: seq<Option<T>>, answers: seq<Option<T>>): (r: seq<Option<T>>)
    requires |keys| == |answers|
    ensures |r| == |keys|
    ensures forall i :: 0 <= i < |keys| ==> r[i] == if keys[i].Some? then keys[i] else answers[i]
  {
    seq(|keys|, i requires 0 <= i < |keys| => if keys[i].Some? then keys[i] else answers[i])
  }

  function Cleared<T>(n: nat): (r: seq<Option<T>>)
    ensures |r| == n && forall i :: 0 <= i < n ==> r[i] == None
  {
    seq(n, _ => None)
  }

  /** The store when the write lock is released. */
  ghost function Collected<T>(keys: seq<Option<T>>, answers: seq<Option<T>>): seq<Option<T>>
    requires |keys| == |answers|
  {
    var filled := Fill(keys, answers);
    if Unique(filled) then filled else Cleared(|keys|)
  }

  ghost function CollectOk<T>(keys: seq<Option<T>>, answers: seq<Option<T>>): bool
    requires |keys| == |answers|
  {
    Unique(Fill(keys, answers)) && AllSome(Fill(keys, answers))
  }

  /** The key client `i` has, or answers when asked. */
  ghost function KeyOf<T>(keys: seq<Option<T>>, answers: seq<Option<T>>, i: nat): Option<T>
    requires i < |keys| == |answers|
  {
    if keys[i].Some? then keys[i] else answers[i]
  }

  /** No two clients have the same key. */
  ghost predicate NoDuplicates<T>(keys: seq<Option<T>>, answers: seq<Option<T>>)
    requires |keys| == |answers|
  {
    forall i, j :: 0 <= i < j < |keys| && KeyOf(keys, answers, i).Some? ==> KeyOf(keys, answers, i) != KeyOf(keys, answers, j)
  }

  lemma {:induction false} FilledMeans<T>(keys: seq<Option<T>>, answers: seq<Option<T>>)
    requires |keys| == |answers|
    ensures Unique(Fill(keys, answers)) <==> NoDuplicates(keys, answers)
    ensures AllSome(Fill(keys, answers)) <==> forall i :: 0 <= i < |keys| ==> keys[i].Some? || answers[i].Some?
    ensures forall i :: 0 <= i < |keys| ==> Fill(keys, answers)[i] == KeyOf(keys, answers, i)
    ensures CollectOk(keys, answers) <==>
      (forall i :: 0 <= i < |keys| ==> keys[i].Some? || answers[i].Some?)
      && forall i, j :: 0 <= i < j < |keys| ==> KeyOf(keys, answers, i) != KeyOf(keys, answers, j)
  {
    var f := Fill(keys, answers);
    if AllSome(f) && Unique(f) {
      forall i, j | 0 <= i < j < |keys| ensures KeyOf(keys, answers, i) != KeyOf(keys, answers, j) {
        assert f[i] != f[j];
      }
    }
    if NoDuplicates(keys, answers) {
      forall i, j | 0 <= i < j < |f| && f[i].Some? && f[j].Some? ensures f[i] != f[j] {
        assert f[i] == KeyOf(keys, answers, i) && f[j] == KeyOf(keys, answers, j);
      }
    }
  }

  /** The keys present, in order. */
  function Present<T>(keys: seq<Option<T>>): seq<T> {
    if keys == [] then []
    else
      var last := keys[|keys| - 1];
      Present(keys[..|keys| - 1]) + (if last.Some? then [last.value] else [])
  }

  lemma {:induction false} PresentMember<T>(keys: seq<Option<T>>, x: T)
    ensures x in Present(keys) <==> Some(x) in keys
    decreases |keys|
  {
    if keys != [] {
      PresentMember(keys[..|keys| - 1], x);
      assert keys == keys[..|keys| - 1] + [keys[|keys| - 1]];
    }
  }

  lemma {:induction false} PresentDistinct<T>(keys: seq<Option<T>>)
    ensures Distinct(Present(keys)) <==> Unique(keys)
    decreases |keys|
  {
    if keys != [] {
      var front, last := keys[..|keys| - 1], keys[|keys| - 1];
      PresentDistinct(front);
      var p := Present(front);
      SnocUnique(front, last);
      assert keys == front + [last];
      if last.Some? {
        PresentMember(front, last.value);
        SnocDistinct(p, last.value);
      } else {
        assert Present(keys) == p;
      }
    }
  }

  lemma {:induction false} SnocUnique<T>(keys: seq<Option<T>>, k: Option<T>)
    ensures Unique(keys + [k]) <==> Unique(keys) && (k.Some? ==> k !in keys)
  {
    var all := keys + [k];
    if Unique(all) {
      forall i | 0 <= i < |keys| ensures k.Some? ==> keys[i] != k {
        assert all[i] == keys[i] && all[|keys|] == k;
      }
      forall i, j | 0 <= i < j < |keys| && keys[i].Some? && keys[j].Some? ensures keys[i] != keys[j] {
        assert all[i] == keys[i] && all[j] == keys[j];
      }
    }
  }

  class Store<T(==)> {
    var keys: seq<Option<T>>

    constructor (n: nat)
      ensures keys == Cleared(n)
    {
      keys := Cleared(n);
    }

    /** Asks the clients whose key is missing. */
    method AskMissing(answers: seq<Option<T>>)
      requires |answers| == |keys|
      modifies this
      ensures keys == Fill(old(keys), answers)
    {
      var asked: seq<nat> := [];
      for i := 0 to |keys|
        invariant forall j :: 0 <= j < i && keys[j].None? ==> j in asked
        invariant forall k :: k in asked ==> k < |keys| && keys[k].None?
      {
        if keys[i].None? {
          asked := asked + [i];
        }
      }
      for a := 0 to |asked|
        invariant |keys| == |answers|
        invariant forall j :: 0 <= j < |keys| ==>
          keys[j] == if old(keys)[j].Some? || j !in asked[..a] then old(keys)[j] else answers[j]
      {
        var idx := asked[a];
        assert idx in asked;
        if answers[idx].Some? {
          keys := keys[idx := answers[idx]];
        }
        assert asked[..a + 1] == asked[..a] + [asked[a]];
      }
      assert asked[..|asked|] == asked;
    }

    /** Compares the number of keys with the size of their set. */
    method AllDistinct() returns (ok: bool)
      ensures ok <==> Unique(keys)
    {
      var present: seq<T> := [];
      for i := 0 to |keys|
        invariant present == Present(keys[..i])
      {
        assert keys[..i + 1][..i] == keys[..i];
        if keys[i].Some? {
          present := present + [keys[i].value];
        }
      }
      assert keys[..|keys|] == keys;
      var distinct := set k | k in present;
      SetSize(present);
      PresentDistinct(keys);
      ok := |distinct| == |present|;
    }

    method Reset()
      modifies this
      ensures keys == Cleared(|old(keys)|)
    {
      for i := 0 to |keys|
        invariant |keys| == |old(keys)| && forall j :: 0 <= j < i ==> keys[j] == None
      {
        keys := keys[i := None];
      }
    }

    /** The part of `fetch_pubkeys_from_entities` under the write lock. `clients` is the number of
        clients, `answers[i]` what client `i` would answer; only clients whose key is missing are
        asked. On duplicate keys the whole store is reset. */
    method CollectMissing(clients: nat, answers: seq<Option<T>>) returns (ok: bool)
      requires |answers| == clients
      modifies this
      ensures |old(keys)| != clients ==> !ok && keys == old(keys)
      ensures |old(keys)| == clients ==> keys == Collected(old(keys), answers) && ok == CollectOk(old(keys), answers)
      ensures |old(keys)| == clients ==>
        (ok <==> (forall i :: 0 <= i < clients ==> old(keys)[i].Some? || answers[i].Some?)
                 && forall i, j :: 0 <= i < j < clients ==> KeyOf(old(keys), answers, i) != KeyOf(old(keys), answers, j))
      ensures |old(keys)| == clients && NoDuplicates(old(keys), answers) ==>
        |keys| == clients && forall i :: 0 <= i < clients ==> keys[i] == KeyOf(old(keys), answers, i)
      ensures |old(keys)| == clients && !NoDuplicates(old(keys), answers) ==>
        |keys| == clients && forall i :: 0 <= i < clients ==> keys[i] == None
    {
      hide Unique; hide KeyOf; hide NoDuplicates; hide Fill;
      if |keys| != clients {
        return false;
      }
      FilledMeans(keys, answers);
      AskMissing(answers);
      var distinct := AllDistinct();
      if !distinct {
        Reset();
        return false;
      }
      ok := AllSome(keys);
    }
  }

  // ---------------------------------------------------------------- concurrent callers

  /** Where a caller of `fetch_pubkeys_from_entities` is. `Panicked` is the failed `expect`. */
  datatype Caller<T> = Start | Waiting | Reading | Failed | Done(result: seq<T>) | Panicked

  /** `served[i]` holds every key client `i` has answered so far. */
  datatype State<!T> = State(keys: seq<Option<T>>, callers: seq<Caller<T>>, served: seq<iset<T>>)

  ghost predicate Init<T(!new)>(s: State<T>, clients: nat) {
    && s.keys == Cleared(clients)
    && (forall c :: 0 <= c < |s.callers| ==> s.callers[c] == Start)
    && |s.served| == clients && forall i :: 0 <= i < clients ==> s.served[i] == iset{}
  }

  /** Under a read lock: are all keys there? */
  ghost predicate Check<T(!new)>(s: State<T>, s': State<T>, c: nat) {
    && c < |s.callers| && s.callers[c].Start?
    && s' == s.(callers := s.callers[c := if AllSome(s.keys) then Reading else Waiting])
  }

  /** One caller has the write lock and collects. */
  ghost predicate Collect<T(!new)>(s: State<T>, s': State<T>, c: nat, answers: seq<Option<T>>) {
    && c < |s.callers| && s.callers[c].Waiting?
    && |answers| == |s.keys| == |s.served|
    && |s'.served| == |s.served|
    && (forall i :: 0 <= i < |s.served| ==>
          s'.served[i] == if s.keys[i].None? && answers[i].Some? then s.served[i] + iset{answers[i].value} else s.served[i])
    && s' == s.(keys := Collected(s.keys, answers), served := s'.served,
                callers := s.callers[c := if CollectOk(s.keys, answers) then Reading else Failed])
  }

  /** Under a read lock again: every key is expected to be there. */
  ghost predicate Read<T(!new)>(s: State<T>, s': State<T>, c: nat) {
    && c < |s.callers| && s.callers[c].Reading?
    && s' == s.(callers := s.callers[c := if AllSome(s.keys) then Done(Values(s.keys)) else Panicked])
  }

  ghost predicate Step<T(!new)>(s: State<T>, s': State<T>) {
    exists c: nat :: StepBy(s, s', c)
  }

  ghost predicate StepBy<T(!new)>(s: State<T>, s': State<T>, c: nat) {
    Check(s, s', c) || Read(s, s', c) || (exists answers :: Collect(s, s', c, answers))
  }

  ghost predicate Run<T(!new)>(run: seq<State<T>>, clients: nat) {
    run != [] && Init(run[0], clients) && forall i :: 0 < i < |run| ==> Step(run[i - 1], run[i])
  }

  ghost predicate Inv<T(!new)>(s: State<T>, clients: nat) {
    && |s.keys| == |s.served| == clients
    && Unique(s.keys)
    && (forall i :: 0 <= i < clients && s.keys[i].Some? ==> s.keys[i].value in s.served[i])
    && (forall c :: 0 <= c < |s.callers| ==> CallerOk(s, s.callers[c]))
  }

  /** A caller that reads, or has read, faces a full store; nobody panics. */
  ghost predicate CallerOk<T(!new)>(s: State<T>, c: Caller<T>) {
    && !c.Panicked?
    && (c.Reading? ==> AllSome(s.keys))
    && (c.Done? ==> AllSome(s.keys) && c.result == Values(s.keys))
  }

  lemma {:induction false} FullKept<T>(keys: seq<Option<T>>, answers: seq<Option<T>>)
    requires |keys| == |answers| && AllSome(keys) && Unique(keys)
    ensures Collected(keys, answers) == keys && CollectOk(keys, answers)
  {
    assert Fill(keys, answers) == keys;
  }

  /** Once full, the store never changes. */
  lemma {:induction false} FullForever<T(!new)>(s: State<T>, s': State<T>, clients: nat)
    requires Inv(s, clients) && Step(s, s') && AllSome(s.keys)
    ensures s'.keys == s.keys
  {
    var c: nat :| StepBy(s, s', c);
    if answers :| Collect(s, s', c, answers) {
      FullKept(s.keys, answers);
    }
  }

  lemma {:induction false} CollectInv<T(!new)>(s: State<T>, s': State<T>, clients: nat, c: nat, answers: seq<Option<T>>)
    requires Inv(s, clients) && Collect(s, s', c, answers)
    ensures Inv(s', clients)
  {
    if AllSome(s.keys) {
      FullKept(s.keys, answers);
    }
    forall i | 0 <= i < |s'.callers| ensures CallerOk(s', s'.callers[i]) {
      if i != c {
        assert CallerOk(s, s.callers[i]);
      }
    }
  }

  lemma {:induction false} StepInv<T(!new)>(s: State<T>, s': State<T>, clients: nat)
    requires Inv(s, clients) && Step(s, s')
    ensures Inv(s', clients)
  {
    var c: nat :| StepBy(s, s', c);
    if answers :| Collect(s, s', c, answers) {
      CollectInv(s, s', clients, c, answers);
    } else {
      assert CallerOk(s, s.callers[c]);
      forall i | 0 <= i < |s'.callers| ensures CallerOk(s', s'.callers[i]) {
        if i != c {
          assert CallerOk(s, s.callers[i]);
        }
      }
    }
  }

  lemma {:induction false} RunInv<T(!new)>(run: seq<State<T>>, clients: nat, i: nat)
    requires Run(run, clients) && i < |run|
    ensures Inv(run[i], clients)
  {
    hide Step;
    if i > 0 {
      RunInv(run, clients, i - 1);
      StepInv(run[i - 1], run[i], clients);
    }
  }

  lemma {:induction false} FullAfter<T(!new)>(run: seq<State<T>>, clients: nat, i: nat, j: nat)
    requires Run(run, clients) && i <= j < |run| && AllSome(run[i].keys)
    ensures run[j].keys == run[i].keys
    decreases j
  {
    hide Inv; hide Step; hide Init;
    if i < j {
      FullAfter(run, clients, i, j - 1);
      RunInv(run, clients, j - 1);
      FullForever(run[j - 1], run[j], clients);
    }
  }

  /** Under every interleaving: whenever the lock is free the keys present are pairwise distinct,
      no caller panics, and every result holds one distinct key per client, in client order, each
      answered by that client; all callers that succeed, at any time, return the same keys. */
  lemma {:induction false} KeysInRuns<T(!new)>(run: seq<State<T>>, clients: nat, i: nat, c: nat)
    requires Run(run, clients) && i < |run| && c < |run[i].callers|
    ensures Unique(run[i].keys) && !run[i].callers[c].Panicked?
    ensures run[i].callers[c].Done? ==>
      var r := run[i].callers[c].result;
      && |r| == clients && Distinct(r)
      && (forall k :: 0 <= k < clients ==> |run[i].served| == clients && r[k] in run[i].served[k])
      && forall j: nat, d: nat :: i <= j < |run| && d < |run[j].callers| && run[j].callers[d].Done? ==> run[j].callers[d].result == r
  {
    RunInv(run, clients, i);
    var s := run[i];
    assert CallerOk(s, s.callers[c]);
    if s.callers[c].Done? {
      var r := s.callers[c].result;
      forall j: nat, d: nat | i <= j < |run| && d < |run[j].callers| && run[j].callers[d].Done?
        ensures run[j].callers[d].result == r
      {
        FullAfter(run, clients, i, j);
        RunInv(run, clients, j);
        assert CallerOk(run[j], run[j].callers[d]);
      }
    }
  }

  // ---------------------------------------------------------------- success

  /** A caller that waits for the lock gets through if the answers complete the store with
      distinct keys: two more steps, whatever the other callers have done before. */
  lemma {:induction false} WaitingGetsThrough<T(!new)>(run: seq<State<T>>, s: State<T>, clients: nat, c: nat, answers: seq<Option<T>>)
    returns (collected: State<T>, done: State<T>)
    requires Run(run, clients) && s == run[|run| - 1] && c < |s.callers| && s.callers[c].Waiting?
    requires |answers| == |s.keys|
    requires forall i :: 0 <= i < |answers| ==> s.keys[i].Some? || answers[i].Some?
    requires forall i, j :: 0 <= i < j < |answers| ==> KeyOf(s.keys, answers, i) != KeyOf(s.keys, answers, j)
    ensures Run(run + [collected, done], clients)
    ensures c < |done.callers| && done.callers[c].Done? && |done.callers[c].result| == clients == |answers|
    ensures forall i :: 0 <= i < clients ==> Some(done.callers[c].result[i]) == KeyOf(s.keys, answers, i)
  {
    RunInv(run, clients, |run| - 1);
    FilledMeans(s.keys, answers);
    var served := seq(|s.served|, i requires 0 <= i < |s.served| =>
      if s.keys[i].None? && answers[i].Some? then s.served[i] + iset{answers[i].value} else s.served[i]);
    var filled := Fill(s.keys, answers);
    collected := s.(keys := filled, served := served, callers := s.callers[c := Reading]);
    done := collected.(callers := collected.callers[c := Done(Values(filled))]);
    assert Collect(s, collected, c, answers) && Read(collected, done, c);
    assert StepBy(s, collected, c) && StepBy(collected, done, c);
    hide StepBy; hide Inv; hide Init;
    RunOnBy(run, clients, collected);
    RunOnBy(run + [collected], clients, done);
    assert run + [collected] + [done] == run + [collected, done];
  }

  lemma {:induction false} RunOnBy<T(!new)>(run: seq<State<T>>, clients: nat, s: State<T>)
    requires Run(run, clients) && Step(run[|run| - 1], s)
    ensures Run(run + [s], clients)
  {
    hide Step; hide Init;
    var all := run + [s];
    forall i | 0 < i < |all| ensures Step(all[i - 1], all[i]) {
      if i < |run| {
        assert Step(run[i - 1], run[i]);
      }
    }
  }

  /** A caller that finds the store full gets through without asking anyone. */
  lemma {:induction false} FullGetsThrough<T(!new)>(run: seq<State<T>>, s: State<T>, clients: nat, c: nat) returns (checked: State<T>, done: State<T>)
    requires Run(run, clients) && s == run[|run| - 1] && c < |s.callers| && s.callers[c].Start?
    requires forall i :: 0 <= i < |s.keys| ==> s.keys[i].Some?
    ensures Run(run + [checked, done], clients)
    ensures c < |done.callers| && done.callers[c].Done? && |done.callers[c].result| == |s.keys|
    ensures forall i :: 0 <= i < |s.keys| ==> Some(done.callers[c].result[i]) == s.keys[i]
  {
    checked := s.(callers := s.callers[c := Reading]);
    done := checked.(callers := checked.callers[c := Done(Values(s.keys))]);
    assert StepBy(s, checked, c) && StepBy(checked, done, c);
    hide StepBy; hide Init;
    RunOnBy(run, clients, checked);
    RunOnBy(run + [checked], clients, done);
    assert run + [checked] + [done] == run + [checked, done];
  }

  // ---------------------------------------------------------------- looking up participants

  datatype Lookup<T> = Found(clients: seq<nat>) | Missing(key: T)

  /** `get_participating_verifiers` and `get_participating_operators`: for each key of the deposit
      the client that answered it; an error on the first key no client has. */
  method Participating<T(==)>(keys: seq<T>, wanted: seq<T>) returns (r: Lookup<T>)
    ensures r.Found? <==> forall i :: 0 <= i < |wanted| ==> wanted[i] in keys
    ensures r.Found? ==> |r.clients| == |wanted| && forall i :: 0 <= i < |wanted| ==> r.clients[i] < |keys| && keys[r.clients[i]] == wanted[i]
    ensures r.Found? ==> forall i, k :: 0 <= i < |wanted| && 0 <= k < r.clients[i] ==> keys[k] != wanted[i]
    ensures r.Found? && Distinct(keys) ==> (Distinct(r.clients) <==> Distinct(wanted))
    ensures r.Missing? ==> exists n :: 0 <= n < |wanted| && wanted[n] == r.key && r.key !in keys && forall i :: 0 <= i < n ==> wanted[i] in keys
  {
    var clients: seq<nat> := [];
    for i := 0 to |wanted|
      invariant |clients| == i
      invariant forall j :: 0 <= j < i ==> clients[j] < |keys| && keys[clients[j]] == wanted[j]
      invariant forall j, k :: 0 <= j < i && 0 <= k < clients[j] ==> keys[k] != wanted[j]
    {
      var pos := 0;
      while pos < |keys| && keys[pos] != wanted[i]
        invariant 0 <= pos <= |keys| && forall k :: 0 <= k < pos ==> keys[k] != wanted[i]
      {
        pos := pos + 1;
      }
      if pos == |keys| {
        assert forall j :: 0 <= j < i ==> wanted[j] in keys;
        return Missing(wanted[i]);
      }
      clients := clients + [pos];
    }
    r := Found(clients);
  }
}
