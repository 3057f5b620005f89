/** Collecting every operator's deposit keys and handing them to every verifier over a broadcast
    channel. */
module KeyDistribution {
  import opened Common

  /** An operator's answer under the label it is sent with. */
  datatype Msg<K, P> = Msg(owner: K, payload: P)

  /** `Stopped` covers a failed call and a timeout; in both cases the operator's sender is dropped
      and nothing more is sent. */
  datatype Op<P> = Pending | Sent(payload: P) | Stopped

  /** A verifier's task: its position in the channel, the labels it has seen, and what it has set
      on the verifier. */
  datatype Status<K, P> = Waiting | Setting(msg: Msg<K, P>) | Finished | Failed | Lagged

  datatype Verifier<K, P> = Verifier(pos: nat, received: set<K>, sets: seq<Msg<K, P>>, status: Status<K, P>)

  datatype State<K, P> = State(ops: seq<Op<P>>, log: seq<Msg<K, P>>, verifiers: seq<Verifier<K, P>>)

  ghost function LabelSet<K>(labels: seq<K>): set<K> {
    set k | k in labels
  }

  // ---------------------------------------------------------------- steps

  /** The channel is created with room for a message per operator and verifier; a capacity of zero
      panics. */
  ghost predicate Init<K, P>(s: State<K, P>, labels: seq<K>) {
    && |labels| * |s.verifiers| > 0
    && |s.ops| == |labels| && (forall i :: 0 <= i < |s.ops| ==> s.ops[i].Pending?)
    && s.log == []
    && forall j :: 0 <= j < |s.verifiers| ==> s.verifiers[j] == Verifier(0, {}, [], Waiting)
  }

  ghost predicate PowerOfTwo(n: nat) {
    n == 1 || (n > 1 && n % 2 == 0 && PowerOfTwo(n / 2))
  }

  /** The least power of two from `c` on that is at least `n`. */
  ghost function RoundUp(n: nat, c: nat): (r: nat)
    requires PowerOfTwo(c)
    ensures r >= n && (r == c || r < 2 * n) && PowerOfTwo(r)
    decreases n - c
  {
    if c >= n then c else RoundUp(n, 2 * c)
  }

  /** A broadcast channel rounds the capacity asked for up to a power of two. */
  ghost function Capacity<K, P>(s: State<K, P>, labels: seq<K>): (r: nat)
    ensures r >= |labels| * |s.verifiers| && (r == 1 || r < 2 * (|labels| * |s.verifiers|)) && PowerOfTwo(r)
  {
    RoundUp(|labels| * |s.verifiers|, 1)
  }

  ghost predicate Send<K, P>(s: State<K, P>, s': State<K, P>, labels: seq<K>, i: nat, p: P) {
    && i < |s.ops| == |labels| && s.ops[i].Pending?
    && s' == s.(ops := s.ops[i := Sent(p)], log := s.log + [Msg(labels[i], p)])
  }

  ghost predicate Stop<K, P>(s: State<K, P>, s': State<K, P>, i: nat) {
    i < |s.ops| && s.ops[i].Pending? && s' == s.(ops := s.ops[i := Stopped])
  }

  /** Every sender is gone. */
  ghost predicate Closed<K, P>(s: State<K, P>) {
    forall i :: 0 <= i < |s.ops| ==> !s.ops[i].Pending?
  }

  /** What a verifier's loop does next with the channel as it is. */
  ghost function AfterRecv<K, P>(s: State<K, P>, v: Verifier<K, P>, labels: seq<K>): Verifier<K, P>
    requires v.pos < |s.log|
  {
    var m := s.log[v.pos];
    if |s.log| - v.pos > Capacity(s, labels) then v.(status := Lagged)
    else if m.owner in v.received then v.(pos := v.pos + 1)
    else v.(pos := v.pos + 1, received := v.received + {m.owner}, status := Setting(m))
  }

  ghost predicate VerifierStep<K, P>(s: State<K, P>, labels: seq<K>, v: Verifier<K, P>, v': Verifier<K, P>) {
    || (v.status.Waiting? && |v.received| < |labels| && v.pos < |s.log| && v' == AfterRecv(s, v, labels))
    || (v.status.Waiting? && |v.received| < |labels| && v.pos >= |s.log| && Closed(s) && v' == v.(status := Failed))
    || (v.status.Waiting? && |v.received| >= |labels| && v' == v.(status := Finished))
    || (v.status.Setting? && v' == v.(sets := v.sets + [v.status.msg], status := Waiting))
    || (!v.status.Finished? && v' == v.(status := Failed))
  }

  ghost predicate Move<K, P>(s: State<K, P>, s': State<K, P>, labels: seq<K>, j: nat) {
    && j < |s.verifiers| && |s'.verifiers| == |s.verifiers|
    && VerifierStep(s, labels, s.verifiers[j], s'.verifiers[j])
    && s' == s.(verifiers := s.verifiers[j := s'.verifiers[j]])
  }

  ghost predicate Step<K, P(!new)>(s: State<K, P>, s': State<K, P>, labels: seq<K>) {
    || (exists i: nat, p: P :: Send(s, s', labels, i, p))
    || (exists i: nat :: Stop(s, s', i))
    || (exists j: nat :: Move(s, s', labels, j))
  }

  ghost predicate Run<K, P(!new)>(run: seq<State<K, P>>, labels: seq<K>) {
    run != [] && Init(run[0], labels) && forall i :: 0 < i < |run| ==> Step(run[i - 1], run[i], labels)
  }

  // ---------------------------------------------------------------- invariant

  /** `order[k]` is the operator whose message is the k-th in the channel. */
  ghost predicate LogOk<K, P>(s: State<K, P>, labels: seq<K>, order: seq<nat>) {
    && |s.ops| == |labels| && |order| == |s.log|
    && Distinct(order)
    && (forall k :: 0 <= k < |order| ==>
          order[k] < |s.ops| && s.ops[order[k]].Sent? && s.log[k] == Msg(labels[order[k]], s.ops[order[k]].payload))
    && (forall i :: 0 <= i < |s.ops| && s.ops[i].Sent? ==> i in order)
  }

  ghost function Labels<K, P>(msgs: seq<Msg<K, P>>): set<K> {
    set m | m in msgs :: m.owner
  }

  /** What a verifier has been told so far, one message per label, in channel order. */
  ghost function FirstOfEach<K, P>(msgs: seq<Msg<K, P>>): seq<Msg<K, P>> {
    if msgs == [] then []
    else
      var front, last := msgs[..|msgs| - 1], msgs[|msgs| - 1];
      FirstOfEach(front) + (if last.owner in Labels(front) then [] else [last])
  }

  ghost predicate VerifierOk<K, P>(s: State<K, P>, v: Verifier<K, P>, labels: seq<K>) {
    && v.pos <= |s.log|
    && !v.status.Lagged?
    && v.received == Labels(s.log[..v.pos])
    && (v.status.Waiting? || v.status.Finished? ==> v.sets == FirstOfEach(s.log[..v.pos]))
    && (v.status.Setting? ==> v.sets + [v.status.msg] == FirstOfEach(s.log[..v.pos]))
    && (v.status.Finished? ==> |v.received| >= |labels|)
  }

  ghost predicate Inv<K, P>(s: State<K, P>, labels: seq<K>, order: seq<nat>) {
    && |labels| * |s.verifiers| > 0
    && LogOk(s, labels, order)
    && forall j :: 0 <= j < |s.verifiers| ==> VerifierOk(s, s.verifiers[j], labels)
  }

  lemma {:induction false} LabelsSnoc<K, P>(msgs: seq<Msg<K, P>>, n: nat)
    requires n < |msgs|
    ensures Labels(msgs[..n + 1]) == Labels(msgs[..n]) + {msgs[n].owner}
    ensures FirstOfEach(msgs[..n + 1]) == FirstOfEach(msgs[..n]) + (if msgs[n].owner in Labels(msgs[..n]) then [] else [msgs[n]])
  {
    var a := msgs[..n + 1];
    assert a == msgs[..n] + [msgs[n]];
    assert a[..n] == msgs[..n];
    forall k ensures k in Labels(a) <==> k in Labels(msgs[..n]) + {msgs[n].owner} {
      if k in Labels(a) {
        var m :| m in a && m.owner == k;
      }
      if k in Labels(msgs[..n]) {
        var m :| m in msgs[..n] && m.owner == k;
        assert m in a;
      }
      assert msgs[n] in a;
    }
  }

  /** At most one message per operator, so the channel never holds more than fits. */
  lemma {:induction false} LogFits<K, P>(s: State<K, P>, labels: seq<K>, order: seq<nat>)
    requires LogOk(s, labels, order) && |labels| * |s.verifiers| > 0
    ensures |s.log| <= |labels| <= Capacity(s, labels)
  {
    DistinctBelow(order, |labels|);
    var v := |s.verifiers|;
    assert v >= 1;
    assert |labels| * v >= |labels| * 1 by {
      MulMono(|labels|, 1, v);
    }
  }

  lemma {:induction false} MulMono(a: nat, b: nat, c: nat)
    requires b <= c
    ensures a * b <= a * c
  {
  }

  /** Distinct numbers below `n` are at most `n` many, and all of them when there are `n`. */
  lemma {:induction false} DistinctBelow(s: seq<nat>, n: nat)
    requires Distinct(s) && forall i :: 0 <= i < |s| ==> s[i] < n
    ensures |s| <= n
    ensures |s| == n ==> forall k: nat :: k < n ==> k in s
  {
    var below, got := Below(n), set k | k in s;
    SetSize(s);
    assert got <= below by {
      forall k | k in got ensures k in below {
        var i :| 0 <= i < |s| && s[i] == k;
      }
    }
    SubsetCard(got, below);
    if |s| == n {
      assert got == below;
      forall k: nat | k < n ensures k in s {
        assert k in below;
      }
    }
  }

  ghost function Below(n: nat): (r: set<nat>)
    ensures |r| == n && forall k: nat :: k in r <==> k < n
  {
    if n == 0 then {} else Below(n - 1) + {n - 1}
  }

  lemma {:induction false} SubsetCard<T>(a: set<T>, b: set<T>)
    requires a <= b
    ensures |a| <= |b| && (|a| == |b| ==> a == b)
  {
    var rest := b - a;
    assert b == a + rest;
    assert |b| == |a| + |rest|;
  }

  // ---------------------------------------------------------------- preservation

  lemma {:induction false} SendInv<K, P>(s: State<K, P>, s': State<K, P>, labels: seq<K>, order: seq<nat>, i: nat, p: P)
    requires Inv(s, labels, order) && Send(s, s', labels, i, p)
    ensures Inv(s', labels, order + [i])
  {
    assert i !in order;
    forall j | 0 <= j < |s'.verifiers| ensures VerifierOk(s', s'.verifiers[j], labels) {
      var v := s.verifiers[j];
      assert VerifierOk(s, v, labels);
      assert s'.log[..v.pos] == s.log[..v.pos];
    }
  }

  lemma {:induction false} StopInv<K, P>(s: State<K, P>, s': State<K, P>, labels: seq<K>, order: seq<nat>, i: nat)
    requires Inv(s, labels, order) && Stop(s, s', i)
    ensures Inv(s', labels, order)
  {
    forall j | 0 <= j < |s'.verifiers| ensures VerifierOk(s', s'.verifiers[j], labels) {
      assert VerifierOk(s, s.verifiers[j], labels);
    }
  }

  lemma {:induction false} RecvOk<K, P>(s: State<K, P>, labels: seq<K>, v: Verifier<K, P>)
    requires VerifierOk(s, v, labels) && v.status.Waiting? && v.pos < |s.log| && |s.log| <= Capacity(s, labels)
    ensures VerifierOk(s, AfterRecv(s, v, labels), labels)
  {
    LabelsSnoc(s.log, v.pos);
    hide FirstOfEach; hide Labels; hide Capacity;
    var m := s.log[v.pos];
    if m.owner !in v.received {
      assert FirstOfEach(s.log[..v.pos + 1]) == v.sets + [m];
    } else {
      assert FirstOfEach(s.log[..v.pos + 1]) == v.sets;
      assert Labels(s.log[..v.pos + 1]) == v.received;
    }
  }

  lemma {:induction false} MoveInv<K, P>(s: State<K, P>, s': State<K, P>, labels: seq<K>, order: seq<nat>, j: nat)
    requires Inv(s, labels, order) && Move(s, s', labels, j)
    ensures Inv(s', labels, order)
  {
    hide FirstOfEach; hide Labels; hide Capacity;
    LogFits(s, labels, order);
    var v, v' := s.verifiers[j], s'.verifiers[j];
    assert VerifierOk(s, v, labels);
    if v.status.Waiting? && |v.received| < |labels| && v.pos < |s.log| {
      RecvOk(s, labels, v);
    }
    assert VerifierOk(s, v', labels);
    forall i | 0 <= i < |s'.verifiers| ensures VerifierOk(s', s'.verifiers[i], labels) {
      assert VerifierOk(s, s.verifiers[i], labels);
    }
  }

  lemma {:induction false} RunInv<K, P(!new)>(run: seq<State<K, P>>, labels: seq<K>, i: nat) returns (order: seq<nat>)
    requires Run(run, labels) && i < |run|
    ensures Inv(run[i], labels, order)
  {
    hide Inv;
    if i == 0 {
      order := [];
      InitInv(run[0], labels);
    } else {
      order := RunInv(run, labels, i - 1);
      var s, s' := run[i - 1], run[i];
      assert Step(s, s', labels);
      if k: nat, p: P :| Send(s, s', labels, k, p) {
        SendInv(s, s', labels, order, k, p);
        order := order + [k];
      } else if k: nat :| Stop(s, s', k) {
        StopInv(s, s', labels, order, k);
      } else {
        var j: nat :| Move(s, s', labels, j);
        MoveInv(s, s', labels, order, j);
      }
    }
  }

  lemma {:induction false} InitInv<K, P>(s: State<K, P>, labels: seq<K>)
    requires Init(s, labels)
    ensures Inv(s, labels, [])
  {
  }

  // ---------------------------------------------------------------- results

  /** With distinct labels every message is kept. */
  lemma {:induction false} NothingDropped<K, P>(s: State<K, P>, labels: seq<K>, order: seq<nat>, n: nat)
    requires LogOk(s, labels, order) && Distinct(labels) && n <= |s.log|
    ensures FirstOfEach(s.log[..n]) == s.log[..n] && |Labels(s.log[..n])| == n
    decreases n
  {
    hide *;
    if n == 0 {
      NoMessages(s.log[..0]);
    } else {
      NothingDropped(s, labels, order, n - 1);
      FreshLabel(s, labels, order, n - 1);
      KeptNext(s.log, n - 1);
    }
  }

  lemma {:induction false} NoMessages<K, P>(msgs: seq<Msg<K, P>>)
    requires |msgs| == 0
    ensures FirstOfEach(msgs) == msgs && |Labels(msgs)| == 0
  {
  }

  lemma {:induction false} KeptNext<K, P>(msgs: seq<Msg<K, P>>, n: nat)
    requires n < |msgs| && msgs[n].owner !in Labels(msgs[..n])
    requires FirstOfEach(msgs[..n]) == msgs[..n] && |Labels(msgs[..n])| == n
    ensures FirstOfEach(msgs[..n + 1]) == msgs[..n + 1] && |Labels(msgs[..n + 1])| == n + 1
  {
    hide *;
    LabelsSnoc(msgs, n);
    assert msgs[..n + 1] == msgs[..n] + [msgs[n]];
  }

  lemma {:induction false} FreshLabel<K, P>(s: State<K, P>, labels: seq<K>, order: seq<nat>, n: nat)
    requires LogOk(s, labels, order) && Distinct(labels) && n < |s.log|
    ensures s.log[n].owner !in Labels(s.log[..n])
  {
    forall m | m in s.log[..n] ensures m.owner != s.log[n].owner {
      var k :| 0 <= k < n && s.log[k] == m;
      assert order[k] != order[n];
    }
  }

  /** The labels seen are labels of operators. */
  lemma {:induction false} SeenAreLabels<K, P>(s: State<K, P>, labels: seq<K>, order: seq<nat>, n: nat)
    requires LogOk(s, labels, order) && n <= |s.log|
    ensures Labels(s.log[..n]) <= LabelSet(labels)
  {
    forall k | k in Labels(s.log[..n]) ensures k in LabelSet(labels) {
      var m :| m in s.log[..n] && m.owner == k;
      var i :| 0 <= i < n && s.log[i] == m;
      assert labels[order[i]] == k;
    }
  }

  /** A verifier that has seen every operator's message can finish exactly when the operators'
      labels are distinct. */
  lemma {:induction false} FinishesIffDistinct<K, P(!new)>(run: seq<State<K, P>>, labels: seq<K>, i: nat, j: nat)
    requires Run(run, labels) && i < |run| && j < |run[i].verifiers| && run[i].verifiers[j].pos == |labels|
    ensures |run[i].verifiers[j].received| >= |labels| <==> Distinct(labels)
  {
    var order := RunInv(run, labels, i);
    var s := run[i];
    var v := s.verifiers[j];
    assert VerifierOk(s, v, labels);
    SetSize(labels);
    SeenAreLabels(s, labels, order, v.pos);
    SubsetCard(v.received, LabelSet(labels));
    if Distinct(labels) {
      NothingDropped(s, labels, order, v.pos);
    }
  }

  /** In every run, no verifier lags behind the channel. A verifier finishes only if the labels are
      distinct and every operator has sent its keys, and then it has set each operator's keys
      exactly once, under that operator's label. */
  lemma {:induction false} DistributionInRuns<K, P(!new)>(run: seq<State<K, P>>, labels: seq<K>, i: nat, j: nat)
    requires Run(run, labels) && i < |run| && j < |run[i].verifiers|
    ensures !run[i].verifiers[j].status.Lagged?
    ensures run[i].verifiers[j].status.Finished? ==>
      && Distinct(labels) && |run[i].ops| == |labels|
      && |run[i].verifiers[j].sets| == |labels|
      && (forall k :: 0 <= k < |labels| ==> run[i].ops[k].Sent?)
      && (forall k: nat :: k < |labels| ==> SetOnce(run[i], run[i].verifiers[j].sets, labels, k))
  {
    var order := RunInv(run, labels, i);
    hide Run; hide Labels; hide FirstOfEach; hide SetOnce; hide LogOk;
    var s, v := run[i], run[i].verifiers[j];
    assert VerifierOk(s, v, labels);
    if v.status.Finished? {
      AllArrived(s, labels, order, v);
      forall k: nat | k < |labels| ensures SetOnce(s, v.sets, labels, k) && s.ops[k].Sent? {
        SentOnce(s, labels, order, k);
      }
    }
  }

  /** A finished verifier has read one message from every operator and set them all. */
  lemma {:induction false} AllArrived<K, P>(s: State<K, P>, labels: seq<K>, order: seq<nat>, v: Verifier<K, P>)
    requires LogOk(s, labels, order) && |labels| * |s.verifiers| > 0 && VerifierOk(s, v, labels) && v.status.Finished?
    ensures Distinct(labels) && |s.log| == |labels| && v.sets == s.log
  {
    LogFits(s, labels, order);
    SetSize(labels);
    SeenAreLabels(s, labels, order, v.pos);
    SubsetCard(v.received, LabelSet(labels));
    NothingDropped(s, labels, order, v.pos);
    hide LogOk; hide Labels; hide FirstOfEach;
    assert s.log[..v.pos] == s.log;
  }

  lemma {:induction false} SentOnce<K, P>(s: State<K, P>, labels: seq<K>, order: seq<nat>, k: nat)
    requires LogOk(s, labels, order) && Distinct(labels) && |s.log| == |labels| && k < |labels|
    ensures |s.ops| == |labels| && s.ops[k].Sent? && SetOnce(s, s.log, labels, k)
  {
    DistinctBelow(order, |labels|);
    assert k in order;
    var n: nat :| n < |order| && order[n] == k;
    assert s.log[n] == Msg(labels[k], s.ops[k].payload);
    forall m: nat | m < |s.log| && s.log[m].owner == labels[k] ensures m == n {
      assert s.log[m].owner == labels[order[m]];
    }
  }

  /** Exactly one of the messages set carries operator `k`'s label, and it carries its keys. */
  ghost predicate SetOnce<K, P>(s: State<K, P>, sets: seq<Msg<K, P>>, labels: seq<K>, k: nat)
    requires k < |labels| == |s.ops|
  {
    && s.ops[k].Sent?
    && exists n: nat :: n < |sets| && sets[n] == Msg(labels[k], s.ops[k].payload)
                        && forall m: nat :: m < |sets| && sets[m].owner == labels[k] ==> m == n
  }

  /** If any operator fails, no verifier finishes. */
  lemma {:induction false} FailureStopsAll<K, P(!new)>(run: seq<State<K, P>>, labels: seq<K>, i: nat, j: nat, k: nat)
    requires Run(run, labels) && i < |run| && j < |run[i].verifiers| && k < |run[i].ops| && run[i].ops[k].Stopped?
    ensures !run[i].verifiers[j].status.Finished?
  {
    DistributionInRuns(run, labels, i, j);
  }

  // ---------------------------------------------------------------- progress

  ghost predicate AllSent<K, P>(s: State<K, P>) {
    forall i :: 0 <= i < |s.ops| ==> s.ops[i].Sent?
  }

  /** A run that ends in `s`. */
  ghost predicate RunTo<K, P(!new)>(run: seq<State<K, P>>, labels: seq<K>, s: State<K, P>) {
    run != [] && Run(run, labels) && s == run[|run| - 1]
  }

  lemma {:induction false} RunOn<K, P(!new)>(run: seq<State<K, P>>, labels: seq<K>, s: State<K, P>, s': State<K, P>)
    requires RunTo(run, labels, s) && Step(s, s', labels)
    ensures RunTo(run + [s'], labels, s')
  {
    hide Step; hide Init;
    var all := run + [s'];
    forall i | 0 < i < |all| ensures Step(all[i - 1], all[i], labels) {
      if i < |run| {
        assert Step(run[i - 1], run[i], labels);
      }
    }
  }

  /** If no operator has failed, the rest can send. */
  lemma {:induction false} SendRest<K, P(!new)>(run: seq<State<K, P>>, s: State<K, P>, labels: seq<K>, payloads: seq<P>, n: nat)
    returns (longer: seq<State<K, P>>, e: State<K, P>)
    requires RunTo(run, labels, s) && |payloads| == |labels| == |s.ops| && n <= |labels|
    requires forall i :: 0 <= i < |s.ops| ==> !s.ops[i].Stopped? && (i < n ==> s.ops[i].Sent?)
    ensures RunTo(longer, labels, e) && run <= longer && AllSent(e) && e.verifiers == s.verifiers
    decreases |labels| - n
  {
    hide Run; hide Step;
    if n == |labels| {
      longer, e := run, s;
    } else if s.ops[n].Sent? {
      longer, e := SendRest(run, s, labels, payloads, n + 1);
    } else {
      var s' := s.(ops := s.ops[n := Sent(payloads[n])], log := s.log + [Msg(labels[n], payloads[n])]);
      SendStep(s, s', labels, n, payloads[n]);
      RunOn(run, labels, s, s');
      longer, e := SendRest(run + [s'], s', labels, payloads, n + 1);
    }
  }

  lemma {:induction false} SendStep<K, P(!new)>(s: State<K, P>, s': State<K, P>, labels: seq<K>, i: nat, p: P)
    requires Send(s, s', labels, i, p)
    ensures Step(s, s', labels)
  {
  }

  lemma {:induction false} MoveStep<K, P(!new)>(s: State<K, P>, labels: seq<K>, j: nat, v: Verifier<K, P>) returns (s': State<K, P>)
    requires j < |s.verifiers| && VerifierStep(s, labels, s.verifiers[j], v)
    ensures Step(s, s', labels) && s' == s.(verifiers := s.verifiers[j := v])
  {
    s' := s.(verifiers := s.verifiers[j := v]);
    hide VerifierStep;
    assert Move(s, s', labels, j);
  }

  /** With every message in the channel, a verifier that has not heard everyone can go on. */
  lemma {:induction false} MoreToRead<K, P(!new)>(run: seq<State<K, P>>, s: State<K, P>, labels: seq<K>, j: nat)
    requires RunTo(run, labels, s) && Distinct(labels) && AllSent(s) && j < |s.verifiers|
    ensures var v := s.verifiers[j];
            && |s.log| == |labels| && v.pos <= |labels| && |v.received| == v.pos
            && |s.log| - v.pos <= Capacity(s, labels) && !v.status.Lagged?
  {
    hide FirstOfEach; hide Labels; hide Capacity; hide Run;
    var order := RunInv(run, labels, |run| - 1);
    assert VerifierOk(s, s.verifiers[j], labels);
    LogFits(s, labels, order);
    AllInLog(s, labels, order);
    NothingDropped(s, labels, order, s.verifiers[j].pos);
  }

  lemma {:induction false} AllInLog<K, P>(s: State<K, P>, labels: seq<K>, order: seq<nat>)
    requires LogOk(s, labels, order) && AllSent(s)
    ensures |s.log| >= |labels|
  {
    var below, got := Below(|labels|), set k | k in order;
    SetSize(order);
    assert below <= got by {
      forall k | k in below ensures k in got {
        assert s.ops[k].Sent?;
      }
    }
    SubsetCard(below, got);
  }

  /** Then that verifier can finish, and the others stay where they are. */
  lemma {:induction false} OneFinishes<K, P(!new)>(run: seq<State<K, P>>, s: State<K, P>, labels: seq<K>, j: nat)
    returns (longer: seq<State<K, P>>, e: State<K, P>)
    requires RunTo(run, labels, s) && Distinct(labels) && AllSent(s) && j < |s.verifiers| && !s.verifiers[j].status.Failed?
    ensures RunTo(longer, labels, e) && run <= longer && AllSent(e)
    ensures |e.verifiers| == |s.verifiers| && e.verifiers[j].status.Finished?
    ensures forall i :: 0 <= i < |s.verifiers| && i != j ==> e.verifiers[i] == s.verifiers[i]
    decreases |labels| - s.verifiers[j].pos, if s.verifiers[j].status.Setting? then 2 else if s.verifiers[j].status.Waiting? then 1 else 0
  {
    hide RunTo; hide Step; hide Capacity;
    var v := s.verifiers[j];
    MoreToRead(run, s, labels, j);
    if v.status.Finished? {
      longer, e := run, s;
    } else {
      var v' := if v.status.Setting? then v.(sets := v.sets + [v.status.msg], status := Waiting)
                else if |v.received| >= |labels| then v.(status := Finished)
                else AfterRecv(s, v, labels);
      var s' := MoveStep(s, labels, j, v');
      RunOn(run, labels, s, s');
      longer, e := OneFinishes(run + [s'], s', labels, j);
    }
  }

  /** With distinct labels, from every reachable state in which nothing has failed the
      distribution can be completed: every verifier finishes. */
  lemma {:induction false} AllFinish<K, P(!new)>(run: seq<State<K, P>>, s: State<K, P>, labels: seq<K>, payloads: seq<P>)
    returns (longer: seq<State<K, P>>, e: State<K, P>)
    requires RunTo(run, labels, s) && Distinct(labels) && |payloads| == |labels| == |s.ops|
    requires forall i :: 0 <= i < |s.ops| ==> !s.ops[i].Stopped?
    requires forall j :: 0 <= j < |s.verifiers| ==> !s.verifiers[j].status.Failed?
    ensures RunTo(longer, labels, e) && run <= longer && |e.verifiers| == |s.verifiers|
    ensures forall j :: 0 <= j < |e.verifiers| ==> e.verifiers[j].status.Finished?
  {
    hide RunTo;
    longer, e := SendRest(run, s, labels, payloads, 0);
    for j := 0 to |s.verifiers|
      invariant RunTo(longer, labels, e) && run <= longer && AllSent(e) && |e.verifiers| == |s.verifiers|
      invariant forall i :: 0 <= i < |e.verifiers| ==> !e.verifiers[i].status.Failed?
      invariant forall i :: 0 <= i < j ==> e.verifiers[i].status.Finished?
    {
      longer, e := OneFinishes(longer, e, labels, j);
    }
  }

  // ---------------------------------------------------------------- one verifier's receive loop

  /** Message `n` is the first with its label. */
  ghost predicate IsFirst<K, P>(msgs: seq<Msg<K, P>>, n: nat)
    ensures IsFirst(msgs, n) ==> n < |msgs|
  {
    n < |msgs| && forall k :: 0 <= k < n ==> msgs[k].owner != msgs[n].owner
  }

  lemma {:induction false} FirstIsKept<K, P>(msgs: seq<Msg<K, P>>, n: nat)
    requires IsFirst(msgs, n)
    ensures msgs[n] in FirstOfEach(msgs)
    decreases |msgs|
  {
    var l := |msgs| - 1;
    var front := msgs[..l];
    if n < l {
      FirstIsKept(front, n);
    } else {
      assert msgs[l].owner !in Labels(front);
    }
  }

  lemma {:induction false} KeptIsFirst<K, P>(msgs: seq<Msg<K, P>>, m: Msg<K, P>) returns (n: nat)
    requires m in FirstOfEach(msgs)
    ensures IsFirst(msgs, n) && msgs[n] == m
    decreases |msgs|
  {
    var l := |msgs| - 1;
    var front := msgs[..l];
    if m in FirstOfEach(front) {
      n := KeptIsFirst(front, m);
    } else {
      n := l;
      forall k | 0 <= k < l ensures msgs[k].owner != m.owner {
        assert front[k] in front;
      }
    }
  }

  /** What is set: for each label heard its first message, and nothing else. */
  lemma {:induction false} FirstOfEachMeans<K, P>(msgs: seq<Msg<K, P>>, m: Msg<K, P>)
    ensures m in FirstOfEach(msgs) <==> exists n: nat :: IsFirst(msgs, n) && msgs[n] == m
  {
    hide FirstOfEach; hide IsFirst;
    if m in FirstOfEach(msgs) {
      var n := KeptIsFirst(msgs, m);
    }
    if n: nat :| IsFirst(msgs, n) && msgs[n] == m {
      FirstIsKept(msgs, n);
    }
  }

  /** Each label once. */
  lemma {:induction false} FirstOfEachOnce<K, P>(msgs: seq<Msg<K, P>>, i: nat, j: nat)
    requires i < j < |FirstOfEach(msgs)|
    ensures FirstOfEach(msgs)[i].owner != FirstOfEach(msgs)[j].owner
    decreases |msgs|
  {
    var front := msgs[..|msgs| - 1];
    OwnersOf(front);
    if j < |FirstOfEach(front)| {
      FirstOfEachOnce(front, i, j);
    }
  }

  lemma {:induction false} OwnersOf<K, P>(msgs: seq<Msg<K, P>>)
    ensures forall i :: 0 <= i < |FirstOfEach(msgs)| ==> FirstOfEach(msgs)[i].owner in Labels(msgs)
    decreases |msgs|
  {
    if msgs != [] {
      var front := msgs[..|msgs| - 1];
      OwnersOf(front);
      LabelsSnoc(msgs, |msgs| - 1);
      assert msgs[..|msgs|] == msgs;
    }
  }

  /** The loop of one verifier's task, run to its end: `log` is all that arrives before the channel
      closes and `refused` numbers the calls the verifier rejects. It succeeds exactly when enough
      different operators were heard, and has then set the first message of each, in order. */
  method ReceiveLoop<K(==), P>(log: seq<Msg<K, P>>, expected: nat, refused: set<nat>)
    returns (ok: bool, sets: seq<Msg<K, P>>, read: nat)
    ensures read <= |log| && (ok ==> sets == FirstOfEach(log[..read]) && |Labels(log[..read])| == expected)
    ensures refused == {} ==> (ok <==> |Labels(log)| >= expected)
  {
    var received: set<K> := {};
    sets, read := [], 0;
    assert log[..0] == [];
    while |received| < expected
      invariant read <= |log| && received == Labels(log[..read]) && |received| <= expected
      invariant sets == FirstOfEach(log[..read])
      decreases |log| - read
    {
      if read == |log| {
        assert log[..read] == log;
        return false, sets, read;
      }
      LabelsSnoc(log, read);
      var msg := log[read];
      read := read + 1;
      if msg.owner in received {
        assert received + {msg.owner} == received;
        continue;
      }
      received := received + {msg.owner};
      if |sets| in refused {
        return false, sets, read;
      }
      sets := sets + [msg];
    }
    LabelsGrow(log, read);
    ok := true;
  }

  lemma {:induction false} LabelsGrow<K, P>(msgs: seq<Msg<K, P>>, n: nat)
    requires n <= |msgs|
    ensures |Labels(msgs[..n])| <= |Labels(msgs)|
  {
    assert forall m :: m in msgs[..n] ==> m in msgs;
    SubsetCard(Labels(msgs[..n]), Labels(msgs));
  }
}
