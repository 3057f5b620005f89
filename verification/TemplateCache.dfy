/** The BitVM cache: generating it from the dummy scripts and patching it for a deposit. */
module TemplateCache {
  import opened Common
  import opened Template
  import opened TemplatePatch

  const MAX_SCRIPT_REPLACEMENT_OPERATIONS := 100_000

  /** Where each slot's key digit goes: script number and position. */
  type Places = map<Slot, seq<(nat, nat)>>

  function At(places: Places, slot: Slot): seq<(nat, nat)> {
    if slot in places then places[slot] else []
  }

  // ---------------------------------------------------------------- recorded places, as a value

  /** The recorded windows of one script that belong to `slot`. */
  function PlacesIn(ps: seq<Place>, script: nat, slot: Slot): seq<(nat, nat)> {
    if ps == [] then []
    else
      var last := ps[|ps| - 1];
      PlacesIn(ps[..|ps| - 1], script, slot) + (if last.slot == slot then [(script, last.pos)] else [])
  }

  function PlacesFor(scans: seq<seq<Place>>, slot: Slot): seq<(nat, nat)> {
    if scans == [] then []
    else
      var n := |scans| - 1;
      PlacesFor(scans[..n], slot) + PlacesIn(scans[n], n, slot)
  }

  lemma {:induction false} PlacesInSnoc(ps: seq<Place>, pl: Place, script: nat, slot: Slot)
    ensures PlacesIn(ps + [pl], script, slot) == PlacesIn(ps, script, slot) + (if pl.slot == slot then [(script, pl.pos)] else [])
  {
    assert (ps + [pl])[..|ps|] == ps;
  }

  lemma {:induction false} PlacesForSnoc(scans: seq<seq<Place>>, ps: seq<Place>, slot: Slot)
    ensures PlacesFor(scans + [ps], slot) == PlacesFor(scans, slot) + PlacesIn(ps, |scans|, slot)
  {
    assert (scans + [ps])[..|scans|] == scans;
  }

  lemma {:induction false} PlacesInMember(ps: seq<Place>, script: nat, slot: Slot, x: (nat, nat))
    ensures x in PlacesIn(ps, script, slot) <==> x.0 == script && Place(slot, x.1) in ps
    decreases |ps|
  {
    if ps != [] {
      PlacesInMember(ps[..|ps| - 1], script, slot, x);
      assert ps == ps[..|ps| - 1] + [ps[|ps| - 1]];
    }
  }

  lemma {:induction false} PlacesForMember(scans: seq<seq<Place>>, slot: Slot, x: (nat, nat))
    ensures x in PlacesFor(scans, slot) <==> x.0 < |scans| && Place(slot, x.1) in scans[x.0]
    decreases |scans|
  {
    if scans != [] {
      var n := |scans| - 1;
      PlacesForMember(scans[..n], slot, x);
      PlacesInMember(scans[n], n, slot, x);
    }
  }

  // ---------------------------------------------------------------- generation

  /** The code's check of one partial script. */
  method HasNoWindow(script: seq<Byte>) returns (ok: bool)
    ensures ok <==> NoWindow(script)
  {
    var pos := 0;
    while pos + 20 <= |script|
      invariant forall p: nat :: p < pos ==> !Match(script, p)
    {
      if script[pos + 4..pos + 20] == FF16 {
        assert Match(script, pos);
        return false;
      }
      pos := pos + 1;
    }
    ok := true;
  }

  ghost function Prepend(done: seq<Place>, r: Option<seq<Place>>): Option<seq<Place>> {
    if r.None? then None else Some(done + r.value)
  }

  lemma {:induction false} PrependCons(done: seq<Place>, pl: Place, r: Option<seq<Place>>)
    ensures Prepend(done, Cons(pl, r)) == Prepend(done + [pl], r)
  {
    if r.Some? {
      assert done + ([pl] + r.value) == (done + [pl]) + r.value;
    }
  }

  lemma {:induction false} PrependNil(done: seq<Place>, r: Option<seq<Place>>)
    ensures Prepend([], r) == r && Prepend(done, Some([])) == Some(done)
  {
    assert done + [] == done;
    if r.Some? {
      assert [] + r.value == r.value;
    }
  }

  /** `places` holds `before` and the windows `done` of script `idx`. */
  ghost predicate Recorded(places: Places, before: Places, done: seq<Place>, idx: nat) {
    forall slot :: At(places, slot) == At(before, slot) + PlacesIn(done, idx, slot)
  }

  lemma {:induction false} Record(places: Places, before: Places, done: seq<Place>, idx: nat, pl: Place)
    requires Recorded(places, before, done, idx)
    ensures Recorded(places[pl.slot := At(places, pl.slot) + [(idx, pl.pos)]], before, done + [pl], idx)
  {
    hide PlacesIn;
    var after := places[pl.slot := At(places, pl.slot) + [(idx, pl.pos)]];
    forall slot ensures At(after, slot) == At(before, slot) + PlacesIn(done + [pl], idx, slot) {
      PlacesInSnoc(done, pl, idx, slot);
      assert At(places, slot) == At(before, slot) + PlacesIn(done, idx, slot);
    }
  }

  /** The scan of one script: adds its windows to `places`; none where the code panics. */
  method ScanScript(d: Dims, script: seq<Byte>, idx: nat, before: Places) returns (r: Option<Places>)
    ensures r.Some? <==> Scan(d, script, 0).Some?
    ensures r.Some? ==> Recorded(r.value, before, Scan(d, script, 0).value, idx)
  {
    var places: Places := before;
    var pos: nat := 0;
    ghost var done: seq<Place> := [];
    PrependNil([], Scan(d, script, 0));
    while pos + 20 <= |script|
      invariant Scan(d, script, 0) == Prepend(done, Scan(d, script, pos))
      invariant Recorded(places, before, done, idx)
    {
      hide Recorded; hide Cons; hide Prepend;
      if script[pos + 4..pos + 20] == FF16 {
        var slot := Decode(script, pos);
        if !ValidSlot(d, slot) {
          return None;
        }
        Record(places, before, done, idx, Place(slot, pos));
        PrependCons(done, Place(slot, pos), Scan(d, script, pos + 20));
        places := places[slot := At(places, slot) + [(idx, pos)]];
        done := done + [Place(slot, pos)];
        pos := pos + 20;
      } else {
        pos := pos + 1;
      }
    }
    PrependNil(done, None);
    r := Some(places);
  }

  /** `generate_fresh_data`: none where the code panics, because a partial script has a window or
      a window names no slot. */
  method GenerateFreshData(d: Dims, partial: seq<seq<Byte>>, scripts: seq<seq<Byte>>) returns (r: Option<Places>)
    ensures r.Some? <==> (forall i :: 0 <= i < |partial| ==> NoWindow(partial[i]))
                         && (forall i :: 0 <= i < |scripts| ==> Scan(d, scripts[i], 0).Some?)
    ensures r.Some? ==> forall slot :: At(r.value, slot) == PlacesFor(Scans(d, scripts), slot)
  {
    hide Scan; hide NoWindow;
    for i := 0 to |partial|
      invariant forall j :: 0 <= j < i ==> NoWindow(partial[j])
    {
      var ok := HasNoWindow(partial[i]);
      if !ok {
        return None;
      }
    }
    var places: Places := map[];
    for i := 0 to |scripts|
      invariant forall j :: 0 <= j < i ==> Scan(d, scripts[j], 0).Some?
      invariant forall slot :: At(places, slot) == PlacesFor(Scans(d, scripts[..i]), slot)
    {
      var next := ScanScript(d, scripts[i], i, places);
      if next.None? {
        return None;
      }
      ScansSnoc(d, scripts, i);
      forall slot ensures At(next.value, slot) == PlacesFor(Scans(d, scripts[..i + 1]), slot) {
        PlacesForSnoc(Scans(d, scripts[..i]), Scan(d, scripts[i], 0).value, slot);
        assert At(places, slot) == PlacesFor(Scans(d, scripts[..i]), slot);
      }
      places := next.value;
    }
    assert scripts[..|scripts|] == scripts;
    r := Some(places);
  }

  /** The windows of every script; none for a script whose scan panics. */
  ghost function Scans(d: Dims, scripts: seq<seq<Byte>>): (scans: seq<seq<Place>>)
    ensures |scans| == |scripts|
    ensures forall i :: 0 <= i < |scripts| && Scan(d, scripts[i], 0).Some? ==> scans[i] == Scan(d, scripts[i], 0).value
  {
    if scripts == [] then []
    else
      var n := |scripts| - 1;
      var last := Scan(d, scripts[n], 0);
      Scans(d, scripts[..n]) + [if last.Some? then last.value else []]
  }

  lemma {:induction false} ScansSnoc(d: Dims, scripts: seq<seq<Byte>>, i: nat)
    requires i < |scripts| && Scan(d, scripts[i], 0).Some?
    ensures Scans(d, scripts[..i + 1]) == Scans(d, scripts[..i]) + [Scan(d, scripts[i], 0).value]
  {
    assert scripts[..i + 1][..i] == scripts[..i];
  }

  // ---------------------------------------------------------------- order of the replacement passes

  function DigitSlots(family: nat, index: nat, n: nat): (s: seq<Slot>)
    ensures |s| == n && forall i :: 0 <= i < n ==> s[i] == Slot(family, index, i)
  {
    seq(n, i requires 0 <= i < n => Slot(family, index, i))
  }

  function KeySlots(family: nat, n: nat): seq<Slot> {
    if n == 0 then [] else KeySlots(family, n - 1) + DigitSlots(family, n - 1, DigitCount(family))
  }

  /** The six passes over the key arrays, one family after the other. */
  function ReplacementOrder(d: Dims, families: nat): seq<Slot> {
    if families == 0 then []
    else ReplacementOrder(d, families - 1) + KeySlots(families - 1, KeyCount(d, families - 1))
  }

  lemma {:induction false} KeySlotsMember(family: nat, n: nat, s: Slot)
    ensures s in KeySlots(family, n) <==> s.family == family && s.index < n && s.digit < DigitCount(family)
    ensures multiset(KeySlots(family, n))[s] <= 1
    decreases n
  {
    if n > 0 {
      KeySlotsMember(family, n - 1, s);
      DigitSlotsOnce(family, n - 1, DigitCount(family), s);
      if s.family == family && s.index == n - 1 && s.digit < DigitCount(family) {
        assert DigitSlots(family, n - 1, DigitCount(family))[s.digit] == s;
      }
    }
  }

  lemma {:induction false} DigitSlotsOnce(family: nat, index: nat, n: nat, s: Slot)
    ensures multiset(DigitSlots(family, index, n))[s] <= 1
    ensures s in DigitSlots(family, index, n) ==> s.family == family && s.index == index && s.digit < n
    decreases n
  {
    if n > 0 {
      DigitSlotsOnce(family, index, n - 1, s);
      assert DigitSlots(family, index, n) == DigitSlots(family, index, n - 1) + [Slot(family, index, n - 1)];
    }
  }

  /** The passes visit every slot exactly once. */
  lemma {:induction false} OrderVisitsOnce(d: Dims, families: nat, s: Slot)
    requires families <= 6
    ensures multiset(ReplacementOrder(d, families))[s] == if s.family < families && ValidSlot(d, s) then 1 else 0
    decreases families
  {
    if families > 0 {
      OrderVisitsOnce(d, families - 1, s);
      KeySlotsMember(families - 1, KeyCount(d, families - 1), s);
    }
  }

  // ---------------------------------------------------------------- counting

  ghost function CountAll(scans: seq<seq<Place>>): nat {
    if scans == [] then 0 else CountAll(scans[..|scans| - 1]) + |scans[|scans| - 1]|
  }

  ghost function CountFor(slots: seq<Slot>, scans: seq<seq<Place>>): nat {
    if slots == [] then 0 else CountFor(slots[..|slots| - 1], scans) + |PlacesFor(scans, slots[|slots| - 1])|
  }

  ghost function CountIn(slots: seq<Slot>, ps: seq<Place>, script: nat): nat {
    if slots == [] then 0 else CountIn(slots[..|slots| - 1], ps, script) + |PlacesIn(ps, script, slots[|slots| - 1])|
  }

  lemma {:induction false} CountForSnoc(slots: seq<Slot>, scans: seq<seq<Place>>)
    requires scans != []
    ensures var n := |scans| - 1; CountFor(slots, scans) == CountFor(slots, scans[..n]) + CountIn(slots, scans[n], n)
    decreases |slots|
  {
    if slots != [] {
      CountForSnoc(slots[..|slots| - 1], scans);
    }
  }

  /** One more window adds one to its own slot only. */
  lemma {:induction false} CountInSnoc(slots: seq<Slot>, ps: seq<Place>, script: nat)
    requires ps != []
    ensures CountIn(slots, ps, script) ==
            CountIn(slots, ps[..|ps| - 1], script) + multiset(slots)[ps[|ps| - 1].slot]
    decreases |slots|
  {
    if slots != [] {
      var front, last := slots[..|slots| - 1], slots[|slots| - 1];
      CountInSnoc(front, ps, script);
      assert slots == front + [last];
      assert multiset(slots) == multiset(front) + multiset{last};
    }
  }

  lemma {:induction false} CountInEmpty(slots: seq<Slot>, script: nat)
    ensures CountIn(slots, [], script) == 0
    decreases |slots|
  {
    if slots != [] {
      CountInEmpty(slots[..|slots| - 1], script);
    }
  }

  lemma {:induction false} CountForEmpty(slots: seq<Slot>)
    ensures CountFor(slots, []) == 0
    decreases |slots|
  {
    if slots != [] {
      CountForEmpty(slots[..|slots| - 1]);
    }
  }

  lemma {:induction false} CountInAll(slots: seq<Slot>, ps: seq<Place>, script: nat)
    requires forall i :: 0 <= i < |ps| ==> multiset(slots)[ps[i].slot] == 1
    ensures CountIn(slots, ps, script) == |ps|
    decreases |ps|
  {
    if ps == [] {
      CountInEmpty(slots, script);
    } else {
      CountInSnoc(slots, ps, script);
      CountInAll(slots, ps[..|ps| - 1], script);
    }
  }

  /** Counted slot by slot or script by script, the windows are the same number. */
  lemma {:induction false} CountsAgree(slots: seq<Slot>, scans: seq<seq<Place>>)
    requires forall s, i :: 0 <= s < |scans| && 0 <= i < |scans[s]| ==> multiset(slots)[scans[s][i].slot] == 1
    ensures CountFor(slots, scans) == CountAll(scans)
    decreases |scans|
  {
    if scans == [] {
      CountForEmpty(slots);
    } else {
      var n := |scans| - 1;
      CountForSnoc(slots, scans);
      CountsAgree(slots, scans[..n]);
      CountInAll(slots, scans[n], n);
    }
  }

  /** Every window carries a valid slot, as every scan result does. */
  ghost predicate ScansOk(d: Dims, scripts: seq<seq<Byte>>, scans: seq<seq<Place>>) {
    |scans| == |scripts| && forall s :: 0 <= s < |scans| ==> Spaced(d, scripts[s], scans[s], 0)
  }

  /** The recorded places of these slots. */
  ghost function CountAt(slots: seq<Slot>, places: Places): nat {
    if slots == [] then 0 else CountAt(slots[..|slots| - 1], places) + |At(places, slots[|slots| - 1])|
  }

  /** `places` is what scanning `scripts` records. */
  ghost predicate FromScan(d: Dims, scripts: seq<seq<Byte>>, scans: seq<seq<Place>>, places: Places) {
    ScansOk(d, scripts, scans) && forall slot :: At(places, slot) == PlacesFor(scans, slot)
  }

  /** On a scanned cache the count is the number of windows. */
  lemma {:induction false} CountIsWindows(d: Dims, scripts: seq<seq<Byte>>, scans: seq<seq<Place>>, places: Places)
    requires FromScan(d, scripts, scans, places)
    ensures CountAt(ReplacementOrder(d, 6), places) == CountAll(scans)
  {
    hide ReplacementOrder; hide PlacesFor; hide CountAll; hide Spaced; hide CountAt; hide CountFor;
    SameCount(ReplacementOrder(d, 6), scans, places);
    EachOnce(d, scripts, scans);
    CountsAgree(ReplacementOrder(d, 6), scans);
  }

  lemma {:induction false} SameCount(slots: seq<Slot>, scans: seq<seq<Place>>, places: Places)
    requires forall slot :: At(places, slot) == PlacesFor(scans, slot)
    ensures CountAt(slots, places) == CountFor(slots, scans)
    decreases |slots|
  {
    hide At; hide PlacesFor;
    if slots != [] {
      SameCount(slots[..|slots| - 1], scans, places);
    }
  }

  /** `calculate_replacement_operations`: the number of places recorded; on a scanned cache the
      number of windows that will be written. */
  method CalculateReplacementOperations(d: Dims, places: Places, ghost scripts: seq<seq<Byte>>, ghost scans: seq<seq<Place>>)
    returns (total: nat)
    ensures total == CountAt(ReplacementOrder(d, 6), places)
    ensures FromScan(d, scripts, scans, places) ==> total == CountAll(scans)
  {
    hide ReplacementOrder; hide CountAll; hide FromScan; hide At;
    var order := ReplacementOrder(d, 6);
    total := 0;
    for i := 0 to |order|
      invariant total == CountAt(order[..i], places)
    {
      assert order[..i + 1][..i] == order[..i];
      total := total + |At(places, order[i])|;
    }
    assert order[..|order|] == order;
    if FromScan(d, scripts, scans, places) {
      CountIsWindows(d, scripts, scans, places);
    }
  }

  lemma {:induction false} EachOnce(d: Dims, scripts: seq<seq<Byte>>, scans: seq<seq<Place>>)
    requires ScansOk(d, scripts, scans)
    ensures forall s, i :: 0 <= s < |scans| && 0 <= i < |scans[s]| ==> multiset(ReplacementOrder(d, 6))[scans[s][i].slot] == 1
  {
    forall s, i | 0 <= s < |scans| && 0 <= i < |scans[s]|
      ensures multiset(ReplacementOrder(d, 6))[scans[s][i].slot] == 1
    {
      assert Spaced(d, scripts[s], scans[s], 0);
      assert ValidSlot(d, scans[s][i].slot);
      hide *;
      OrderVisitsOnce(d, 6, scans[s][i].slot);
    }
  }
}
