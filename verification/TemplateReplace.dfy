/** `replace_disprove_scripts`: the cached scripts with a deposit's keys written in. */
module TemplateReplace {
  import opened Common
  import opened Template
  import opened TemplatePatch
  import opened TemplateCache

  /** Window `pl` of `s` holds the key digit of its slot. */
  ghost predicate Holds(s: seq<Byte>, pl: Place, keys: Keys)
    requires KeysOk(keys)
  {
    pl.pos + 20 <= |s| && forall p: nat :: Covers(pl, p) ==> s[p] == KeyByte(keys, pl.slot, p - pl.pos)
  }

  ghost predicate Untouched(ps: seq<Place>, written: set<Place>, p: nat) {
    forall i :: 0 <= i < |ps| && Covers(ps[i], p) ==> ps[i] !in written
  }

  /** `now` is `s` with exactly the windows in `written` filled. */
  ghost predicate Filled(s: seq<Byte>, ps: seq<Place>, keys: Keys, now: seq<Byte>, written: set<Place>)
    requires KeysOk(keys)
  {
    && |now| == |s|
    && (forall i :: 0 <= i < |ps| && ps[i] in written ==> Holds(now, ps[i], keys))
    && (forall p: nat :: p < |s| && Untouched(ps, written, p) ==> now[p] == s[p])
  }

  function Write(s: seq<Byte>, pos: nat, key: seq<Byte>): (r: seq<Byte>)
    requires |key| == 20 && pos + 20 <= |s|
    ensures |r| == |s|
    ensures forall p :: 0 <= p < |s| ==> r[p] == if pos <= p < pos + 20 then key[p - pos] else s[p]
  {
    s[..pos] + key + s[pos + 20..]
  }

  /** Writes to windows that do not overlap commute. */
  lemma {:induction false} WritesCommute(s: seq<Byte>, p: nat, a: seq<Byte>, q: nat, b: seq<Byte>)
    requires |a| == |b| == 20 && p + 20 <= |s| && q + 20 <= |s| && (p + 20 <= q || q + 20 <= p)
    ensures Write(Write(s, p, a), q, b) == Write(Write(s, q, b), p, a)
  {
    hide Write;
    var x, y := Write(Write(s, p, a), q, b), Write(Write(s, q, b), p, a);
    assert |x| == |y| && forall i :: 0 <= i < |x| ==> x[i] == y[i];
  }

  /** Filling one more window leaves the other windows and all other bytes alone. */
  lemma {:induction false} FillOne(d: Dims, s: seq<Byte>, ps: seq<Place>, keys: Keys, now: seq<Byte>, written: set<Place>, k: nat)
    requires KeysOk(keys) && Spaced(d, s, ps, 0) && Filled(s, ps, keys, now, written) && k < |ps|
    ensures |keys(ps[k].slot)| == 20
    ensures Filled(s, ps, keys, Write(now, ps[k].pos, keys(ps[k].slot)), written + {ps[k]})
  {
    assert |keys(ps[k].slot)| == 20;
    var next := Write(now, ps[k].pos, keys(ps[k].slot));
    forall i | 0 <= i < |ps| && ps[i] in written + {ps[k]} ensures Holds(next, ps[i], keys) {
      if ps[i] != ps[k] {
        assert Holds(now, ps[i], keys);
        forall p: nat | Covers(ps[i], p) ensures next[p] == now[p] {
          assert ps[i].pos + 20 <= ps[k].pos || ps[k].pos + 20 <= ps[i].pos;
        }
      }
    }
    forall p: nat | p < |s| && Untouched(ps, written + {ps[k]}, p) ensures next[p] == s[p] {
      assert !Covers(ps[k], p);
      assert Untouched(ps, written, p);
    }
  }

  /** With every window filled, the script is patched. */
  lemma {:induction false} AllFilled(d: Dims, s: seq<Byte>, ps: seq<Place>, keys: Keys, now: seq<Byte>, written: set<Place>)
    requires KeysOk(keys) && Spaced(d, s, ps, 0) && Filled(s, ps, keys, now, written)
    requires forall i :: 0 <= i < |ps| ==> ps[i] in written
    ensures now == Patch(s, ps, keys)
  {
    forall p: nat | p < |s| ensures now[p] == ByteAt(s, ps, keys, p) {
      if i :| 0 <= i < |ps| && Covers(ps[i], p) {
        ByteInWindow(d, s, ps, keys, i, p, 0);
        assert Holds(now, ps[i], keys);
      } else {
        ByteOutside(s, ps, keys, p);
        assert Untouched(ps, written, p);
      }
    }
  }

  // ---------------------------------------------------------------- all scripts

  /** Of each script's windows, exactly the `written` ones are filled. */
  ghost predicate AllPartly(scripts: seq<seq<Byte>>, scans: seq<seq<Place>>, keys: Keys, now: seq<seq<Byte>>, written: seq<set<Place>>)
    requires KeysOk(keys)
  {
    && |now| == |scripts| == |scans| == |written|
    && forall s :: 0 <= s < |scripts| ==> Filled(scripts[s], scans[s], keys, now[s], written[s])
  }

  ghost function Of(ps: seq<Place>, slot: Slot): set<Place> {
    set pl | pl in ps && pl.slot == slot
  }

  /** The written windows and all windows of `slot`. */
  ghost function Grown(scans: seq<seq<Place>>, written: seq<set<Place>>, slot: Slot): (r: seq<set<Place>>)
    requires |scans| == |written|
    ensures |r| == |written|
    ensures forall s :: 0 <= s < |r| ==> r[s] == written[s] + Of(scans[s], slot)
  {
    seq(|written|, s requires 0 <= s < |written| => written[s] + Of(scans[s], slot))
  }

  // ---------------------------------------------------------------- what the loops write

  predicate InRange(scripts: seq<seq<Byte>>, place: (nat, nat)) {
    place.0 < |scripts| && place.1 + 20 <= |scripts[place.0]|
  }

  /** `key` written at `places`, in order; none where the code panics. */
  ghost function WriteAt(scripts: seq<seq<Byte>>, places: seq<(nat, nat)>, key: seq<Byte>): Option<seq<seq<Byte>>>
    requires |key| == 20
  {
    if places == [] then Some(scripts)
    else
      var n := |places| - 1;
      var r := WriteAt(scripts, places[..n], key);
      if r.None? || !InRange(r.value, places[n]) then None
      else
        var (s, pos) := places[n];
        Some(r.value[s := Write(r.value[s], pos, key)])
  }

  /** The digits of `slots` written one slot after the other. */
  ghost function WriteSlots(scripts: seq<seq<Byte>>, slots: seq<Slot>, places: Places, keys: Keys): Option<seq<seq<Byte>>>
    requires KeysOk(keys)
  {
    if slots == [] then Some(scripts)
    else
      var n := |slots| - 1;
      var r := WriteSlots(scripts, slots[..n], places, keys);
      if r.None? then None else WriteAt(r.value, At(places, slots[n]), keys(slots[n]))
  }

  ghost predicate SameSizes(a: seq<seq<Byte>>, b: seq<seq<Byte>>) {
    |a| == |b| && forall s :: 0 <= s < |a| ==> |a[s]| == |b[s]|
  }

  /** Writing panics exactly if a place is out of range, and never changes a length. */
  lemma {:induction false} WriteAtRange(scripts: seq<seq<Byte>>, places: seq<(nat, nat)>, key: seq<Byte>)
    requires |key| == 20
    ensures WriteAt(scripts, places, key).Some? <==> forall i :: 0 <= i < |places| ==> InRange(scripts, places[i])
    ensures WriteAt(scripts, places, key).Some? ==> SameSizes(scripts, WriteAt(scripts, places, key).value)
    decreases |places|
  {
    if places != [] {
      WriteAtRange(scripts, places[..|places| - 1], key);
    }
  }

  lemma {:induction false} WriteSlotsRange(scripts: seq<seq<Byte>>, slots: seq<Slot>, places: Places, keys: Keys)
    requires KeysOk(keys)
    ensures WriteSlots(scripts, slots, places, keys).Some? <==> InRangeFor(scripts, slots, places)
    ensures WriteSlots(scripts, slots, places, keys).Some? ==> SameSizes(scripts, WriteSlots(scripts, slots, places, keys).value)
    decreases |slots|
  {
    hide WriteAt; hide At;
    if slots != [] {
      var n := |slots| - 1;
      WriteSlotsRange(scripts, slots[..n], places, keys);
      assert slots == slots[..n] + [slots[n]];
      var r := WriteSlots(scripts, slots[..n], places, keys);
      if r.Some? {
        WriteAtRange(r.value, At(places, slots[n]), keys(slots[n]));
        assert forall i :: 0 <= i < |At(places, slots[n])| ==>
          (InRange(r.value, At(places, slots[n])[i]) <==> InRange(scripts, At(places, slots[n])[i]));
      }
    }
  }

  ghost predicate InRangeFor(scripts: seq<seq<Byte>>, slots: seq<Slot>, places: Places) {
    forall k :: 0 <= k < |slots| ==> forall i :: 0 <= i < |At(places, slots[k])| ==> InRange(scripts, At(places, slots[k])[i])
  }

  /** Writes one slot's digit at all its places. */
  method ReplaceSlot(scripts: seq<seq<Byte>>, places: seq<(nat, nat)>, key: seq<Byte>) returns (r: Option<seq<seq<Byte>>>)
    requires |key| == 20
    ensures r == WriteAt(scripts, places, key)
  {
    WriteAtRange(scripts, places, key);
    var result := scripts;
    for i := 0 to |places|
      invariant WriteAt(scripts, places[..i], key) == Some(result) && SameSizes(scripts, result)
    {
      assert places[..i + 1][..i] == places[..i];
      var (s, pos) := places[i];
      if !InRange(result, places[i]) {
        assert !InRange(scripts, places[i]);
        return None;
      }
      result := result[s := Write(result[s], pos, key)];
    }
    assert places[..|places|] == places;
    r := Some(result);
  }

  /** On scanned places, a slot's pass fills exactly its windows on top of those filled before. */
  lemma {:induction false} SlotFilled(d: Dims, scripts: seq<seq<Byte>>, scans: seq<seq<Place>>, keys: Keys,
                                      result: seq<seq<Byte>>, written: seq<set<Place>>, slot: Slot)
    requires KeysOk(keys) && ScansOk(d, scripts, scans) && AllPartly(scripts, scans, keys, result, written)
    ensures |keys(slot)| == 20
    ensures var r := WriteAt(result, PlacesFor(scans, slot), keys(slot));
            r.Some? && AllPartly(scripts, scans, keys, r.value, Grown(scans, written, slot))
  {
    assert |keys(slot)| == 20;
    var places := PlacesFor(scans, slot);
    var now := PrefixFilled(d, scripts, scans, keys, result, written, slot, |places|);
    assert places[..|places|] == places;
    AllReached(scans, written, slot, now);
  }

  ghost predicate Reached(now: seq<set<Place>>, slot: Slot, place: (nat, nat)) {
    place.0 < |now| && Place(slot, place.1) in now[place.0]
  }

  /** `now` adds to `written` only windows of `slot`, among them the first `n` places. */
  ghost predicate Between(scans: seq<seq<Place>>, written: seq<set<Place>>, now: seq<set<Place>>, slot: Slot, n: nat) {
    && |scans| == |written| == |now| && n <= |PlacesFor(scans, slot)|
    && (forall s :: 0 <= s < |now| ==> written[s] <= now[s] <= written[s] + Of(scans[s], slot))
    && (forall j :: 0 <= j < n ==> Reached(now, slot, PlacesFor(scans, slot)[j]))
  }

  lemma {:induction false} PrefixFilled(d: Dims, scripts: seq<seq<Byte>>, scans: seq<seq<Place>>, keys: Keys,
                                        result: seq<seq<Byte>>, written: seq<set<Place>>, slot: Slot, n: nat)
    returns (now: seq<set<Place>>)
    requires KeysOk(keys) && ScansOk(d, scripts, scans) && AllPartly(scripts, scans, keys, result, written)
    requires |keys(slot)| == 20 && n <= |PlacesFor(scans, slot)|
    ensures Between(scans, written, now, slot, n)
    ensures var r := WriteAt(result, PlacesFor(scans, slot)[..n], keys(slot));
            r.Some? && AllPartly(scripts, scans, keys, r.value, now)
    decreases n
  {
    hide PlacesFor; hide Filled; hide KeysOk; hide Spaced;
    if n == 0 {
      now := written;
    } else {
      var places := PlacesFor(scans, slot);
      var before := PrefixFilled(d, scripts, scans, keys, result, written, slot, n - 1);
      var r := WriteAt(result, places[..n - 1], keys(slot)).value;
      assert places[..n][..n - 1] == places[..n - 1];
      hide AllPartly; hide ScansOk;
      now := OneMore(d, scripts, scans, keys, r, before, slot, places[n - 1]);
      var (s, pos) := places[n - 1];
      assert WriteAt(result, places[..n], keys(slot)) == Some(r[s := Write(r[s], pos, keys(slot))]);
      forall j | 0 <= j < n ensures Reached(now, slot, places[j]) {
        assert j < n - 1 ==> Reached(before, slot, places[j]);
      }
      forall i | 0 <= i < |now| ensures written[i] <= now[i] <= written[i] + Of(scans[i], slot) {
      }
    }
  }

  lemma {:induction false} AllReached(scans: seq<seq<Place>>, written: seq<set<Place>>, slot: Slot, now: seq<set<Place>>)
    requires Between(scans, written, now, slot, |PlacesFor(scans, slot)|)
    ensures now == Grown(scans, written, slot)
  {
    hide PlacesFor; hide Grown;
    var places := PlacesFor(scans, slot);
    forall s | 0 <= s < |scans| ensures now[s] == written[s] + Of(scans[s], slot) {
      forall pl | pl in Of(scans[s], slot) ensures pl in now[s] {
        PlacesForMember(scans, slot, (s, pl.pos));
        assert pl == Place(slot, pl.pos);
        var j :| 0 <= j < |places| && places[j] == (s, pl.pos);
      }
    }
  }

  lemma {:induction false} OneMore(d: Dims, scripts: seq<seq<Byte>>, scans: seq<seq<Place>>, keys: Keys,
                                   result: seq<seq<Byte>>, written: seq<set<Place>>, slot: Slot, place: (nat, nat))
    returns (now: seq<set<Place>>)
    requires KeysOk(keys) && ScansOk(d, scripts, scans) && AllPartly(scripts, scans, keys, result, written)
    requires place in PlacesFor(scans, slot)
    ensures |keys(slot)| == 20 && InRange(result, place) && |scans| == |written| == |now|
    ensures AllPartly(scripts, scans, keys, result[place.0 := Write(result[place.0], place.1, keys(slot))], now)
    ensures now == written[place.0 := written[place.0] + {Place(slot, place.1)}] && Place(slot, place.1) in Of(scans[place.0], slot)
  {
    hide PlacesFor; hide Filled; hide KeysOk; hide Spaced;
    var (s, pos) := place;
    PlacesForMember(scans, slot, place);
    var k :| 0 <= k < |scans[s]| && scans[s][k] == Place(slot, pos);
    InBounds(d, scripts[s], scans[s], k, keys);
    FilledLength(scripts[s], scans[s], keys, result[s], written[s]);
    FillOne(d, scripts[s], scans[s], keys, result[s], written[s], k);
    now := written[s := written[s] + {Place(slot, pos)}];
  }

  lemma {:induction false} FilledLength(s: seq<Byte>, ps: seq<Place>, keys: Keys, now: seq<Byte>, written: set<Place>)
    requires KeysOk(keys) && Filled(s, ps, keys, now, written)
    ensures |now| == |s|
  {
  }

  lemma {:induction false} InBounds(d: Dims, s: seq<Byte>, ps: seq<Place>, k: nat, keys: Keys)
    requires Spaced(d, s, ps, 0) && k < |ps| && KeysOk(keys)
    ensures ps[k].pos + 20 <= |s| && |keys(ps[k].slot)| == 20
  {
  }

  /** On a scanned cache the passes never panic and patch every script. */
  lemma {:induction false} PassesPatch(d: Dims, scripts: seq<seq<Byte>>, scans: seq<seq<Place>>, places: Places, keys: Keys)
    requires KeysOk(keys) && FromScan(d, scripts, scans, places)
    ensures var r := WriteSlots(scripts, ReplacementOrder(d, 6), places, keys);
            r.Some? && |r.value| == |scripts| && forall s :: 0 <= s < |scripts| ==> r.value[s] == Patch(scripts[s], scans[s], keys)
  {
    hide PlacesFor; hide Spaced; hide KeysOk; hide ReplacementOrder; hide At; hide Grown; hide WriteAt;
    var written: seq<set<Place>> := seq(|scripts|, _ => {});
    NothingFilled(scripts, scans, keys, written);
    hide Filled;
    var order, result := ReplacementOrder(d, 6), scripts;
    assert order[..0] == [];
    for i := 0 to |order|
      invariant WriteSlots(scripts, order[..i], places, keys) == Some(result)
      invariant AllPartly(scripts, scans, keys, result, written)
      invariant forall s: nat, pl: Place :: s < |scans| && pl in scans[s] && pl.slot in order[..i] ==> pl in written[s]
    {
      SlotFilled(d, scripts, scans, keys, result, written, order[i]);
      assert At(places, order[i]) == PlacesFor(scans, order[i]);
      assert order[..i + 1] == order[..i] + [order[i]];
      assert order[..i + 1][..i] == order[..i];
      result := WriteAt(result, PlacesFor(scans, order[i]), keys(order[i])).value;
      written := Grown(scans, written, order[i]);
    }
    assert order[..|order|] == order;
    forall s: nat | s < |scripts| ensures result[s] == Patch(scripts[s], scans[s], keys) {
      forall i | 0 <= i < |scans[s]| ensures scans[s][i] in written[s] {
        SlotInOrder(d, scripts[s], scans[s], i);
        assert scans[s][i] in scans[s];
      }
      AllFilled(d, scripts[s], scans[s], keys, result[s], written[s]);
    }
  }

  datatype Outcome = Refused | Panicked | Replaced(scripts: seq<seq<Byte>>)

  /** `replace_disprove_scripts` on any cache: refused when more places are recorded than the limit
      allows, a panic exactly if a place is out of range, and otherwise the writes of all passes.
      On a scanned cache it never panics, and every script is patched. */
  method ReplaceDisproveScripts(d: Dims, scripts: seq<seq<Byte>>, places: Places, keys: Keys, ghost scans: seq<seq<Place>>)
    returns (r: Outcome)
    requires KeysOk(keys)
    ensures r.Refused? <==> CountAt(ReplacementOrder(d, 6), places) > 100_000
    ensures r.Panicked? <==> !r.Refused? && !InRangeFor(scripts, ReplacementOrder(d, 6), places)
    ensures r.Replaced? ==> WriteSlots(scripts, ReplacementOrder(d, 6), places, keys) == Some(r.scripts)
    ensures FromScan(d, scripts, scans, places) ==>
      && (r.Refused? <==> CountAll(scans) > MAX_SCRIPT_REPLACEMENT_OPERATIONS) && !r.Panicked?
      && (r.Replaced? ==> |r.scripts| == |scripts|
                          && forall s :: 0 <= s < |scripts| ==> r.scripts[s] == Patch(scripts[s], scans[s], keys))
  {
    hide FromScan; hide ReplacementOrder; hide CountAll; hide At; hide WriteAt; hide InRangeFor; hide CountAt;
    var estimated := CalculateReplacementOperations(d, places, scripts, scans);
    if estimated > MAX_SCRIPT_REPLACEMENT_OPERATIONS {
      return Refused;
    }
    var order, result := ReplacementOrder(d, 6), scripts;
    WriteSlotsRange(scripts, order, places, keys);
    if FromScan(d, scripts, scans, places) {
      PassesPatch(d, scripts, scans, places, keys);
    }
    assert order[..0] == [];
    for i := 0 to |order|
      invariant WriteSlots(scripts, order[..i], places, keys) == Some(result)
    {
      assert order[..i + 1][..i] == order[..i];
      assert |keys(order[i])| == 20;
      var next := ReplaceSlot(result, At(places, order[i]), keys(order[i]));
      if next.None? {
        StaysNone(scripts, order, i + 1, places, keys);
        return Panicked;
      }
      result := next.value;
    }
    assert order[..|order|] == order;
    r := Replaced(result);
  }

  lemma {:induction false} StaysNone(scripts: seq<seq<Byte>>, slots: seq<Slot>, n: nat, places: Places, keys: Keys)
    requires KeysOk(keys) && n <= |slots| && WriteSlots(scripts, slots[..n], places, keys).None?
    ensures WriteSlots(scripts, slots, places, keys).None?
    decreases |slots| - n
  {
    if n == |slots| {
      assert slots[..n] == slots;
    } else {
      assert slots[..n + 1][..n] == slots[..n];
      StaysNone(scripts, slots, n + 1, places, keys);
    }
  }

  lemma {:induction false} NothingFilled(scripts: seq<seq<Byte>>, scans: seq<seq<Place>>, keys: Keys, written: seq<set<Place>>)
    requires KeysOk(keys) && |scripts| == |scans| == |written| && forall s :: 0 <= s < |written| ==> written[s] == {}
    ensures AllPartly(scripts, scans, keys, scripts, written)
  {
  }

  lemma {:induction false} SlotInOrder(d: Dims, s: seq<Byte>, ps: seq<Place>, i: nat)
    requires Spaced(d, s, ps, 0) && i < |ps|
    ensures ps[i].slot in ReplacementOrder(d, 6)
  {
    assert ValidSlot(d, ps[i].slot);
    hide ReplacementOrder;
    OrderVisitsOnce(d, 6, ps[i].slot);
  }

  // ---------------------------------------------------------------- cache and patch, end to end

  ghost function DummyScripts(ts: seq<Script>): (ss: seq<seq<Byte>>)
    ensures |ss| == |ts| && forall i :: 0 <= i < |ts| ==> ss[i] == RenderDummy(ts[i])
  {
    if ts == [] then [] else DummyScripts(ts[..|ts| - 1]) + [RenderDummy(ts[|ts| - 1])]
  }

  /** Generating the cache from the dummy scripts of clean templates and patching it gives, for
      any keys, the templates rendered with those keys. */
  method DisproveScripts(d: Dims, partial: seq<seq<Byte>>, scripts: seq<seq<Byte>>, keys: Keys, ghost ts: seq<Script>)
    returns (r: Outcome)
    requires KeysOk(keys) && DimsOk(d) && scripts == DummyScripts(ts)
    requires forall i :: 0 <= i < |ts| ==> ValidSlots(d, ts[i]) && Clean(ts[i])
    requires forall i :: 0 <= i < |partial| ==> NoWindow(partial[i])
    ensures r.Refused? <==> CountAll(Scans(d, scripts)) > MAX_SCRIPT_REPLACEMENT_OPERATIONS
    ensures !r.Refused? ==> r.Replaced? && |r.scripts| == |ts| && forall i :: 0 <= i < |ts| ==> r.scripts[i] == Render(ts[i], keys)
  {
    hide Scan; hide Clean; hide NoWindow; hide RenderDummy; hide DummyScripts; hide Scans; hide CountAll; hide KeysOk; hide PlacesFor; hide At;
    hide WriteSlots; hide CountAt; hide InRangeFor; hide ReplacementOrder;
    ghost var scans := Scans(d, scripts);
    forall i | 0 <= i < |scripts|
      ensures Scan(d, scripts[i], 0).Some? && Spaced(d, scripts[i], scans[i], 0) && Patch(scripts[i], scans[i], keys) == Render(ts[i], keys)
    {
      PatchExact(d, ts[i]);
      ScanSpaced(d, scripts[i], 0);
    }
    var places := GenerateFreshData(d, partial, scripts);
    assert FromScan(d, scripts, scans, places.value);
    r := ReplaceDisproveScripts(d, scripts, places.value, keys, scans);
  }
}
