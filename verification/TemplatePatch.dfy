/** Patching a scanned script with real keys: equal to rendering it with those keys. */
module TemplatePatch {
  import opened Common
  import opened Template

  ghost predicate Covers(pl: Place, p: nat) {
    pl.pos <= p < pl.pos + 20
  }

  /** The byte at `p` after the key digits were written over the windows. */
  ghost function ByteAt(s: seq<Byte>, ps: seq<Place>, keys: Keys, p: nat): Byte
    requires KeysOk(keys) && p < |s|
  {
    if ps == [] then s[p]
    else if Covers(ps[0], p) then KeyByte(keys, ps[0].slot, p - ps[0].pos)
    else ByteAt(s, ps[1..], keys, p)
  }

  ghost function KeyByte(keys: Keys, slot: Slot, k: nat): Byte
    requires KeysOk(keys) && k < 20
  {
    assert |keys(slot)| == 20;
    keys(slot)[k]
  }

  ghost function Patch(s: seq<Byte>, ps: seq<Place>, keys: Keys): (r: seq<Byte>)
    requires KeysOk(keys)
    ensures |r| == |s| && forall p :: 0 <= p < |s| ==> r[p] == ByteAt(s, ps, keys, p)
  {
    seq(|s|, p requires 0 <= p < |s| => ByteAt(s, ps, keys, p))
  }

  // ---------------------------------------------------------------- windows

  /** Windows are in bounds, from `from` on, and each ends before the next begins. */
  ghost predicate Spaced(d: Dims, s: seq<Byte>, ps: seq<Place>, from: nat) {
    && (forall i :: 0 <= i < |ps| ==> from <= ps[i].pos && ps[i].pos + 20 <= |s| && ValidSlot(d, ps[i].slot))
    && (forall i, j :: 0 <= i < j < |ps| ==> ps[i].pos + 20 <= ps[j].pos)
  }

  /** Whatever the bytes, the recorded windows are in bounds and pairwise disjoint. */
  lemma {:induction false} ScanSpaced(d: Dims, s: seq<Byte>, pos: nat)
    ensures Scan(d, s, pos).Some? ==> Spaced(d, s, Scan(d, s, pos).value, pos)
    decreases |s| - pos
  {
    if pos + 20 <= |s| {
      if Match(s, pos) {
        ScanSpaced(d, s, pos + 20);
      } else {
        ScanSpaced(d, s, pos + 1);
      }
    }
  }

  /** Disjoint windows: a byte inside one is that window's key byte, whatever the order. */
  lemma {:induction false} ByteInWindow(d: Dims, s: seq<Byte>, ps: seq<Place>, keys: Keys, i: nat, p: nat, from: nat)
    requires KeysOk(keys) && Spaced(d, s, ps, from) && i < |ps| && Covers(ps[i], p)
    ensures p < |s| && ByteAt(s, ps, keys, p) == KeyByte(keys, ps[i].slot, p - ps[i].pos)
    decreases |ps|
  {
    if i > 0 {
      assert ps[0].pos + 20 <= ps[i].pos;
      ByteInWindow(d, s, ps[1..], keys, i - 1, p, from);
    }
  }

  /** Bytes outside all windows are unchanged. */
  lemma {:induction false} ByteOutside(s: seq<Byte>, ps: seq<Place>, keys: Keys, p: nat)
    requires KeysOk(keys) && p < |s| && forall i :: 0 <= i < |ps| ==> !Covers(ps[i], p)
    ensures ByteAt(s, ps, keys, p) == s[p]
    decreases |ps|
  {
    if ps != [] {
      ByteOutside(s, ps[1..], keys, p);
    }
  }

  // ---------------------------------------------------------------- patching equals rendering

  lemma {:induction false} SameLength(t: Script, keys: Keys)
    requires KeysOk(keys)
    ensures |Render(t, keys)| == |RenderDummy(t)|
    decreases t
  {
    if t.Then? {
      SameLength(t.rest, keys);
      assert |keys(t.slot)| == 20;
    }
  }

  lemma {:induction false} SlotsFrom(t: Script, base: nat)
    ensures forall i :: 0 <= i < |Slots(t, base)| ==> Slots(t, base)[i].pos >= base
    decreases t
  {
    if t.Then? {
      SlotsFrom(t.rest, base + |t.lit| + 20);
    }
  }

  /** Writing the keys over the slots of the dummy script gives the script with those keys. */
  lemma {:induction false} PatchSlots(pre: seq<Byte>, t: Script, keys: Keys, i: nat)
    requires KeysOk(keys) && |Render(t, keys)| == |RenderDummy(t)| && i < |RenderDummy(t)|
    ensures ByteAt(pre + RenderDummy(t), Slots(t, |pre|), keys, |pre| + i) == Render(t, keys)[i]
    decreases t
  {
    if t.Then? {
      var s, q := pre + RenderDummy(t), |pre| + |t.lit|;
      var rest := Slots(t.rest, q + 20);
      var pre' := pre + t.lit + Dummy(t.slot);
      assert |keys(t.slot)| == 20;
      assert s == pre' + RenderDummy(t.rest);
      assert Slots(t, |pre|)[1..] == rest;
      if i < |t.lit| {
        SlotsFrom(t.rest, q + 20);
        ByteOutside(s, Slots(t, |pre|), keys, |pre| + i);
      } else if i >= |t.lit| + 20 {
        SameLength(t.rest, keys);
        PatchSlots(pre', t.rest, keys, i - |t.lit| - 20);
      }
    }
  }

  /** Unless every literal is free of windows, a scan that does not panic records a window inside
      a literal. */
  lemma {:induction false} FalseWindow(d: Dims, pre: seq<Byte>, t: Script) returns (i: nat, k: nat)
    requires DimsOk(d) && ValidSlots(d, t) && !Clean(t) && Scan(d, pre + RenderDummy(t), |pre|).Some?
    ensures var ps := Scan(d, pre + RenderDummy(t), |pre|).value;
            k < |ps| && Covers(ps[k], |pre| + i)
    ensures i < |RenderDummy(t)| && forall keys: Keys :: KeysOk(keys) ==> |Render(t, keys)| > i && Render(t, keys)[i] == 255
    decreases t
  {
    hide Scan; hide Match; hide Dummy; hide NoWindow;
    var lit := t.lit;
    var tail := if t.Then? then Dummy(t.slot) + RenderDummy(t.rest) else [];
    assert pre + lit + tail == pre + RenderDummy(t);
    if NoWindow(lit) {
      var rest := RenderDummy(t.rest);
      assert pre + lit + Dummy(t.slot) + rest == pre + RenderDummy(t);
      ScanSlot(d, pre, lit, t.slot, rest);
      i, k := FalseWindow(d, pre + lit + Dummy(t.slot), t.rest);
      i, k := i + |lit| + 20, k + 1;
      forall keys: Keys | KeysOk(keys) ensures |Render(t, keys)| > i && Render(t, keys)[i] == 255 {
        assert |keys(t.slot)| == 20;
      }
    } else {
      var j := ScanStops(d, pre, lit, tail);
      MatchByte(lit, j, j + 4);
      i, k := j + 4, 0;
    }
  }

  function ZeroKey(s: Slot): seq<Byte> {
    [0, 0, 0, 0, 0, 0, 0, 0, 0, 0, 0, 0, 0, 0, 0, 0, 0, 0, 0, 0]
  }

  /** The cached form works for all keys. */
  ghost predicate PatchWorks(d: Dims, t: Script) {
    && Scan(d, RenderDummy(t), 0).Some?
    && forall keys: Keys :: KeysOk(keys) ==> Patch(RenderDummy(t), Scan(d, RenderDummy(t), 0).value, keys) == Render(t, keys)
  }

  lemma {:induction false} PatchAllSlots(t: Script, keys: Keys)
    requires KeysOk(keys)
    ensures Patch(RenderDummy(t), Slots(t, 0), keys) == Render(t, keys)
  {
    hide *;
    var s := RenderDummy(t);
    assert [] + s == s;
    SameLength(t, keys);
    forall i: nat | i < |s| ensures Patch(s, Slots(t, 0), keys)[i] == Render(t, keys)[i] {
      PatchSlots([], t, keys, i);
    }
  }

  lemma {:induction false} FalsePatch(d: Dims, t: Script)
    requires DimsOk(d) && ValidSlots(d, t) && !Clean(t)
    ensures !PatchWorks(d, t)
  {
    if Scan(d, RenderDummy(t), 0).Some? {
      var i := ZeroedByte(d, t);
      hide Scan; hide Clean; hide RenderDummy; hide Render;
    }
  }

  /** Patching with the zero key clears a byte that is 255 in the rendering. */
  lemma {:induction false} ZeroedByte(d: Dims, t: Script) returns (i: nat)
    requires DimsOk(d) && ValidSlots(d, t) && !Clean(t) && Scan(d, RenderDummy(t), 0).Some?
    ensures KeysOk(ZeroKey) && i < |RenderDummy(t)| && i < |Render(t, ZeroKey)| && Render(t, ZeroKey)[i] == 255
    ensures Patch(RenderDummy(t), Scan(d, RenderDummy(t), 0).value, ZeroKey)[i] == 0
  {
    hide Scan; hide Clean; hide RenderDummy; hide Render; hide ByteAt; hide ValidSlots; hide Spaced;
    var s := RenderDummy(t);
    assert [] + s == s;
    var k: nat;
    i, k := FalseWindow(d, [], t);
    ScanSpaced(d, s, 0);
    assert KeysOk(ZeroKey);
    ByteInWindow(d, s, Scan(d, s, 0).value, ZeroKey, k, i, 0);
  }

  /** Scanning the dummy script and patching it with any keys equals rendering it with those keys,
      if and only if every literal passes the window check. */
  lemma {:induction false} PatchExact(d: Dims, t: Script)
    requires DimsOk(d) && ValidSlots(d, t)
    ensures PatchWorks(d, t) <==> Clean(t)
  {
    assert [] + RenderDummy(t) == RenderDummy(t);
    ScanExact(d, [], t);
    hide Scan; hide Clean; hide Slots; hide RenderDummy; hide Render; hide Patch; hide KeysOk; hide ValidSlots;
    if Clean(t) {
      forall keys: Keys | KeysOk(keys) ensures Patch(RenderDummy(t), Slots(t, 0), keys) == Render(t, keys) {
        PatchAllSlots(t, keys);
      }
    } else {
      FalsePatch(d, t);
    }
  }

  /** A literal that ends in a partial script passes the window check exactly when the partial
      script does and no window begins in the bytes before it. */
  lemma {:induction false} PartialCheck(before: seq<Byte>, partial: seq<Byte>)
    ensures NoWindow(before + partial) <==>
      NoWindow(partial) && forall j: nat :: j < |before| ==> !Match(before + partial, j)
  {
    forall j: nat ensures Match(before + partial, |before| + j) <==> Match(partial, j) {
      MatchShift(before, partial, j);
    }
    hide Match;
    if NoWindow(partial) && forall j: nat :: j < |before| ==> !Match(before + partial, j) {
      forall j: nat ensures !Match(before + partial, j) {
        if j >= |before| {
          assert Match(before + partial, |before| + (j - |before|)) <==> Match(partial, j - |before|);
        }
      }
    }
  }

  /** A script that ends in `partial`, with four zero bytes before it. */
  function Misread(slot: Slot, partial: seq<Byte>): Script {
    Then([], slot, End([0, 0, 0, 0] + partial))
  }

  /** The check of the partial scripts alone does not rule out windows that begin before them:
      this partial script passes it and the scan succeeds, but patching is wrong for some keys. */
  lemma {:induction false} GuardMissesStart(d: Dims, slot: Slot)
    requires DimsOk(d) && ValidSlot(d, slot)
    ensures ValidSlots(d, Misread(slot, FF16)) && NoWindow(FF16)
    ensures var s := RenderDummy(Misread(slot, FF16));
            Scan(d, s, 0).Some? && exists keys: Keys :: KeysOk(keys) && Patch(s, Scan(d, s, 0).value, keys) != Render(Misread(slot, FF16), keys)
  {
    var t := Misread(slot, FF16);
    var lit := t.rest.lit;
    var s := RenderDummy(t);
    assert lit[4..20] == FF16 && Match(lit, 0);
    assert RenderDummy(t.rest) == lit;
    assert s == Dummy(slot) + lit;
    var none: seq<Byte> := [];
    assert s == none + none + Dummy(slot) + lit;
    ScanSlot(d, none, none, slot, lit);
    MatchShift(Dummy(slot), lit, 0);
    assert s[20] == lit[0] && s[21] == lit[1] && s[22] == lit[2] && s[23] == lit[3];
    assert ValidSlot(d, Decode(s, 20));
    ScanHit(d, s, 20);
    assert !Clean(t);
    PatchExact(d, t);
  }
}
