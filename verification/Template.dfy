/** BitVM disprove scripts as templates: generated once with recognisable dummy keys, scanned for
    them, and patched with real keys for each deposit. */
module Template {
  import opened Common

  /** One Winternitz key digit: which kind of key, which key of that kind, which digit. */
  datatype Slot = Slot(family: nat, index: nat, digit: nat)

  /** The key counts fixed by the BitVM verifier. */
  datatype Dims = Dims(numPubs: nat, numU256: nat, numHash: nat)

  /** Twenty-byte digits of the keys, one per slot. */
  type Keys = Slot -> seq<Byte>

  ghost predicate KeysOk(keys: Keys) {
    forall s :: |keys(s)| == 20
  }

  ghost predicate DimsOk(d: Dims) {
    d.numPubs < 0x1_0000 && d.numU256 < 0x1_0000 && d.numHash < 0x1_0000
  }

  /** Families 0 to 2 are single keys; 3, 4 and 5 are the three BitVM key arrays. */
  function KeyCount(d: Dims, family: nat): nat {
    if family < 3 then 1
    else if family == 3 then d.numPubs
    else if family == 4 then d.numU256
    else if family == 5 then d.numHash
    else 0
  }

  function DigitCount(family: nat): nat {
    if family < 3 then 43 else if family < 5 then 67 else 35
  }

  predicate ValidSlot(d: Dims, s: Slot) {
    s.family <= 5 && s.index < KeyCount(d, s.family) && s.digit < DigitCount(s.family)
  }

  const FF16: seq<Byte> := [255, 255, 255, 255, 255, 255, 255, 255, 255, 255, 255, 255, 255, 255, 255, 255]

  /** `get_replacable_value`: the dummy digit for a slot. */
  function Dummy(s: Slot): (w: seq<Byte>)
    ensures |w| == 20 && forall k :: 4 <= k < 20 ==> w[k] == 255
    ensures s.family < 256 && s.digit < 256 ==> w[0] == s.family && w[3] == s.digit
    ensures s.index < 0x1_0000 ==> (w[1] as int) * 256 + w[2] == s.index
  {
    [Low(s.family), Low(s.index / 256), Low(s.index), Low(s.digit)] + FF16
  }

  function Low(n: nat): Byte {
    n % 256
  }

  // ---------------------------------------------------------------- templates

  /** A script with its key digits left open: literal bytes, a slot, literal bytes, ... */
  datatype Script = End(lit: seq<Byte>) | Then(lit: seq<Byte>, slot: Slot, rest: Script)

  function Render(t: Script, keys: Keys): seq<Byte> {
    match t
    case End(lit) => lit
    case Then(lit, slot, rest) => lit + keys(slot) + Render(rest, keys)
  }

  function RenderDummy(t: Script): seq<Byte> {
    match t
    case End(lit) => lit
    case Then(lit, slot, rest) => lit + Dummy(slot) + RenderDummy(rest)
  }

  ghost predicate ValidSlots(d: Dims, t: Script) {
    t.Then? ==> ValidSlot(d, t.slot) && ValidSlots(d, t.rest)
  }

  /** A window of the scan: sixteen 255 bytes from `pos + 4` on. */
  predicate Match(s: seq<Byte>, pos: nat) {
    pos + 20 <= |s| && s[pos + 4..pos + 20] == FF16
  }

  /** The code's own check of a literal: no window anywhere. */
  ghost predicate NoWindow(s: seq<Byte>) {
    forall pos: nat :: !Match(s, pos)
  }

  /** Every literal passes that check. */
  ghost predicate Clean(t: Script) {
    NoWindow(t.lit) && (t.Then? ==> Clean(t.rest))
  }

  // ---------------------------------------------------------------- scan

  datatype Place = Place(slot: Slot, pos: nat)

  /** What the scan reads off a window. */
  function Decode(s: seq<Byte>, pos: nat): Slot
    requires pos + 20 <= |s|
  {
    var high: int := s[pos + 1];
    Slot(s[pos], if s[pos] < 3 then 0 else 256 * high + s[pos + 2], s[pos + 3])
  }

  /** The places of the key slots, by construction. */
  function Slots(t: Script, base: nat): seq<Place> {
    match t
    case End(_) => []
    case Then(lit, slot, rest) => [Place(slot, base + |lit|)] + Slots(rest, base + |lit| + 20)
  }

  /** The scan from `pos` on; none where the code panics on an impossible slot. */
  function Scan(d: Dims, s: seq<Byte>, pos: nat): Option<seq<Place>>
    decreases |s| - pos
  {
    if pos + 20 > |s| then Some([])
    else if Match(s, pos) then
      var slot := Decode(s, pos);
      if ValidSlot(d, slot) then Cons(Place(slot, pos), Scan(d, s, pos + 20)) else None
    else Scan(d, s, pos + 1)
  }

  function Cons(p: Place, r: Option<seq<Place>>): Option<seq<Place>> {
    if r.None? then None else Some([p] + r.value)
  }

  lemma {:induction false} MatchByte(s: seq<Byte>, pos: nat, k: nat)
    requires Match(s, pos) && pos + 4 <= k < pos + 20
    ensures s[k] == 255
  {
    assert s[k] == s[pos + 4..pos + 20][k - pos - 4];
  }

  /** A window is sixteen 255 bytes after any four. */
  lemma {:induction false} MatchMeans(s: seq<Byte>, pos: nat)
    ensures Match(s, pos) <==> pos + 20 <= |s| && forall k :: pos + 4 <= k < pos + 20 ==> s[k] == 255
  {
    if pos + 20 <= |s| {
      var w := s[pos + 4..pos + 20];
      assert w == FF16 <==> forall k :: 0 <= k < 16 ==> w[k] == 255;
      assert forall k :: pos + 4 <= k < pos + 20 ==> s[k] == w[k - pos - 4];
      assert forall k {:trigger w[k]} :: 0 <= k < 16 ==> w[k] == s[pos + 4 + k];
    }
  }

  /** What the scan does at a window: the kind, the number of the key, which is not read for the
      single keys, and the digit are its first four bytes; it panics if an array has no such place. */
  lemma {:induction false} ScanReads(d: Dims, s: seq<Byte>, pos: nat)
    requires Match(s, pos)
    ensures var kind, index, digit := s[pos], (s[pos + 1] as int) * 256 + s[pos + 2], s[pos + 3];
            var rest := Scan(d, s, pos + 20);
            var inside := (kind < 3 && digit < 43) || (kind == 3 && index < d.numPubs && digit < 67)
                          || (kind == 4 && index < d.numU256 && digit < 67) || (kind == 5 && index < d.numHash && digit < 35);
            && (Scan(d, s, pos).Some? <==> inside && rest.Some?)
            && (inside && rest.Some? ==>
                  Scan(d, s, pos).value == [Place(Slot(kind, if kind < 3 then 0 else index, digit), pos)] + rest.value)
  {
  }

  /** No window begins inside a literal unless it lies wholly inside it: the kind and digit bytes
      of the next slot are not 255. */
  lemma {:induction false} NoStraddle(d: Dims, lit: seq<Byte>, slot: Slot, tail: seq<Byte>, j: nat)
    requires ValidSlot(d, slot) && j < |lit|
    ensures Match(lit + Dummy(slot) + tail, j) ==> Match(lit, j)
  {
    var s := lit + Dummy(slot) + tail;
    var q := |lit|;
    if j + 20 > q {
      var k := if q >= j + 4 then q else q + 3;
      assert s[k] == Dummy(slot)[k - q];
      assert s[k] != 255;
      if Match(s, j) {
        MatchByte(s, j, k);
      }
    } else {
      assert s[j + 4..j + 20] == lit[j + 4..j + 20];
    }
  }

  lemma {:induction false} MatchShift(pre: seq<Byte>, s: seq<Byte>, j: nat)
    ensures Match(pre + s, |pre| + j) <==> Match(s, j)
  {
    if j + 20 <= |s| {
      assert (pre + s)[|pre| + j + 4..|pre| + j + 20] == s[j + 4..j + 20];
    }
  }

  /** The scan runs through the part of a literal before its first window. */
  lemma {:induction false} ScanThrough(d: Dims, s: seq<Byte>, from: nat, end: nat)
    requires from <= end && forall j: nat :: from <= j < end ==> !Match(s, j)
    requires end + 20 <= |s| || from == end
    ensures Scan(d, s, from) == Scan(d, s, end)
    decreases end - from
  {
    if from < end {
      ScanThrough(d, s, from + 1, end);
    }
  }

  /** The first window of a literal, if it has one. */
  lemma {:induction false} FirstWindow(lit: seq<Byte>, from: nat) returns (j: nat)
    requires exists pos: nat :: from <= pos && Match(lit, pos)
    ensures from <= j && Match(lit, j) && forall k: nat :: from <= k < j ==> !Match(lit, k)
    decreases |lit| - from
  {
    if Match(lit, from) {
      j := from;
    } else {
      var pos: nat :| from <= pos && Match(lit, pos);
      assert from + 1 <= pos;
      j := FirstWindow(lit, from + 1);
    }
  }

  /** The scan of a literal with a window stops at it, inside the literal. */
  lemma {:induction false} ScanStops(d: Dims, pre: seq<Byte>, lit: seq<Byte>, tail: seq<Byte>) returns (j: nat)
    requires !NoWindow(lit)
    ensures j + 20 <= |lit| && Match(lit, j)
    ensures var r := Scan(d, pre + lit + tail, |pre|);
            r.None? || (r.value != [] && r.value[0].pos == |pre| + j)
  {
    j := FirstWindow(lit, 0);
    var s := pre + lit + tail;
    forall k: nat | k <= j ensures Match(s, |pre| + k) <==> Match(lit, k) {
      assert s == pre + (lit + tail);
      MatchShift(pre, lit + tail, k);
      assert (lit + tail)[k + 4..k + 20] == lit[k + 4..k + 20];
    }
    forall p: nat | |pre| <= p < |pre| + j ensures !Match(s, p) {
      assert Match(s, |pre| + (p - |pre|)) <==> Match(lit, p - |pre|);
    }
    ScanThrough(d, s, |pre|, |pre| + j);
  }

  lemma {:induction false} LiteralSkipped(d: Dims, pre: seq<Byte>, lit: seq<Byte>, slot: Slot, tail: seq<Byte>, p: nat)
    requires ValidSlot(d, slot) && NoWindow(lit) && |pre| <= p < |pre| + |lit|
    ensures !Match(pre + lit + Dummy(slot) + tail, p)
  {
    assert pre + lit + Dummy(slot) + tail == pre + (lit + Dummy(slot) + tail);
    hide Match;
    MatchShift(pre, lit + Dummy(slot) + tail, p - |pre|);
    NoStraddle(d, lit, slot, tail, p - |pre|);
  }

  lemma {:induction false} SlotRead(d: Dims, pre: seq<Byte>, slot: Slot, tail: seq<Byte>)
    requires DimsOk(d) && ValidSlot(d, slot)
    ensures var s := pre + Dummy(slot) + tail; Match(s, |pre|) && Decode(s, |pre|) == slot
  {
    var s := pre + Dummy(slot) + tail;
    assert s[|pre| + 4..|pre| + 20] == FF16;
    assert s[|pre|..|pre| + 4] == Dummy(slot)[..4];
    assert s[|pre|] == Dummy(slot)[0] && s[|pre| + 1] == Dummy(slot)[1];
  }

  /** On a literal without windows the scan goes on to the slot after it and reads it off. */
  lemma {:induction false} ScanSlot(d: Dims, pre: seq<Byte>, lit: seq<Byte>, slot: Slot, tail: seq<Byte>)
    requires DimsOk(d) && ValidSlot(d, slot) && NoWindow(lit)
    ensures var s := pre + lit + Dummy(slot) + tail;
            var q := |pre| + |lit|;
            Scan(d, s, |pre|) == Cons(Place(slot, q), Scan(d, s, q + 20))
  {
    hide *;
    var s := pre + lit + Dummy(slot) + tail;
    forall p: nat | |pre| <= p < |pre| + |lit| ensures !Match(s, p) {
      LiteralSkipped(d, pre, lit, slot, tail, p);
    }
    ScanThrough(d, s, |pre|, |pre| + |lit|);
    SlotRead(d, pre + lit, slot, tail);
    ScanHit(d, s, |pre| + |lit|);
  }

  lemma {:induction false} ScanHit(d: Dims, s: seq<Byte>, pos: nat)
    requires pos + 20 <= |s| && Match(s, pos) && ValidSlot(d, Decode(s, pos))
    ensures Scan(d, s, pos) == Cons(Place(Decode(s, pos), pos), Scan(d, s, pos + 20))
  {
  }

  /** A last literal without windows yields nothing. */
  lemma {:induction false} ScanEnd(d: Dims, pre: seq<Byte>, lit: seq<Byte>)
    requires NoWindow(lit)
    ensures Scan(d, pre + lit, |pre|) == Some([])
  {
    if |lit| >= 20 {
      var end := |lit| - 20;
      forall p: nat | |pre| <= p <= |pre| + end ensures !Match(pre + lit, p) {
        MatchShift(pre, lit, p - |pre|);
      }
      ScanThrough(d, pre + lit, |pre|, |pre| + end);
    }
  }

  /** The scan finds exactly the key slots, each once and in order, if and only if every literal
      passes the window check. */
  lemma {:induction false} ScanExact(d: Dims, pre: seq<Byte>, t: Script)
    requires DimsOk(d) && ValidSlots(d, t)
    ensures Scan(d, pre + RenderDummy(t), |pre|) == Some(Slots(t, |pre|)) <==> Clean(t)
    decreases t
  {
    hide Scan; hide Match; hide Dummy; hide NoWindow;
    match t
    case End(lit) =>
      if NoWindow(lit) {
        ScanEnd(d, pre, lit);
      } else {
        var j := ScanStops(d, pre, lit, []);
        assert pre + lit + [] == pre + lit;
      }
    case Then(lit, slot, rest) =>
      var tail := RenderDummy(rest);
      assert pre + lit + Dummy(slot) + tail == pre + RenderDummy(t);
      if NoWindow(lit) {
        ScanSlot(d, pre, lit, slot, tail);
        ScanExact(d, pre + lit + Dummy(slot), rest);
        ConsEqual(Place(slot, |pre| + |lit|), Scan(d, pre + RenderDummy(t), |pre| + |lit| + 20), Slots(rest, |pre| + |lit| + 20));
      } else {
        var j := ScanStops(d, pre, lit, Dummy(slot) + tail);
        assert pre + lit + (Dummy(slot) + tail) == pre + RenderDummy(t);
      }
  }

  lemma {:induction false} ConsEqual(p: Place, r: Option<seq<Place>>, ps: seq<Place>)
    ensures Cons(p, r) == Some([p] + ps) <==> r == Some(ps)
  {
    if r.Some? && [p] + r.value == [p] + ps {
      assert ([p] + r.value)[1..] == ([p] + ps)[1..];
    }
  }
}
