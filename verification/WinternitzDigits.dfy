/** The digits of the keys in the scripts against the messages the keys sign: half-bytes of the
    message, then half-bytes of its checksum. */
module WinternitzDigits {
  import opened Common
  import opened Template
  import opened TemplateCache
  import opened TemplateReplace
  import MiniAsserts

  function Pow16(n: nat): nat {
    if n == 0 then 1 else 16 * Pow16(n - 1)
  }

  /** `c` half-bytes are the fewest that hold a checksum over `length` half-bytes. */
  ghost predicate ChecksumDigits(length: nat, c: nat) {
    Pow16(c) > 15 * length && forall k: nat :: k < c ==> Pow16(k) <= 15 * length
  }

  /** A key has as many digits as its message has half-bytes, and those of the checksum. */
  lemma {:induction false} DigitsOfKey(family: nat)
    requires family <= 5
    ensures DigitCount(family) >= MiniAsserts.MessageLength(family)
    ensures ChecksumDigits(MiniAsserts.MessageLength(family), DigitCount(family) - MiniAsserts.MessageLength(family))
  {
    assert Pow16(1) == 16 && Pow16(2) == 256 && Pow16(3) == 4096;
    forall k: nat | k < 3 ensures Pow16(k) <= 256 {
      assert k == 0 || k == 1 || k == 2;
    }
  }

  /** The digits of all keys of a deposit: the single keys 0, 1 and 2, and the three arrays. */
  ghost predicate IsDigit(d: Dims, s: Slot) {
    && ((s.family < 2 && s.index == 0)
        || MiniAsserts.IsKey(MiniAsserts.Item(s.family, s.index), d.numPubs, d.numU256, d.numHash))
    && s.digit < MiniAsserts.MessageLength(s.family) + 3
  }

  /** The scan accepts exactly these. */
  lemma {:induction false} DigitsAreSlots(d: Dims, s: Slot)
    ensures ValidSlot(d, s) <==> IsDigit(d, s)
  {
  }

  ghost predicate AllDigits(d: Dims, t: Script) {
    t.Then? ==> IsDigit(d, t.slot) && AllDigits(d, t.rest)
  }

  lemma {:induction false} DigitsValid(d: Dims, t: Script)
    requires AllDigits(d, t)
    ensures ValidSlots(d, t)
    decreases t
  {
    if t.Then? {
      DigitsAreSlots(d, t.slot);
      DigitsValid(d, t.rest);
    }
  }

  /** Generating the cache from clean scripts over any digits of the keys does not panic and
      records every digit at every place where it is, and nowhere else. */
  method RecordDigits(d: Dims, partial: seq<seq<Byte>>, scripts: seq<seq<Byte>>, ghost ts: seq<Script>) returns (r: Option<Places>)
    requires DimsOk(d) && scripts == DummyScripts(ts)
    requires forall i :: 0 <= i < |ts| ==> AllDigits(d, ts[i]) && Clean(ts[i])
    requires forall i :: 0 <= i < |partial| ==> NoWindow(partial[i])
    ensures r.Some?
    ensures forall slot, x: (nat, nat) :: x in At(r.value, slot) <==> x.0 < |ts| && Place(slot, x.1) in Slots(ts[x.0], 0)
  {
    hide Scan; hide Clean; hide NoWindow; hide RenderDummy; hide DummyScripts; hide Scans; hide PlacesFor; hide At; hide Slots;
    forall i | 0 <= i < |ts| ensures Scan(d, scripts[i], 0) == Some(Slots(ts[i], 0)) {
      DigitsValid(d, ts[i]);
      ScanExact(d, [], ts[i]);
      assert [] + RenderDummy(ts[i]) == scripts[i];
    }
    r := GenerateFreshData(d, partial, scripts);
    forall slot, x: (nat, nat) ensures x in At(r.value, slot) <==> x.0 < |ts| && Place(slot, x.1) in Slots(ts[x.0], 0) {
      PlacesForMember(Scans(d, scripts), slot, x);
    }
  }
}
