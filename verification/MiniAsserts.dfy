/** How an operator's Winternitz keys are spread over the assert transactions: three functions lay
    them out separately, for the scripts, the committed data and the key derivations. */
module MiniAsserts {
  import opened Common
  import opened DerivationPath

  /** A key: its kind (2 challenge-sending watchtowers, 3 public input, 4 U256, 5 hash) and number. */
  datatype Item = Item(family: nat, index: nat)

  /** What all derivation paths of one deposit share. */
  datatype Deposit = Deposit(outpoint: OutPoint, params: Paramset)

  /** One value per key of each kind. */
  datatype PerKey<V> = PerKey(payout: V, latest: V, challenge: V, pubs: seq<V>, u256: seq<V>, hash: seq<V>)

  function At<V>(v: PerKey<V>, x: Item): V
    requires Known(v, x)
  {
    if x.family == 2 then v.challenge
    else if x.family == 3 then v.pubs[x.index]
    else if x.family == 4 then v.u256[x.index]
    else v.hash[x.index]
  }

  ghost predicate Known<V>(v: PerKey<V>, x: Item) {
    || (x.family == 2 && x.index == 0)
    || (x.family == 3 && x.index < |v.pubs|)
    || (x.family == 4 && x.index < |v.u256|)
    || (x.family == 5 && x.index < |v.hash|)
  }

  /** Winternitz message length, in half-bytes, of each kind of key. */
  function MessageLength(family: nat): nat {
    if family < 3 then 40 else if family == 5 then 32 else 64
  }

  function AssertPath(length: nat, family: nat, index: nat, dep: Deposit): Path {
    BitvmAssert(length, family, index, dep.outpoint, dep.params)
  }

  function PathOf(x: Item, dep: Deposit): Path {
    AssertPath(MessageLength(x.family), x.family, x.index, dep)
  }

  // ---------------------------------------------------------------- the layout of the scripts

  function Min(a: nat, b: nat): nat {
    if a < b then a else b
  }

  function Items(family: nat, from: nat, upto: nat): (r: seq<Item>)
    requires from <= upto
    ensures |r| == upto - from && forall k :: 0 <= k < |r| ==> r[k] == Item(family, from + k)
  {
    seq(upto - from, k requires 0 <= k < upto - from => Item(family, from + k))
  }

  function FirstItems(u: nat): seq<Item>
    requires u >= 4
  {
    [Item(2, 0), Item(3, 0), Item(4, u - 4), Item(4, u - 3), Item(4, u - 2), Item(4, u - 1)]
  }

  /** Scripts that hold U256 keys five by five, and hash keys eleven by eleven. */
  function U256Scripts(u: nat): nat
    requires u >= 4
  {
    u / 5
  }

  function HashScripts(h: nat): nat {
    (h + 10) / 11
  }

  function NumScripts(u: nat, h: nat): nat
    requires u >= 4
  {
    1 + U256Scripts(u) + HashScripts(h)
  }

  /** The keys of script `j`, for `u` U256 and `h` hash keys. */
  function Layout(u: nat, h: nat, j: nat): seq<Item>
    requires u >= 4 && j < NumScripts(u, h)
  {
    if j == 0 then FirstItems(u)
    else if j <= U256Scripts(u) then
      var i := (j - 1) * 5;
      Items(4, i, Min(i + 5, u))
    else
      var i := (j - 1 - U256Scripts(u)) * 11;
      Items(5, i, Min(i + 11, h))
  }

  /** The keys whose derivation paths are given for mini-assert `j`. */
  function Derived(u: nat, h: nat, j: nat): seq<Item>
    requires u >= 4
  {
    if j == 0 then FirstItems(u)
    else if j <= 2 then
      var i := (j - 1) * 5;
      Items(4, Min(i, u - 4), Min(i + 5, u - 4))
    else
      var i := (j - 3) * 11;
      Items(5, Min(i, h), Min(i + 11, h))
  }

  // ---------------------------------------------------------------- the three functions

  function WithLength<V>(vs: seq<V>, length: nat): (r: seq<(V, nat)>)
    ensures |r| == |vs| && forall k :: 0 <= k < |vs| ==> r[k] == (vs[k], length)
  {
    seq(|vs|, k requires 0 <= k < |vs| => (vs[k], length))
  }

  ghost predicate Sized<V>(v: PerKey<V>) {
    |v.pubs| >= 1 && |v.u256| >= 4
  }

  /** Script `j` commits to the keys of its layout, each with its message length. */
  ghost predicate ScriptOk<V>(v: PerKey<V>, script: seq<(V, nat)>, j: nat)
    requires Sized(v) && j < NumScripts(|v.u256|, |v.hash|)
  {
    var xs := Layout(|v.u256|, |v.hash|, j);
    |script| == |xs| && forall k :: 0 <= k < |xs| ==>
      Known(v, xs[k]) && script[k] == (At(v, xs[k]), MessageLength(xs[k].family))
  }

  ghost predicate DataOk<V>(v: PerKey<V>, data: seq<V>, j: nat)
    requires Sized(v) && j < NumScripts(|v.u256|, |v.hash|)
  {
    var xs := Layout(|v.u256|, |v.hash|, j);
    |data| == |xs| && forall k :: 0 <= k < |xs| ==> Known(v, xs[k]) && data[k] == At(v, xs[k])
  }

  lemma {:induction false} U256Script<V>(v: PerKey<V>, n: nat)
    requires Sized(v) && 5 * n < |v.u256| - 4
    ensures 1 + n <= U256Scripts(|v.u256|)
    ensures ScriptOk(v, WithLength(v.u256[5 * n..Min(5 * n + 5, |v.u256|)], 64), 1 + n)
    ensures DataOk(v, v.u256[5 * n..Min(5 * n + 5, |v.u256|)], 1 + n)
  {
    assert Layout(|v.u256|, |v.hash|, 1 + n) == Items(4, 5 * n, Min(5 * n + 5, |v.u256|));
  }

  lemma {:induction false} HashScript<V>(v: PerKey<V>, n: nat)
    requires Sized(v) && 11 * n < |v.hash|
    ensures 1 + U256Scripts(|v.u256|) + n < NumScripts(|v.u256|, |v.hash|)
    ensures ScriptOk(v, WithLength(v.hash[11 * n..Min(11 * n + 11, |v.hash|)], 32), 1 + U256Scripts(|v.u256|) + n)
    ensures DataOk(v, v.hash[11 * n..Min(11 * n + 11, |v.hash|)], 1 + U256Scripts(|v.u256|) + n)
  {
    assert Layout(|v.u256|, |v.hash|, 1 + U256Scripts(|v.u256|) + n) == Items(5, 11 * n, Min(11 * n + 11, |v.hash|));
  }

  function FirstData<V>(v: PerKey<V>): seq<V>
    requires |v.pubs| >= 1 && |v.u256| >= 4
  {
    var u := |v.u256|;
    [v.challenge, v.pubs[0], v.u256[u - 4], v.u256[u - 3], v.u256[u - 2], v.u256[u - 1]]
  }

  function FirstScript<V>(v: PerKey<V>): seq<(V, nat)>
    requires |v.pubs| >= 1 && |v.u256| >= 4
  {
    [(v.challenge, 40)] + WithLength(FirstData(v)[1..], 64)
  }

  lemma {:induction false} FirstOk<V>(v: PerKey<V>)
    requires Sized(v)
    ensures ScriptOk(v, FirstScript(v), 0) && DataOk(v, FirstData(v), 0)
  {
  }

  /** Where the two loops end. */
  lemma {:induction false} U256Count(u: nat, n: nat)
    requires u >= 4 && 5 * n < u + 1
    ensures 5 * n >= u - 4 ==> n == U256Scripts(u)
  {
  }

  lemma {:induction false} HashCount(h: nat, n: nat)
    requires 11 * n < h + 11
    ensures 11 * n >= h ==> n == HashScripts(h)
  {
  }

  /** `get_assert_scripts`. */
  method GetAssertScripts<V>(pks: PerKey<V>) returns (scripts: seq<seq<(V, nat)>>)
    requires Sized(pks)
    ensures |scripts| == NumScripts(|pks.u256|, |pks.hash|)
    ensures forall j :: 0 <= j < |scripts| ==> ScriptOk(pks, scripts[j], j)
  {
    var u, h := |pks.u256|, |pks.hash|;
    hide ScriptOk; hide DataOk; hide WithLength; hide Layout; hide U256Scripts; hide HashScripts; hide FirstScript; hide FirstData;
    FirstOk(pks);
    scripts := [FirstScript(pks)];
    var i := 0;
    ghost var n := 0;
    while i < u - 4
      invariant i == 5 * n < u + 1 && |scripts| == 1 + n <= 1 + U256Scripts(u)
      invariant forall j :: 0 <= j < |scripts| ==> ScriptOk(pks, scripts[j], j)
    {
      U256Script(pks, n);
      scripts := scripts + [WithLength(pks.u256[i..Min(i + 5, u)], 64)];
      i, n := i + 5, n + 1;
    }
    U256Count(u, n);
    i, n := 0, 0;
    while i < h
      invariant i == 11 * n < h + 11 && |scripts| == 1 + U256Scripts(u) + n <= NumScripts(u, h)
      invariant forall j :: 0 <= j < |scripts| ==> ScriptOk(pks, scripts[j], j)
    {
      HashScript(pks, n);
      scripts := scripts + [WithLength(pks.hash[i..Min(i + 11, h)], 32)];
      i, n := i + 11, n + 1;
    }
    HashCount(h, n);
  }

  /** `get_assert_commit_data`. */
  method GetAssertCommitData<V>(asserts: PerKey<V>) returns (data: seq<seq<V>>)
    requires Sized(asserts)
    ensures |data| == NumScripts(|asserts.u256|, |asserts.hash|)
    ensures forall j :: 0 <= j < |data| ==> DataOk(asserts, data[j], j)
  {
    var u, h := |asserts.u256|, |asserts.hash|;
    hide ScriptOk; hide DataOk; hide WithLength; hide Layout; hide U256Scripts; hide HashScripts; hide FirstScript; hide FirstData;
    FirstOk(asserts);
    data := [FirstData(asserts)];
    var i := 0;
    ghost var n := 0;
    while i < u - 4
      invariant i == 5 * n < u + 1 && |data| == 1 + n <= 1 + U256Scripts(u)
      invariant forall j :: 0 <= j < |data| ==> DataOk(asserts, data[j], j)
    {
      U256Script(asserts, n);
      data := data + [asserts.u256[i..Min(i + 5, u)]];
      i, n := i + 5, n + 1;
    }
    U256Count(u, n);
    i, n := 0, 0;
    while i < h
      invariant i == 11 * n < h + 11 && |data| == 1 + U256Scripts(u) + n <= NumScripts(u, h)
      invariant forall j :: 0 <= j < |data| ==> DataOk(asserts, data[j], j)
    {
      HashScript(asserts, n);
      data := data + [asserts.hash[i..Min(i + 11, h)]];
      i, n := i + 11, n + 1;
    }
    HashCount(h, n);
  }

  ghost predicate PathsOk(paths: seq<Path>, xs: seq<Item>, dep: Deposit) {
    |paths| == |xs| && forall k :: 0 <= k < |xs| ==> paths[k] == PathOf(xs[k], dep)
  }

  /** `get_assert_derivations`. */
  method GetAssertDerivations(u: nat, h: nat, idx: nat, dep: Deposit) returns (paths: seq<Path>)
    requires u >= 4
    ensures PathsOk(paths, Derived(u, h, idx), dep)
  {
    if idx == 0 {
      return [AssertPath(40, 2, 0, dep), AssertPath(64, 3, 0, dep), AssertPath(64, 4, u - 4, dep),
              AssertPath(64, 4, u - 3, dep), AssertPath(64, 4, u - 2, dep), AssertPath(64, 4, u - 1, dep)];
    }
    paths := [];
    if idx <= 2 {
      var first := (idx - 1) * 5;
      for i := 0 to 5
        invariant PathsOk(paths, Items(4, Min(first, u - 4), Min(first + i, u - 4)), dep)
      {
        if first + i < u - 4 {
          paths := paths + [AssertPath(64, 4, first + i, dep)];
        }
      }
    } else {
      var first := (idx - 3) * 11;
      for i := 0 to 11
        invariant PathsOk(paths, Items(5, Min(first, h), Min(first + i, h)), dep)
      {
        if first + i < h {
          paths := paths + [AssertPath(32, 5, first + i, dep)];
        }
      }
    }
  }

  // ---------------------------------------------------------------- key generation

  /** Every key comes from the path of its kind and number. */
  ghost predicate DerivedFrom<V>(pks: PerKey<V>, derive: Path -> Option<V>, dep: Deposit) {
    forall x: Item :: Known(pks, x) ==> derive(PathOf(x, dep)) == Some(At(pks, x))
  }

  /** One of the loops over a key array; none if a derivation fails. */
  method DeriveKeys<V>(derive: Path -> Option<V>, length: nat, family: nat, n: nat, dep: Deposit) returns (r: Option<seq<V>>)
    ensures r.Some? <==> forall k: nat :: k < n ==> derive(AssertPath(length, family, k, dep)).Some?
    ensures r.Some? ==> |r.value| == n && forall k: nat :: k < n ==> derive(AssertPath(length, family, k, dep)) == Some(r.value[k])
  {
    var keys: seq<V> := [];
    for i := 0 to n
      invariant |keys| == i && forall k: nat :: k < i ==> derive(AssertPath(length, family, k, dep)) == Some(keys[k])
    {
      var key := derive(AssertPath(length, family, i, dep));
      if key.None? {
        return None;
      }
      keys := keys + [key.value];
    }
    r := Some(keys);
  }

  /** The keys of a deposit with that many keys in its arrays. */
  ghost predicate IsKey(x: Item, pubs: nat, u: nat, h: nat) {
    || (x.family == 2 && x.index == 0)
    || (x.family == 3 && x.index < pubs)
    || (x.family == 4 && x.index < u)
    || (x.family == 5 && x.index < h)
  }

  /** `generate_bitvm_pks_for_deposit`: succeeds exactly when every derivation does; the payout
      block hash key keeps its dummy value. */
  method GeneratePks<V>(derive: Path -> Option<V>, dummy: V, pubs: nat, u: nat, h: nat, dep: Deposit)
    returns (r: Option<PerKey<V>>)
    ensures r.Some? <==> derive(AssertPath(40, 1, 0, dep)).Some?
                         && forall x: Item :: IsKey(x, pubs, u, h) ==> derive(PathOf(x, dep)).Some?
    ensures r.Some? ==> |r.value.pubs| == pubs && |r.value.u256| == u && |r.value.hash| == h
    ensures r.Some? ==> DerivedFrom(r.value, derive, dep)
    ensures r.Some? ==>
      && (forall k :: 0 <= k < pubs ==> derive(BitvmAssert(64, 3, k, dep.outpoint, dep.params)) == Some(r.value.pubs[k]))
      && (forall k :: 0 <= k < u ==> derive(BitvmAssert(64, 4, k, dep.outpoint, dep.params)) == Some(r.value.u256[k]))
      && (forall k :: 0 <= k < h ==> derive(BitvmAssert(32, 5, k, dep.outpoint, dep.params)) == Some(r.value.hash[k]))
      && derive(BitvmAssert(40, 2, 0, dep.outpoint, dep.params)) == Some(r.value.challenge)
      && derive(BitvmAssert(40, 1, 0, dep.outpoint, dep.params)) == Some(r.value.latest)
    ensures r.Some? ==> r.value.payout == dummy
  {
    r := None;
    var latest := derive(AssertPath(40, 1, 0, dep));
    if latest.Some? {
      var challenge := derive(AssertPath(40, 2, 0, dep));
      assert PathOf(Item(2, 0), dep) == AssertPath(40, 2, 0, dep);
      assert forall k: nat :: PathOf(Item(3, k), dep) == AssertPath(64, 3, k, dep);
      assert forall k: nat :: PathOf(Item(4, k), dep) == AssertPath(64, 4, k, dep);
      assert forall k: nat :: PathOf(Item(5, k), dep) == AssertPath(32, 5, k, dep);
      if challenge.Some? {
        var p3 := DeriveKeys(derive, 64, 3, pubs, dep);
        if p3.Some? {
          var p4 := DeriveKeys(derive, 64, 4, u, dep);
          if p4.Some? {
            var p5 := DeriveKeys(derive, 32, 5, h, dep);
            if p5.Some? {
              r := Some(PerKey(dummy, latest.value, challenge.value, p3.value, p4.value, p5.value));
            }
          }
        }
      }
    }
  }

  // ---------------------------------------------------------------- alignment

  /** For every assert script the derivation paths are those of its keys, item by item. */
  ghost predicate Aligned(u: nat, h: nat)
    requires u >= 4
  {
    forall j: nat :: j < NumScripts(u, h) ==> Layout(u, h, j) == Derived(u, h, j)
  }

  lemma {:induction false} AlignedAt14(h: nat, j: nat)
    requires j < NumScripts(14, h)
    ensures Layout(14, h, j) == Derived(14, h, j)
  {
    assert U256Scripts(14) == 2;
    if j >= 3 {
      var i := (j - 3) * 11;
      assert j - 3 < (h + 10) / 11;
      assert i < h;
    }
  }

  lemma {:induction false} NotAligned(u: nat, h: nat) returns (j: nat)
    requires u >= 4 && u != 14 && !(h == 0 && (u == 4 || u == 9))
    ensures j < NumScripts(u, h) && Layout(u, h, j) != Derived(u, h, j)
  {
    if u >= 15 {
      j := 3;
      var l, d := Layout(u, h, 3), Derived(u, h, 3);
      assert l[0] == Item(4, 10);
      if d != [] {
        assert d[0].family == 5;
      }
    } else if u == 4 {
      j := 1;
      assert |Layout(u, h, 1)| > 0 && |Derived(u, h, 1)| == 0;
    } else if u < 9 {
      j := 1;
      assert |Layout(u, h, 1)| == 5 && |Derived(u, h, 1)| == u - 4 < 5;
    } else if u == 9 {
      j := 2;
      assert |Layout(u, h, 2)| > 0 && |Derived(u, h, 2)| == 0;
    } else {
      j := 2;
      assert |Layout(u, h, 2)| == Min(10, u) - 5 && |Derived(u, h, 2)| == u - 9 < 5;
    }
  }

  /** The layouts agree for every number of hash keys exactly when there are fourteen U256 keys;
      apart from that only without hash keys and with four or nine U256 keys. */
  lemma {:induction false} AlignedExactly(u: nat, h: nat)
    requires u >= 4
    ensures Aligned(u, h) <==> u == 14 || (h == 0 && (u == 4 || u == 9))
  {
    if u == 14 {
      forall j: nat | j < NumScripts(u, h) ensures Layout(u, h, j) == Derived(u, h, j) {
        AlignedAt14(h, j);
      }
    } else if h == 0 && (u == 4 || u == 9) {
      forall j: nat | j < NumScripts(u, h) ensures Layout(u, h, j) == Derived(u, h, j) {
      }
    } else {
      var j := NotAligned(u, h);
    }
  }

  /** The byte arrays committed to: twenty bytes for the watchtowers, sixteen for a hash, else
      thirty-two. */
  ghost predicate WidthsOk(asserts: PerKey<seq<nat>>) {
    forall x: Item :: Known(asserts, x) ==> |At(asserts, x)| == if x.family == 2 then 20 else if x.family == 5 then 16 else 32
  }

  /** Scripts, data and paths of every mini-assert match item by item: the key in the script was
      derived from the path at the same place, with the script's message length, and the data
      committed there belong to the same key and have that length in half-bytes. */
  lemma {:induction false} MiniAssertMatches<V>(pks: PerKey<V>, asserts: PerKey<seq<nat>>, derive: Path -> Option<V>, dep: Deposit, j: nat,
                                                script: seq<(V, nat)>, data: seq<seq<nat>>, paths: seq<Path>)
    requires |pks.pubs| >= 1 && |pks.u256| == |asserts.u256| == 14 && |pks.hash| == |asserts.hash| && |asserts.pubs| >= 1
    requires j < NumScripts(14, |pks.hash|) && WidthsOk(asserts) && DerivedFrom(pks, derive, dep)
    requires ScriptOk(pks, script, j) && DataOk(asserts, data, j) && PathsOk(paths, Derived(14, |pks.hash|, j), dep)
    ensures |script| == |data| == |paths|
    ensures forall k :: 0 <= k < |paths| ==>
      && paths[k].BitvmAssert?
      && derive(paths[k]) == Some(script[k].0) && script[k].1 == paths[k].messageLength
      && 2 * |data[k]| == paths[k].messageLength
      && var x := Item(paths[k].pkType, paths[k].pkIndex); Known(asserts, x) && data[k] == At(asserts, x)
  {
    AlignedAt14(|pks.hash|, j);
    var xs := Layout(14, |pks.hash|, j);
    forall k | 0 <= k < |paths|
      ensures paths[k].BitvmAssert? && derive(paths[k]) == Some(script[k].0) && script[k].1 == paths[k].messageLength
      ensures 2 * |data[k]| == paths[k].messageLength
      ensures var x := Item(paths[k].pkType, paths[k].pkIndex); Known(asserts, x) && data[k] == At(asserts, x)
    {
      assert xs[k] == Derived(14, |pks.hash|, j)[k];
      assert Known(pks, xs[k]) && Known(asserts, xs[k]) && paths[k] == PathOf(xs[k], dep);
    }
  }

  // ---------------------------------------------------------------- every key once

  /** The script and the place in it of a key. */
  function PlaceOf(x: Item): (nat, nat) {
    if x.family < 4 then (0, if x.family == 2 then 0 else 1)
    else if x.family == 4 then (if x.index >= 10 then (0, x.index - 8) else (1 + x.index / 5, x.index % 5))
    else (3 + x.index / 11, x.index % 11)
  }

  /** Item `x` is at place `k` of script `j`. */
  ghost predicate IsAt(h: nat, x: Item, j: nat, k: nat) {
    j < NumScripts(14, h) && k < |Layout(14, h, j)| && Layout(14, h, j)[k] == x
  }

  lemma {:induction false} FoundAt(h: nat, x: Item, j: nat, k: nat)
    requires IsAt(h, x, j, k)
    ensures IsKey(x, 1, 14, h) && (j, k) == PlaceOf(x)
  {
    assert U256Scripts(14) == 2;
    if j >= 3 {
      assert x == Item(5, (j - 3) * 11 + k) && k < 11;
    } else if j >= 1 {
      assert x == Item(4, (j - 1) * 5 + k) && k < 5;
    }
  }

  lemma {:induction false} HashAt(h: nat, index: nat)
    requires index < h
    ensures IsAt(h, Item(5, index), 3 + index / 11, index % 11)
  {
    assert U256Scripts(14) == 2;
    assert 3 + index / 11 < NumScripts(14, h);
    assert Layout(14, h, 3 + index / 11) == Items(5, index / 11 * 11, Min(index / 11 * 11 + 11, h));
  }

  /** With fourteen U256 keys and one public input, every key is in exactly one place, and the
      places hold nothing else. */
  lemma {:induction false} EveryKeyOnce(h: nat, x: Item, j: nat, k: nat)
    ensures IsAt(h, x, j, k) <==> IsKey(x, 1, 14, h) && (j, k) == PlaceOf(x)
  {
    if IsAt(h, x, j, k) {
      FoundAt(h, x, j, k);
    } else if x.family == 5 && x.index < h {
      HashAt(h, x.index);
    } else if x.family == 4 && x.index < 10 {
      assert U256Scripts(14) == 2;
      assert Layout(14, h, 1 + x.index / 5) == Items(4, x.index / 5 * 5, x.index / 5 * 5 + 5);
    }
  }

  /** Two keys, of any two deposits, are derived from the same bytes exactly when kind, number,
      outpoint and network agree. */
  lemma {:induction false} KeyBytes(x: Item, y: Item, dep: Deposit, other: Deposit)
    requires Encodable(PathOf(x, dep)) && Encodable(PathOf(y, other))
    ensures Encode(PathOf(x, dep)) == Encode(PathOf(y, other)) <==>
      x == y && dep.outpoint == other.outpoint && dep.params.network == other.params.network
  {
    hide Encode;
    EncodeInjective(PathOf(x, dep), PathOf(y, other));
  }

  /** Different places of a deposit's assert scripts hold keys derived from different bytes. */
  lemma {:induction false} PlacesApart(h: nat, dep: Deposit, x: Item, j: nat, k: nat, y: Item, l: nat, m: nat)
    requires IsAt(h, x, j, k) && IsAt(h, y, l, m)
    requires Encodable(PathOf(x, dep)) && Encodable(PathOf(y, dep))
    ensures Encode(PathOf(x, dep)) == Encode(PathOf(y, dep)) <==> (j, k) == (l, m)
  {
    hide Encode; hide Encodable; hide PathOf;
    KeyBytes(x, y, dep, dep);
    FoundAt(h, x, j, k);
    FoundAt(h, y, l, m);
  }

  /** The fixed counts of 381 keys and 36 assert transactions fit together. */
  lemma {:induction false} CountsFit(pubs: nat, h: nat)
    requires pubs == 1 && 3 + pubs + 14 + h == 381
    ensures NumScripts(14, h) == 36
  {
  }
}
