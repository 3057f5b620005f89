/** Taproot signing with tweak caches. Keys are their discrete logarithms; which of a point and its
    negation has even Y, the tweak hash and Schnorr signatures are left abstract. */
module TaprootSigning {
  import opened Common

  type Root = Option<nat>

  /** The curve's order, the parity of a point, the tweak hash, and signatures. */
  datatype Crypto<!S> = Crypto(
    order: nat,
    evenY: nat -> bool,
    tapTweak: (nat, Root) -> nat,
    sign: (nat, nat) -> S,
    verify: (S, nat, nat) -> bool)

  ghost predicate IsKey<S>(c: Crypto<S>, sk: nat) {
    0 < sk < c.order
  }

  /** A point and its negation differ in parity, and a signature verifies under the x-only key of
      its signer. */
  ghost predicate CryptoOk<S(!new)>(c: Crypto<S>) {
    && c.order > 1
    && (forall sk: nat :: IsKey(c, sk) ==> c.evenY(sk) != c.evenY(c.order - sk))
    && (forall sk: nat, m: nat :: IsKey(c, sk) ==> c.verify(c.sign(sk, m), m, XOnly(c, sk)))
  }

  /** The x-only key of `sk`: the one of `sk` and its negation with even Y. */
  function XOnly<S>(c: Crypto<S>, sk: nat): nat
    requires sk <= c.order
  {
    if c.evenY(sk) then sk else c.order - sk
  }

  /** The assumptions can be met: order three, signatures that name their signer. */
  function ToyCrypto(): Crypto<nat> {
    Crypto(3, sk => sk == 1, (x, _) => x, (sk, _) => if sk == 1 then 1 else if sk <= 3 then 3 - sk else 0, (sig, _, x) => sig == x)
  }

  lemma {:induction false} ToyCryptoOk()
    ensures CryptoOk(ToyCrypto())
  {
    var c := ToyCrypto();
    forall sk: nat | IsKey(c, sk) ensures c.evenY(sk) != c.evenY(c.order - sk) {
      assert sk == 1 || sk == 2;
    }
  }

  function AddTweak<S>(c: Crypto<S>, x: nat, root: Root): Option<nat>
    requires c.order > 1
  {
    var d := (x + c.tapTweak(x, root)) % c.order;
    if d == 0 then None else Some(d)
  }

  /** `calc_tweaked_keypair`: negate an odd key, then add the tweak of its x-only key. */
  function TweakedKeypair<S>(c: Crypto<S>, sk: nat, root: Root): Option<nat>
    requires c.order > 1 && sk <= c.order
  {
    AddTweak(c, XOnly(c, sk), root)
  }

  /** `calc_tweaked_xonly_pk`. */
  function TweakedXOnly<S>(c: Crypto<S>, x: nat, root: Root): Option<nat>
    requires c.order > 1
  {
    var d := AddTweak(c, x, root);
    if d.None? then None else Some(XOnly(c, d.value))
  }

  /** An x-only key is the even one of a key and its negation; two keypairs share it exactly if
      they are equal or negations of each other. */
  lemma {:induction false} SharedXOnly<S(!new)>(c: Crypto<S>, a: nat, b: nat)
    requires CryptoOk(c) && IsKey(c, a) && IsKey(c, b)
    ensures c.evenY(XOnly(c, a)) && (XOnly(c, a) == a || XOnly(c, a) == c.order - a)
    ensures XOnly(c, a) == XOnly(c, b) <==> b == a || b == c.order - a
  {
    assert c.evenY(a) != c.evenY(c.order - a);
    assert c.evenY(b) != c.evenY(c.order - b);
  }

  /** BIP 341: `d` is the key `x` with the tweak for `x` and `root` added. */
  ghost predicate IsTweaked<S>(c: Crypto<S>, x: nat, root: Root, d: nat)
    requires c.order > 1
  {
    0 < d < c.order && (d - x) % c.order == c.tapTweak(x, root) % c.order
  }

  /** Adding `t` to `x` modulo `n` gives the only number below `n` that differs from `x` by `t`. */
  lemma {:induction false} ModAdd(x: nat, t: nat, n: nat, d: nat)
    requires n > 0 && d < n
    ensures (d - x) % n == t % n <==> d == (x + t) % n
  {
    var e := (x + t) % n;
    assert e - x + n * ((x + t) / n) == t;
    ModShift(e - x, t, n, (x + t) / n);
    if (d - x) % n == t % n {
      SameRest(d - x, e - x, n);
    }
  }

  lemma {:induction false} ModShift(a: int, t: nat, n: nat, k: int)
    requires n > 0 && a + n * k == t
    ensures a % n == t % n
  {
    var q, r := a / n, a % n;
    assert n * (q + k) == n * q + n * k;
    DivUnique(t, n, q + k, r);
  }

  lemma {:induction false} DivUnique(t: int, n: nat, q: int, r: int)
    requires n > 0 && 0 <= r < n && t == n * q + r
    ensures t % n == r
  {
    assert n * (t / n - q) == n * (t / n) - n * q;
    SmallMultiple(r - t % n, n, t / n - q);
  }

  /** Numbers less than `n` apart with the same remainder are equal. */
  lemma {:induction false} SameRest(a: int, b: int, n: int)
    requires n > 0 && -n < a - b < n && a % n == b % n
    ensures a == b
  {
    assert n * (a / n - b / n) == n * (a / n) - n * (b / n);
    SmallMultiple(a - b, n, a / n - b / n);
  }

  lemma {:induction false} SmallMultiple(a: int, n: int, q: int)
    requires n > 0 && -n < a < n && a == n * q
    ensures a == 0
  {
    if q >= 1 {
      MulAtLeast(n, q);
    } else if q <= -1 {
      MulAtLeast(n, -q);
    }
  }

  lemma {:induction false} MulAtLeast(n: int, q: int)
    requires n > 0 && q >= 1
    ensures n * q >= n
  {
  }

  /** The tweaked keypair of `sk` and the tweaked key of `x` are what BIP 341 says. */
  lemma {:induction false} TweakRelation<S(!new)>(c: Crypto<S>, x: nat, root: Root)
    requires CryptoOk(c)
    ensures forall d: nat :: AddTweak(c, x, root) == Some(d) <==> IsTweaked(c, x, root, d)
    ensures forall k: nat :: TweakedXOnly(c, x, root) == Some(k) <==> exists d :: IsTweaked(c, x, root, d) && k == XOnly(c, d)
    ensures TweakedXOnly(c, x, root).None? ==> forall d :: !IsTweaked(c, x, root, d)
  {
    forall d: nat ensures AddTweak(c, x, root) == Some(d) <==> IsTweaked(c, x, root, d) {
      if d < c.order {
        ModAdd(x, c.tapTweak(x, root), c.order, d);
      }
    }
    hide IsTweaked;
    var a := AddTweak(c, x, root);
    if a.Some? {
      assert IsTweaked(c, x, root, a.value);
    }
  }

  lemma {:induction false} KeypairRelation<S(!new)>(c: Crypto<S>, sk: nat, root: Root, d: nat)
    requires CryptoOk(c) && IsKey(c, sk)
    ensures TweakedKeypair(c, sk, root) == Some(d) <==> IsTweaked(c, XOnly(c, sk), root, d)
  {
    TweakRelation(c, XOnly(c, sk), root);
  }

  /** Roots with different tweaks give different keypairs. */
  lemma {:induction false} RootsMatter<S(!new)>(c: Crypto<S>, sk: nat, root: Root, other: Root, d: nat)
    requires CryptoOk(c) && IsKey(c, sk) && TweakedKeypair(c, sk, root) == Some(d)
    requires c.tapTweak(XOnly(c, sk), root) % c.order != c.tapTweak(XOnly(c, sk), other) % c.order
    ensures TweakedKeypair(c, sk, other) != Some(d)
  {
    KeypairRelation(c, sk, root, d);
    KeypairRelation(c, sk, other, d);
  }

  /** A signature with the tweaked keypair verifies under the tweaked x-only key. */
  lemma {:induction false} TweakedSignature<S(!new)>(c: Crypto<S>, sk: nat, root: Root, m: nat)
    requires CryptoOk(c) && IsKey(c, sk)
    ensures TweakedKeypair(c, sk, root).Some? <==> TweakedXOnly(c, XOnly(c, sk), root).Some?
    ensures TweakedKeypair(c, sk, root).Some? ==>
      c.verify(c.sign(TweakedKeypair(c, sk, root).value, m), m, TweakedXOnly(c, XOnly(c, sk), root).value)
  {
    var d := TweakedKeypair(c, sk, root);
    if d.Some? {
      assert IsKey(c, d.value);
    }
  }

  // ---------------------------------------------------------------- the caches

  class TweakCache<!S(!new)> {
    const c: Crypto<S>
    var keys: map<(nat, Root), nat>
    var keypairs: map<(nat, Root), nat>

    constructor (c: Crypto<S>)
      requires CryptoOk(c)
      ensures this.c == c && Valid()
    {
      this.c, keys, keypairs := c, map[], map[];
    }

    /** Every entry is what direct computation from its key gives. */
    ghost predicate Valid()
      reads this
    {
      && CryptoOk(c)
      && (forall k :: k in keys ==> TweakedXOnly(c, k.0, k.1) == Some(keys[k]))
      && (forall k :: k in keypairs ==> AddTweak(c, k.0, k.1) == Some(keypairs[k]))
    }

    /** Agrees with direct computation, whichever keypair with the same x-only key filled the
        entry. */
    method GetTweakedKeypair(sk: nat, root: Root) returns (r: Option<nat>)
      requires Valid() && IsKey(c, sk)
      modifies this
      ensures Valid() && r == TweakedKeypair(c, sk, root)
      ensures forall d: nat :: r == Some(d) <==> IsTweaked(c, XOnly(c, sk), root, d)
      ensures keys == old(keys) && keypairs == if r.Some? then old(keypairs)[(XOnly(c, sk), root) := r.value] else old(keypairs)
    {
      TweakRelation(c, XOnly(c, sk), root);
      var entry := (XOnly(c, sk), root);
      if entry in keypairs {
        assert keypairs == keypairs[entry := keypairs[entry]];
        return Some(keypairs[entry]);
      }
      r := TweakedKeypair(c, sk, root);
      if r.Some? {
        keypairs := keypairs[entry := r.value];
      }
    }

    method GetTweakedXOnly(x: nat, root: Root) returns (r: Option<nat>)
      requires Valid()
      modifies this
      ensures Valid() && r == TweakedXOnly(c, x, root)
      ensures forall k: nat :: r == Some(k) <==> exists d :: IsTweaked(c, x, root, d) && k == XOnly(c, d)
      ensures keypairs == old(keypairs) && keys == if r.Some? then old(keys)[(x, root) := r.value] else old(keys)
    {
      TweakRelation(c, x, root);
      if (x, root) in keys {
        assert keys == keys[(x, root) := keys[(x, root)]];
        return Some(keys[(x, root)]);
      }
      r := TweakedXOnly(c, x, root);
      if r.Some? {
        keys := keys[(x, root) := r.value];
      }
    }
  }

  // ---------------------------------------------------------------- verification

  datatype TweakData = KeyPath(root: Root) | ScriptPath | Unknown

  /** The key a signature for `x` is checked against. */
  function CheckedKey<S>(c: Crypto<S>, x: nat, tweak: TweakData): Option<nat>
    requires c.order > 1
  {
    match tweak
    case KeyPath(root) => TweakedXOnly(c, x, root)
    case ScriptPath => Some(x)
    case Unknown => None
  }

  /** `verify_schnorr`: the same answer with a cache and without. */
  method VerifySchnorr<S(!new)>(c: Crypto<S>, sig: S, m: nat, x: nat, tweak: TweakData, cache: TweakCache?<S>) returns (ok: bool)
    requires CryptoOk(c) && (cache != null ==> cache.Valid() && cache.c == c)
    modifies cache
    ensures cache != null ==> cache.Valid()
    ensures ok <==> CheckedKey(c, x, tweak).Some? && c.verify(sig, m, CheckedKey(c, x, tweak).value)
    ensures tweak.Unknown? ==> !ok
    ensures tweak.ScriptPath? ==> (ok <==> c.verify(sig, m, x))
    ensures tweak.KeyPath? ==> (ok <==> exists d :: IsTweaked(c, x, tweak.root, d) && c.verify(sig, m, XOnly(c, d)))
  {
    if tweak.KeyPath? {
      TweakRelation(c, x, tweak.root);
    }
    hide TweakedXOnly; hide IsTweaked;
    var key: Option<nat>;
    match tweak {
      case KeyPath(root) =>
        if cache != null {
          key := cache.GetTweakedXOnly(x, root);
        } else {
          key := TweakedXOnly(c, x, root);
        }
      case ScriptPath => key := Some(x);
      case Unknown => key := None;
    }
    ok := key.Some? && c.verify(sig, m, key.value);
  }

  /** `sign_with_tweak`: none if the tweak cannot be added. */
  method SignWithTweak<S(!new)>(c: Crypto<S>, sk: nat, m: nat, root: Root, cache: TweakCache?<S>) returns (sig: Option<S>)
    requires CryptoOk(c) && IsKey(c, sk) && (cache != null ==> cache.Valid() && cache.c == c)
    modifies cache
    ensures cache != null ==> cache.Valid()
    ensures sig.Some? <==> TweakedXOnly(c, XOnly(c, sk), root).Some?
    ensures sig.Some? ==> c.verify(sig.value, m, TweakedXOnly(c, XOnly(c, sk), root).value)
    ensures sig.Some? <==> exists d :: IsTweaked(c, XOnly(c, sk), root, d)
    ensures sig.Some? ==> exists d :: IsTweaked(c, XOnly(c, sk), root, d) && c.verify(sig.value, m, XOnly(c, d))
  {
    TweakRelation(c, XOnly(c, sk), root);
    hide IsTweaked;
    var d: Option<nat>;
    if cache != null {
      d := cache.GetTweakedKeypair(sk, root);
    } else {
      d := TweakedKeypair(c, sk, root);
    }
    TweakedSignature(c, sk, root, m);
    sig := if d.Some? then Some(c.sign(d.value, m)) else None;
  }

  // ---------------------------------------------------------------- inputs to sign

  /** `Keyed` is a deposit, replacement-deposit or check-signature script; `Other` is filled in
      elsewhere. */
  datatype Script = Keyed(key: nat) | Timelock(owner: Option<nat>) | Other

  datatype SpendPath = ScriptSpend(index: nat) | KeySpend | NoPath

  datatype SpendInfo = SpendInfo(internalKey: nat, root: Root)

  /** An input: `ownerKnown` and `sighash` stand for the calls that may fail, `controlBlock` for
      whether the chosen script is in the spend info. */
  datatype Input = Input(path: SpendPath, scripts: seq<Script>, info: Option<SpendInfo>, id: nat,
                         ownerKnown: bool, sighash: Option<nat>, controlBlock: bool)

  datatype Witness<S> = KeyWitness(sig: S) | ScriptWitness(signature: Option<S>)

  /** A saved signature with its id, none if the bytes are no signature. */
  datatype Saved<S> = Saved(id: Option<nat>, sig: Option<S>)

  /** `get_saved_signature`: the first entry with the id decides. */
  function SavedSignature<S>(id: nat, saved: seq<Saved<S>>): Option<S> {
    if saved == [] then None
    else if saved[0].id == Some(id) then saved[0].sig
    else SavedSignature(id, saved[1..])
  }

  /** The first entry with the id decides; without one there is no signature. */
  lemma {:induction false} SavedFirst<S>(id: nat, saved: seq<Saved<S>>, n: nat)
    requires n <= |saved| && forall k :: 0 <= k < n ==> saved[k].id != Some(id)
    ensures n < |saved| && saved[n].id == Some(id) ==> SavedSignature(id, saved) == saved[n].sig
    ensures n == |saved| ==> SavedSignature(id, saved) == None
    decreases n
  {
    if n > 0 {
      SavedFirst(id, saved[1..], n - 1);
    }
  }

  /** The script-path key whose signature the chosen script asks for. */
  function ScriptKey(i: Input): Option<nat>
    requires i.path.ScriptSpend? && i.path.index < |i.scripts|
  {
    match i.scripts[i.path.index]
    case Keyed(key) => Some(key)
    case Timelock(owner) => owner
    case Other => None
  }

  ghost predicate LeftAlone(i: Input) {
    i.path.ScriptSpend? && i.path.index < |i.scripts| && i.scripts[i.path.index].Other?
  }

  /** The witness satisfies what the input's spend path asks for: a signature of its sighash under
      the tweaked internal key, or under the script's key, or none where the script has no key. */
  ghost predicate Satisfies<S(!new)>(c: Crypto<S>, i: Input, w: Witness<S>)
    requires CryptoOk(c)
  {
    && i.sighash.Some?
    && match w {
         case KeyWitness(sig) =>
           && i.path.KeySpend? && i.info.Some?
           && var key := TweakedXOnly(c, i.info.value.internalKey, i.info.value.root);
              key.Some? && c.verify(sig, i.sighash.value, key.value)
         case ScriptWitness(sig) =>
           && i.path.ScriptSpend? && i.path.index < |i.scripts| && !i.scripts[i.path.index].Other?
           && (sig.Some? <==> ScriptKey(i).Some?)
           && (sig.Some? ==> c.verify(sig.value, i.sighash.value, ScriptKey(i).value))
       }
  }

  /** A signature for script key `key` can be had: a saved one that verifies, or the actor's own. */
  ghost predicate ScriptSigned<S>(c: Crypto<S>, sk: nat, key: nat, m: nat, saved: Option<S>)
    requires sk <= c.order
  {
    if saved.Some? then c.verify(saved.value, m, key) else key == XOnly(c, sk)
  }

  ghost predicate KeySigned<S>(c: Crypto<S>, sk: nat, info: SpendInfo, m: nat, saved: Option<S>)
    requires c.order > 1 && sk <= c.order
  {
    var key := TweakedXOnly(c, info.internalKey, info.root);
    key.Some? && if saved.Some? then c.verify(saved.value, m, key.value) else info.internalKey == XOnly(c, sk)
  }

  /** When signing an input succeeds. */
  ghost predicate CanSign<S>(c: Crypto<S>, sk: nat, i: Input, saved: seq<Saved<S>>)
    requires c.order > 1 && sk <= c.order
  {
    && i.info.Some? && i.ownerKnown && i.sighash.Some?
    && var sig := SavedSignature(i.id, saved);
       match i.path {
         case ScriptSpend(index) =>
           && index < |i.scripts|
           && (i.scripts[index].Other? ||
               (i.controlBlock && (ScriptKey(i).Some? ==> ScriptSigned(c, sk, ScriptKey(i).value, i.sighash.value, sig))))
         case KeySpend => KeySigned(c, sk, i.info.value, i.sighash.value, sig)
         case NoPath => false
       }
  }

  /** Signing by cases: what a spend path needs. `sig` is the saved signature. */
  lemma {:induction false} CanSignMeans<S(!new)>(c: Crypto<S>, sk: nat, i: Input, saved: seq<Saved<S>>, sig: Option<S>, m: nat)
    requires CryptoOk(c) && IsKey(c, sk) && sig == SavedSignature(i.id, saved)
    ensures CanSign(c, sk, i, saved) ==> i.info.Some? && i.ownerKnown && i.sighash.Some? && !i.path.NoPath?
    ensures i.info.Some? && i.ownerKnown && i.sighash == Some(m) && i.path.KeySpend? ==>
      var x, root := i.info.value.internalKey, i.info.value.root;
      (CanSign(c, sk, i, saved) <==>
         exists d :: IsTweaked(c, x, root, d) && (if sig.Some? then c.verify(sig.value, m, XOnly(c, d)) else x == XOnly(c, sk)))
    ensures i.info.Some? && i.ownerKnown && i.sighash == Some(m) && i.path.ScriptSpend? ==>
      && (i.path.index >= |i.scripts| ==> !CanSign(c, sk, i, saved))
      && (i.path.index < |i.scripts| ==>
            var script := i.scripts[i.path.index];
            && (script.Other? ==> CanSign(c, sk, i, saved))
            && (script == Timelock(None) ==> (CanSign(c, sk, i, saved) <==> i.controlBlock))
            && forall key: nat :: script == Keyed(key) || script == Timelock(Some(key)) ==>
                 (CanSign(c, sk, i, saved) <==>
                    i.controlBlock && if sig.Some? then c.verify(sig.value, m, key) else key == XOnly(c, sk)))
  {
    if i.info.Some? && i.path.KeySpend? {
      TweakRelation(c, i.info.value.internalKey, i.info.value.root);
    }
    hide IsTweaked; hide TweakedXOnly; hide CryptoOk; hide SavedSignature;
  }

  /** A satisfying witness by cases. */
  lemma {:induction false} SatisfiesMeans<S(!new)>(c: Crypto<S>, i: Input, w: Witness<S>, m: nat)
    requires CryptoOk(c) && Satisfies(c, i, w) && i.sighash == Some(m)
    ensures i.path.KeySpend? ==>
      && w.KeyWitness? && i.info.Some?
      && exists d :: IsTweaked(c, i.info.value.internalKey, i.info.value.root, d) && c.verify(w.sig, m, XOnly(c, d))
    ensures i.path.ScriptSpend? ==>
      && w.ScriptWitness? && i.path.index < |i.scripts|
      && (i.scripts[i.path.index] == Timelock(None) ==> w.signature.None?)
      && forall key: nat :: i.scripts[i.path.index] == Keyed(key) || i.scripts[i.path.index] == Timelock(Some(key)) ==>
           w.signature.Some? && c.verify(w.signature.value, m, key)
    ensures !i.path.NoPath?
  {
    if i.info.Some? && i.path.KeySpend? {
      TweakRelation(c, i.info.value.internalKey, i.info.value.root);
    }
    hide IsTweaked; hide TweakedXOnly; hide CryptoOk;
  }

  /** Signs for a script's key: the saved signature if it verifies, else the actor's own if the key
      is its own. */
  method SignScript<S(!new)>(c: Crypto<S>, sk: nat, key: nat, m: nat, saved: Option<S>) returns (r: Result<S>)
    requires CryptoOk(c) && IsKey(c, sk)
    ensures r.Ok? <==> ScriptSigned(c, sk, key, m, saved)
    ensures saved.Some? ==> r == if c.verify(saved.value, m, key) then Ok(saved.value) else Err
    ensures saved.None? ==> r == if key == XOnly(c, sk) then Ok(c.sign(sk, m)) else Err
    ensures r.Ok? ==> c.verify(r.value, m, key)
  {
    if saved.Some? {
      var ok := VerifySchnorr(c, saved.value, m, key, ScriptPath, null);
      r := if ok then Ok(saved.value) else Err;
    } else if key == XOnly(c, sk) {
      r := Ok(c.sign(sk, m));
    } else {
      r := Err;
    }
  }

  /** Signs for the tweaked internal key, in the same way. */
  method SignKeySpend<S(!new)>(c: Crypto<S>, sk: nat, info: SpendInfo, m: nat, saved: Option<S>, cache: TweakCache?<S>) returns (r: Result<S>)
    requires CryptoOk(c) && IsKey(c, sk) && (cache != null ==> cache.Valid() && cache.c == c)
    modifies cache
    ensures cache != null ==> cache.Valid()
    ensures r.Ok? ==> var key := TweakedXOnly(c, info.internalKey, info.root); key.Some? && c.verify(r.value, m, key.value)
    ensures r.Ok? <==> KeySigned(c, sk, info, m, saved)
    ensures r.Ok? ==> exists d :: IsTweaked(c, info.internalKey, info.root, d) && c.verify(r.value, m, XOnly(c, d))
    ensures saved.Some? && r.Ok? ==> r.value == saved.value
    ensures saved.None? && r.Ok? ==> info.internalKey == XOnly(c, sk)
  {
    TweakRelation(c, info.internalKey, info.root);
    if saved.Some? {
      var ok := VerifySchnorr(c, saved.value, m, info.internalKey, KeyPath(info.root), null);
      r := if ok then Ok(saved.value) else Err;
    } else if info.internalKey == XOnly(c, sk) {
      var sig := SignWithTweak(c, sk, m, info.root, cache);
      r := if sig.Some? then Ok(sig.value) else Err;
    } else {
      r := Err;
    }
  }

  /** The signer applied to one input; no witness for scripts filled in elsewhere. */
  method SignInput<S(!new)>(c: Crypto<S>, sk: nat, i: Input, saved: seq<Saved<S>>, cache: TweakCache?<S>) returns (r: Result<Option<Witness<S>>>)
    requires CryptoOk(c) && IsKey(c, sk) && (cache != null ==> cache.Valid() && cache.c == c)
    modifies cache
    ensures cache != null ==> cache.Valid()
    ensures r.Ok? ==> if r.value.Some? then Satisfies(c, i, r.value.value) else LeftAlone(i)
    ensures r.Ok? <==> CanSign(c, sk, i, saved)
  {
    if i.info.None? || !i.ownerKnown || i.sighash.None? {
      return Err;
    }
    var sig, m := SavedSignature(i.id, saved), i.sighash.value;
    match i.path {
      case ScriptSpend(index) =>
        if index >= |i.scripts| {
          return Err;
        }
        match i.scripts[index] {
          case Keyed(key) =>
            var s := SignScript(c, sk, key, m, sig);
            if s.Err? || !i.controlBlock {
              return Err;
            }
            r := Ok(Some(ScriptWitness(Some(s.value))));
          case Timelock(owner) =>
            if owner.None? {
              if !i.controlBlock {
                return Err;
              }
              return Ok(Some(ScriptWitness(None)));
            }
            var s := SignScript(c, sk, owner.value, m, sig);
            if s.Err? || !i.controlBlock {
              return Err;
            }
            r := Ok(Some(ScriptWitness(Some(s.value))));
          case Other =>
            r := Ok(None);
        }
      case KeySpend =>
        var s := SignKeySpend(c, sk, i.info.value, m, sig, cache);
        r := if s.Ok? then Ok(Some(KeyWitness(s.value))) else Err;
      case NoPath =>
        r := Err;
    }
  }

  class TxHandler<!S(!new)> {
    const inputs: seq<Input>
    var witnesses: seq<Option<Witness<S>>>

    constructor (inputs: seq<Input>, witnesses: seq<Option<Witness<S>>>)
      requires |witnesses| == |inputs|
      ensures this.inputs == inputs && this.witnesses == witnesses
    {
      this.inputs, this.witnesses := inputs, witnesses;
    }

    /** Witnesses that were there are kept; every one added satisfies its input. */
    ghost predicate Extends(c: Crypto<S>, before: seq<Option<Witness<S>>>)
      requires CryptoOk(c)
      reads this
    {
      && |witnesses| == |inputs| == |before|
      && forall k :: 0 <= k < |inputs| ==>
           if before[k].Some? then witnesses[k] == before[k]
           else witnesses[k].Some? ==> Satisfies(c, inputs[k], witnesses[k].value)
    }

    /** `tx_sign_and_fill_sigs` over `sign_txins`: whether it succeeds or stops at an error, every
        witness it placed satisfies its input's spend path; on success only inputs filled in
        elsewhere are left without one. */
    method TxSignAndFillSigs(c: Crypto<S>, sk: nat, saved: seq<Saved<S>>, cache: TweakCache?<S>) returns (ok: bool)
      requires CryptoOk(c) && IsKey(c, sk) && |witnesses| == |inputs|
      requires cache != null ==> cache.Valid() && cache.c == c
      modifies this, cache
      ensures cache != null ==> cache.Valid()
      ensures Extends(c, old(witnesses))
      ensures ok ==> forall k :: 0 <= k < |inputs| ==> witnesses[k].Some? || LeftAlone(inputs[k])
      ensures ok <==> forall k :: 0 <= k < |inputs| ==> old(witnesses)[k].Some? || CanSign(c, sk, inputs[k], saved)
    {
      for idx := 0 to |inputs|
        invariant cache != null ==> cache.Valid() && cache.c == c
        invariant Extends(c, old(witnesses))
        invariant forall k :: idx <= k < |inputs| ==> witnesses[k] == old(witnesses)[k]
        invariant forall k :: 0 <= k < idx ==> witnesses[k].Some? || LeftAlone(inputs[k])
        invariant forall k :: 0 <= k < idx ==> old(witnesses)[k].Some? || CanSign(c, sk, inputs[k], saved)
      {
        if witnesses[idx].None? {
          var w := SignInput(c, sk, inputs[idx], saved, cache);
          if w.Err? {
            return false;
          }
          if w.value.Some? {
            witnesses := witnesses[idx := w.value];
          }
        }
      }
      ok := true;
    }
  }
}
