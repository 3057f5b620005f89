/** The compatibility check between actors, with semantic versions and caret requirements. */
module Compatibility {
  import opened Common

  /** A pre-release identifier; `Word` holds its characters. */
  datatype Ident = Number(n: nat) | Word(chars: seq<nat>)

  /** Build metadata does not enter requirements and is left out. */
  datatype Version = Version(major: nat, minor: nat, patch: nat, pre: seq<Ident>)

  datatype Ordering = Less | Equal | Greater

  // ---------------------------------------------------------------- precedence

  function CompareNat(a: nat, b: nat): Ordering {
    if a < b then Less else if a == b then Equal else Greater
  }

  function CompareChars(a: seq<nat>, b: seq<nat>): Ordering {
    if a == [] then (if b == [] then Equal else Less)
    else if b == [] then Greater
    else if a[0] != b[0] then CompareNat(a[0], b[0])
    else CompareChars(a[1..], b[1..])
  }

  function CompareIdent(a: Ident, b: Ident): Ordering {
    match (a, b)
    case (Number(x), Number(y)) => CompareNat(x, y)
    case (Number(_), Word(_)) => Less
    case (Word(_), Number(_)) => Greater
    case (Word(x), Word(y)) => CompareChars(x, y)
  }

  function CompareIdents(a: seq<Ident>, b: seq<Ident>): Ordering {
    if a == [] then (if b == [] then Equal else Less)
    else if b == [] then Greater
    else if a[0] != b[0] then CompareIdent(a[0], b[0])
    else CompareIdents(a[1..], b[1..])
  }

  /** A release is above all its pre-releases. */
  function ComparePre(a: seq<Ident>, b: seq<Ident>): Ordering {
    if a == [] then (if b == [] then Equal else Greater)
    else if b == [] then Less
    else CompareIdents(a, b)
  }

  function Compare(a: Version, b: Version): Ordering {
    if a.major != b.major then CompareNat(a.major, b.major)
    else if a.minor != b.minor then CompareNat(a.minor, b.minor)
    else if a.patch != b.patch then CompareNat(a.patch, b.patch)
    else ComparePre(a.pre, b.pre)
  }

  function Flip(o: Ordering): Ordering {
    match o
    case Less => Greater
    case Equal => Equal
    case Greater => Less
  }

  lemma {:induction false} CharsOrder(a: seq<nat>, b: seq<nat>)
    ensures CompareChars(b, a) == Flip(CompareChars(a, b))
    ensures CompareChars(a, b) == Equal <==> a == b
    decreases |a|
  {
    if a != [] && b != [] {
      assert a == [a[0]] + a[1..] && b == [b[0]] + b[1..];
      CharsOrder(a[1..], b[1..]);
    }
  }

  lemma {:induction false} IdentOrder(a: Ident, b: Ident)
    ensures CompareIdent(b, a) == Flip(CompareIdent(a, b))
    ensures CompareIdent(a, b) == Equal <==> a == b
  {
    if a.Word? && b.Word? {
      CharsOrder(a.chars, b.chars);
    }
  }

  lemma {:induction false} IdentsOrder(a: seq<Ident>, b: seq<Ident>)
    ensures CompareIdents(b, a) == Flip(CompareIdents(a, b))
    ensures CompareIdents(a, b) == Equal <==> a == b
    decreases |a|
  {
    if a != [] && b != [] {
      assert a == [a[0]] + a[1..] && b == [b[0]] + b[1..];
      IdentOrder(a[0], b[0]);
      IdentsOrder(a[1..], b[1..]);
    }
  }

  lemma {:induction false} CharsChain(a: seq<nat>, b: seq<nat>, c: seq<nat>)
    requires CompareChars(a, b) == Less && CompareChars(b, c) == Less
    ensures CompareChars(a, c) == Less
    decreases |a|
  {
    if a != [] && a[0] == b[0] == c[0] {
      CharsChain(a[1..], b[1..], c[1..]);
    }
  }

  lemma {:induction false} IdentChain(a: Ident, b: Ident, c: Ident)
    requires CompareIdent(a, b) == Less && CompareIdent(b, c) == Less
    ensures CompareIdent(a, c) == Less
  {
    if a.Word? {
      CharsChain(a.chars, b.chars, c.chars);
    }
  }

  lemma {:induction false} IdentsChain(a: seq<Ident>, b: seq<Ident>, c: seq<Ident>)
    requires CompareIdents(a, b) == Less && CompareIdents(b, c) == Less
    ensures CompareIdents(a, c) == Less
    decreases |a|
  {
    if a != [] {
      IdentOrder(a[0], c[0]);
      IdentOrder(a[0], b[0]);
      if a[0] == b[0] == c[0] {
        IdentsChain(a[1..], b[1..], c[1..]);
      } else if a[0] != b[0] && b[0] != c[0] {
        IdentChain(a[0], b[0], c[0]);
      }
    }
  }

  /** Precedence is a total order. */
  lemma {:induction false} VersionOrder(a: Version, b: Version, c: Version)
    ensures Compare(b, a) == Flip(Compare(a, b))
    ensures Compare(a, b) == Equal <==> a == b
    ensures Compare(a, b) == Less && Compare(b, c) == Less ==> Compare(a, c) == Less
  {
    IdentsOrder(a.pre, b.pre);
    if a.pre != [] && b.pre != [] && CompareIdents(a.pre, b.pre) == Less && CompareIdents(b.pre, c.pre) == Less {
      IdentsChain(a.pre, b.pre, c.pre);
    }
  }

  function Min(a: Version, b: Version): Version {
    if Compare(a, b) == Greater then b else a
  }

  function Max(a: Version, b: Version): Version {
    if Compare(a, b) == Greater then a else b
  }

  // ---------------------------------------------------------------- precedence as the standard states it

  /** The lists agree before `n` and there `a` ends or has the lower entry. */
  ghost predicate CharsDiffer(a: seq<nat>, b: seq<nat>, n: nat) {
    n <= |a| && n < |b| && a[..n] == b[..n] && (n < |a| ==> a[n] < b[n])
  }

  /** Section 11 of Semantic Versioning 2.0.0: numbers before words, numbers by value, words by
      their characters. */
  ghost predicate IdentLess(a: Ident, b: Ident) {
    || (a.Number? && b.Number? && a.n < b.n)
    || (a.Number? && b.Word?)
    || (a.Word? && b.Word? && exists n: nat :: CharsDiffer(a.chars, b.chars, n))
  }

  ghost predicate IdentsDiffer(a: seq<Ident>, b: seq<Ident>, n: nat) {
    n <= |a| && n < |b| && a[..n] == b[..n] && (n < |a| ==> IdentLess(a[n], b[n]))
  }

  /** A pre-release comes before its release, and pre-releases by their first difference. */
  ghost predicate VersionLess(a: Version, b: Version) {
    if a.major != b.major then a.major < b.major
    else if a.minor != b.minor then a.minor < b.minor
    else if a.patch != b.patch then a.patch < b.patch
    else a.pre != [] && (b.pre == [] || exists n: nat :: IdentsDiffer(a.pre, b.pre, n))
  }

  lemma {:induction false} CharsMeans(a: seq<nat>, b: seq<nat>)
    ensures CompareChars(a, b) == Less <==> exists n: nat :: CharsDiffer(a, b, n)
    decreases |a|
  {
    if a == [] && b != [] {
      assert CharsDiffer(a, b, 0);
    } else if a != [] && b != [] {
      CharsMeans(a[1..], b[1..]);
      if a[0] < b[0] {
        assert CharsDiffer(a, b, 0);
      }
      if n: nat :| CharsDiffer(a, b, n) && n > 0 {
        assert a[0] == a[..n][0] == b[..n][0] == b[0];
        assert a[1..][..n - 1] == a[..n][1..] && b[1..][..n - 1] == b[..n][1..];
        assert CharsDiffer(a[1..], b[1..], n - 1);
      }
      if a[0] == b[0] {
        if n: nat :| CharsDiffer(a[1..], b[1..], n) {
          assert a[..n + 1] == [a[0]] + a[1..][..n] && b[..n + 1] == [b[0]] + b[1..][..n];
          assert CharsDiffer(a, b, n + 1);
        }
      }
    }
  }

  lemma {:induction false} IdentMeans(a: Ident, b: Ident)
    ensures CompareIdent(a, b) == Less <==> IdentLess(a, b)
  {
    if a.Word? && b.Word? {
      CharsMeans(a.chars, b.chars);
    }
  }

  lemma {:induction false} IdentsMeans(a: seq<Ident>, b: seq<Ident>)
    ensures CompareIdents(a, b) == Less <==> exists n: nat :: IdentsDiffer(a, b, n)
    decreases |a|
  {
    hide CompareIdent; hide IdentLess;
    if a == [] && b != [] {
      assert IdentsDiffer(a, b, 0);
    } else if a != [] && b != [] {
      IdentsMeans(a[1..], b[1..]);
      IdentMeans(a[0], b[0]);
      IdentOrder(a[0], b[0]);
      if IdentLess(a[0], b[0]) {
        assert IdentsDiffer(a, b, 0);
      }
      if n: nat :| IdentsDiffer(a, b, n) && n > 0 {
        assert a[0] == a[..n][0] == b[..n][0] == b[0];
        assert a[1..][..n - 1] == a[..n][1..] && b[1..][..n - 1] == b[..n][1..];
        assert IdentsDiffer(a[1..], b[1..], n - 1);
      }
      if a[0] == b[0] {
        if n: nat :| IdentsDiffer(a[1..], b[1..], n) {
          assert a[..n + 1] == [a[0]] + a[1..][..n] && b[..n + 1] == [b[0]] + b[1..][..n];
          assert IdentsDiffer(a, b, n + 1);
        }
      }
    }
  }

  /** The comparison is that precedence. */
  lemma {:induction false} PrecedenceMeans(a: Version, b: Version)
    ensures Compare(a, b) == Less <==> VersionLess(a, b)
    ensures Max(a, b) == (if VersionLess(b, a) then a else b) && Min(a, b) == (if VersionLess(b, a) then b else a)
  {
    IdentsMeans(a.pre, b.pre);
    IdentsMeans(b.pre, a.pre);
    VersionOrder(a, b, a);
    hide CompareIdents; hide IdentsDiffer;
  }

  // ---------------------------------------------------------------- caret requirements

  predicate SameTriple(a: Version, b: Version) {
    a.major == b.major && a.minor == b.minor && a.patch == b.patch
  }

  /** The comparison part of `^req`: nothing may change left of the first non-zero number. */
  predicate CaretMatches(req: Version, ver: Version) {
    if ver.major != req.major then false
    else if req.major > 0 && ver.minor != req.minor then ver.minor > req.minor
    else if req.major > 0 && ver.patch != req.patch then ver.patch > req.patch
    else if req.major == 0 && ver.minor != req.minor then false
    else if req.major == 0 && req.minor > 0 && ver.patch != req.patch then ver.patch > req.patch
    else if req.major == 0 && req.minor == 0 && ver.patch != req.patch then false
    else ComparePre(ver.pre, req.pre) != Less
  }

  /** A pre-release only matches a requirement on a pre-release of the same version. */
  predicate Matches(req: Version, ver: Version) {
    CaretMatches(req, ver) && (ver.pre != [] ==> SameTriple(req, ver) && req.pre != [])
  }

  /** The version part of `is_compatible`. */
  predicate VersionsCompatible(a: Version, b: Version) {
    Matches(Min(a, b), Max(a, b))
  }

  // ---------------------------------------------------------------- the relation

  /** Two versions are compatible exactly when they agree up to the first non-zero number, and the
      later one is a release or differs from the other only in the pre-release part. */
  lemma {:induction false} CompatibleExactly(a: Version, b: Version)
    ensures VersionsCompatible(a, b) <==>
      && a.major == b.major && (a.major == 0 ==> a.minor == b.minor && (a.minor == 0 ==> a.patch == b.patch))
      && ((if VersionLess(b, a) then a else b).pre == [] || (a.minor == b.minor && a.patch == b.patch))
    ensures (if VersionLess(b, a) then a else b) == Max(a, b)
  {
    PrecedenceMeans(a, b);
    VersionOrder(a, b, a);
    IdentsOrder(a.pre, b.pre);
    hide VersionLess; hide CompareIdents;
  }

  lemma {:induction false} CompatibleSymmetric(a: Version, b: Version)
    ensures VersionsCompatible(a, b) == VersionsCompatible(b, a)
  {
    VersionOrder(a, b, a);
  }

  /** Over releases compatibility is an equivalence. */
  lemma {:induction false} ReleasesEquivalence(a: Version, b: Version, c: Version)
    requires a.pre == b.pre == c.pre == []
    ensures VersionsCompatible(a, a)
    ensures VersionsCompatible(a, b) == VersionsCompatible(b, a)
    ensures VersionsCompatible(a, b) && VersionsCompatible(b, c) ==> VersionsCompatible(a, c)
  {
    CompatibleExactly(a, a);
    CompatibleExactly(a, b);
    CompatibleExactly(b, a);
    CompatibleExactly(b, c);
    CompatibleExactly(a, c);
  }

  /** With pre-releases it is not transitive. */
  lemma {:induction false} PreReleasesNotTransitive()
    ensures var old_, hub, beta := Version(1, 0, 0, []), Version(1, 1, 0, []), Version(1, 1, 0, [Word([98])]);
            VersionsCompatible(hub, old_) && VersionsCompatible(hub, beta) && !VersionsCompatible(old_, beta)
  {
    var old_, hub, beta := Version(1, 0, 0, []), Version(1, 1, 0, []), Version(1, 1, 0, [Word([98])]);
    CompatibleExactly(hub, old_);
    CompatibleExactly(hub, beta);
    CompatibleExactly(old_, beta);
  }

  /** From version 1 on, releases that differ in the minor number are compatible. */
  lemma {:induction false} MinorMayDiffer(a: Version, b: Version)
    requires a.pre == b.pre == [] && a.major == b.major > 0
    ensures VersionsCompatible(a, b)
  {
    CompatibleExactly(a, b);
  }

  // ---------------------------------------------------------------- actors

  /** The compared parameters; a version that does not parse is none. */
  datatype Params = Params(paramset: nat, council: nat, chainId: nat, circuit: nat, cache: nat, version: Option<Version>)

  datatype Reason = ParamsetMismatch | CouncilMismatch | ChainIdMismatch | CircuitMismatch | CacheMismatch | VersionMismatch

  datatype Verdict = Compatible | BadVersion | Mismatch(reasons: seq<Reason>)

  predicate SameConfig(a: Params, b: Params) {
    a.paramset == b.paramset && a.council == b.council && a.chainId == b.chainId && a.circuit == b.circuit && a.cache == b.cache
  }

  /** `checked` is false when the version check is switched off. */
  predicate Accepts(a: Params, b: Params, checked: bool) {
    SameConfig(a, b) && (checked ==> a.version.Some? && b.version.Some? && VersionsCompatible(a.version.value, b.version.value))
  }

  /** One more reason, if the two differ there. */
  function Push(reasons: seq<Reason>, differs: bool, reason: Reason): (s: seq<Reason>)
    ensures forall r :: r in s <==> r in reasons || (differs && r == reason)
    ensures s == [] <==> reasons == [] && !differs
  {
    if differs then reasons + [reason] else reasons
  }

  /** `CompatibilityParams::is_compatible`. */
  method IsCompatible(a: Params, b: Params, checked: bool) returns (v: Verdict)
    ensures v == Compatible <==> Accepts(a, b, checked)
    ensures v == Compatible <==>
      && a.paramset == b.paramset && a.council == b.council && a.chainId == b.chainId && a.circuit == b.circuit && a.cache == b.cache
      && (checked ==> a.version.Some? && b.version.Some? && VersionsCompatible(a.version.value, b.version.value))
    ensures v == BadVersion <==> checked && (a.version.None? || b.version.None?)
    ensures v.Mismatch? ==>
      && (ParamsetMismatch in v.reasons <==> a.paramset != b.paramset) && (CouncilMismatch in v.reasons <==> a.council != b.council)
      && (ChainIdMismatch in v.reasons <==> a.chainId != b.chainId) && (CircuitMismatch in v.reasons <==> a.circuit != b.circuit)
      && (CacheMismatch in v.reasons <==> a.cache != b.cache)
      && (VersionMismatch in v.reasons <==> checked && !VersionsCompatible(a.version.value, b.version.value))
  {
    hide Push;
    var reasons := Push([], a.paramset != b.paramset, ParamsetMismatch);
    reasons := Push(reasons, a.council != b.council, CouncilMismatch);
    reasons := Push(reasons, a.chainId != b.chainId, ChainIdMismatch);
    reasons := Push(reasons, a.circuit != b.circuit, CircuitMismatch);
    reasons := Push(reasons, a.cache != b.cache, CacheMismatch);
    if checked {
      if a.version.None? || b.version.None? {
        return BadVersion;
      }
      var ok := Matches(Min(a.version.value, b.version.value), Max(a.version.value, b.version.value));
      reasons := Push(reasons, !ok, VersionMismatch);
    }
    v := if reasons == [] then Compatible else Mismatch(reasons);
  }

  /** `ActorWithConfig::is_compatible`: the numbers of the actors that are not accepted. */
  method AllCompatible(own: Params, others: seq<Params>, checked: bool) returns (refused: seq<nat>)
    ensures refused == [] <==> forall i :: 0 <= i < |others| ==> Accepts(own, others[i], checked)
    ensures forall i: nat :: i in refused <==> i < |others| && !Accepts(own, others[i], checked)
  {
    refused := [];
    for i := 0 to |others|
      invariant forall k :: k in refused ==> k < i
      invariant forall k: nat :: k < i ==> (k in refused <==> !Accepts(own, others[k], checked))
    {
      var v := IsCompatible(own, others[i], checked);
      if v != Compatible {
        refused := refused + [i];
      }
    }
    if refused != [] {
      assert refused[0] in refused;
    }
  }

  /** The later of two versions is a release, or both are the same up to the pre-release part. */
  predicate PairOk(a: Params, b: Params) {
    a.version.Some? && b.version.Some? ==>
      Max(a.version.value, b.version.value).pre == [] || SameTriple(a.version.value, b.version.value)
  }

  lemma {:induction false} SharedHub(own: Params, a: Params, b: Params, checked: bool)
    requires Accepts(own, a, checked) && Accepts(own, b, checked)
    ensures Accepts(a, b, checked) <==> (checked ==> PairOk(a, b))
  {
    if checked {
      CompatibleExactly(own.version.value, a.version.value);
      CompatibleExactly(own.version.value, b.version.value);
      CompatibleExactly(a.version.value, b.version.value);
    }
  }

  /** If one actor accepts all, then every two accept each other exactly when, with the version
      check on, no two are a pre-release and an earlier version it does not belong to. */
  lemma {:induction false} StarIsClique(own: Params, others: seq<Params>, checked: bool)
    requires forall i :: 0 <= i < |others| ==> Accepts(own, others[i], checked)
    ensures (forall i, j :: 0 <= i < |others| && 0 <= j < |others| ==> Accepts(others[i], others[j], checked)) <==>
            (checked ==> forall i, j :: 0 <= i < |others| && 0 <= j < |others| ==> PairOk(others[i], others[j]))
  {
    hide Accepts; hide PairOk;
    forall i, j | 0 <= i < |others| && 0 <= j < |others|
      ensures Accepts(others[i], others[j], checked) <==> (checked ==> PairOk(others[i], others[j]))
    {
      SharedHub(own, others[i], others[j], checked);
    }
  }

  predicate IsRelease(p: Params) {
    p.version.Some? && p.version.value.pre == []
  }

  /** In particular among releases. */
  lemma {:induction false} ReleaseStarIsClique(own: Params, others: seq<Params>, i: nat, j: nat)
    requires forall k :: 0 <= k < |others| ==> Accepts(own, others[k], true) && IsRelease(others[k])
    requires i < |others| && j < |others|
    ensures Accepts(others[i], others[j], true)
  {
    SharedHub(own, others[i], others[j], true);
  }
}
