/** The byte encoding of Winternitz derivation paths. */
module DerivationPath {
  import opened Common

  datatype Network = Regtest | Testnet4 | Signet | Bitcoin | Testnet

  /** The protocol parameters; all but the network are irrelevant to the encoding. */
  datatype Paramset = Paramset(network: Network, others: nat)

  datatype RoundIndex = Collateral | Round(index: nat)

  datatype OutPoint = OutPoint(txid: seq<Byte>, vout: nat)

  datatype Path =
    | Kickoff(round: RoundIndex, kickoff: nat, params: Paramset)
    | BitvmAssert(messageLength: nat, pkType: nat, pkIndex: nat, deposit: OutPoint, params: Paramset)
    | ChallengeAckHash(watchtower: nat, deposit: OutPoint, params: Paramset)

  const U32_END: nat := 0x1_0000_0000
  const U64_END: nat := 0x1_0000_0000_0000_0000

  function ToIndex(r: RoundIndex): nat {
    match r
    case Collateral => 0
    case Round(i) => i + 1
  }

  /** The ranges of the Rust types; a path on the old testnet makes the code panic. */
  ghost predicate Encodable(p: Path) {
    && p.params.network != Testnet
    && match p {
         case Kickoff(round, kickoff, _) => ToIndex(round) < U64_END && kickoff < U32_END
         case BitvmAssert(length, pkType, pkIndex, deposit, _) =>
           length < U32_END && pkType < U32_END && pkIndex < U32_END && |deposit.txid| == 32 && deposit.vout < U32_END
         case ChallengeAckHash(watchtower, deposit, _) =>
           watchtower < U32_END && |deposit.txid| == 32 && deposit.vout < U32_END
       }
  }

  /** `to_be_bytes`: the `n` low bytes of `v`, most significant first. */
  function BigEndian(v: nat, n: nat): (r: seq<Byte>)
    ensures |r| == n
  {
    if n == 0 then [] else BigEndian(v / 256, n - 1) + [v % 256]
  }

  function Value(b: seq<Byte>): nat {
    if b == [] then 0 else Value(b[..|b| - 1]) * 256 + b[|b| - 1]
  }

  function Pow256(n: nat): nat {
    if n == 0 then 1 else 256 * Pow256(n - 1)
  }

  lemma {:induction false} BigEndianValue(v: nat, n: nat)
    requires v < Pow256(n)
    ensures Value(BigEndian(v, n)) == v
    decreases n
  {
    if n > 0 {
      assert v / 256 < Pow256(n - 1);
      BigEndianValue(v / 256, n - 1);
      var b := BigEndian(v, n);
      assert b[..|b| - 1] == BigEndian(v / 256, n - 1);
    }
  }

  lemma {:induction false} Widths()
    ensures Pow256(4) == U32_END && Pow256(8) == U64_END
  {
    assert Pow256(1) == 256 && Pow256(2) == 0x1_0000 && Pow256(3) == 0x100_0000 && Pow256(4) == U32_END;
    assert Pow256(5) == 256 * U32_END && Pow256(6) == 0x1_0000 * U32_END && Pow256(7) == 0x100_0000 * U32_END;
  }

  /** Two numbers of one width with equal bytes are equal. */
  lemma {:induction false} BigEndianInjective(v: nat, w: nat, n: nat)
    requires v < Pow256(n) && w < Pow256(n) && BigEndian(v, n) == BigEndian(w, n)
    ensures v == w
  {
    BigEndianValue(v, n);
    BigEndianValue(w, n);
  }

  function TypeId(p: Path): Byte {
    match p
    case Kickoff(_, _, _) => 0
    case BitvmAssert(_, _, _, _, _) => 1
    case ChallengeAckHash(_, _, _) => 2
  }

  function NetworkPrefix(n: Network): Byte
    requires n != Testnet
  {
    match n
    case Regtest => 0
    case Testnet4 => 1
    case Signet => 2
    case Bitcoin => 3
  }

  function OutPointBytes(o: OutPoint): seq<Byte> {
    o.txid + BigEndian(o.vout, 4)
  }

  function Fields(p: Path): seq<Byte> {
    match p
    case Kickoff(round, kickoff, _) => BigEndian(ToIndex(round), 8) + BigEndian(kickoff, 4)
    case BitvmAssert(length, pkType, pkIndex, deposit, _) =>
      BigEndian(length, 4) + (BigEndian(pkType, 4) + (BigEndian(pkIndex, 4) + OutPointBytes(deposit)))
    case ChallengeAckHash(watchtower, deposit, _) => BigEndian(watchtower, 4) + OutPointBytes(deposit)
  }

  function Encode(p: Path): seq<Byte>
    requires p.params.network != Testnet
  {
    [TypeId(p), NetworkPrefix(p.params.network)] + Fields(p)
  }

  /** Bytes `from` to `from + 3` as a big-endian number. */
  function Be32(b: seq<Byte>, from: nat): nat
    requires from + 4 <= |b|
  {
    (b[from] as int) * 0x100_0000 + (b[from + 1] as int) * 0x1_0000 + (b[from + 2] as int) * 0x100 + b[from + 3]
  }

  /** The encoding as a reader of the bytes sees it. */
  ghost predicate ReadsAs(b: seq<Byte>, p: Path) {
    && |b| == (if p.Kickoff? then 14 else if p.BitvmAssert? then 50 else 42)
    && b[0] == (if p.Kickoff? then 0 else if p.BitvmAssert? then 1 else 2)
    && (p.params.network == Regtest ==> b[1] == 0) && (p.params.network == Testnet4 ==> b[1] == 1)
    && (p.params.network == Signet ==> b[1] == 2) && (p.params.network == Bitcoin ==> b[1] == 3)
    && (p.Kickoff? ==>
          && Be32(b, 2) * 0x1_0000_0000 + Be32(b, 6) == (if p.round.Collateral? then 0 else p.round.index + 1)
          && Be32(b, 10) == p.kickoff)
    && (p.BitvmAssert? ==>
          && Be32(b, 2) == p.messageLength && Be32(b, 6) == p.pkType && Be32(b, 10) == p.pkIndex
          && b[14..46] == p.deposit.txid && Be32(b, 46) == p.deposit.vout)
    && (p.ChallengeAckHash? ==>
          Be32(b, 2) == p.watchtower && b[6..38] == p.deposit.txid && Be32(b, 38) == p.deposit.vout)
  }

  lemma {:induction false} Unroll4(v: nat)
    ensures BigEndian(v, 4) == [v / 256 / 256 / 256 % 256, v / 256 / 256 % 256, v / 256 % 256, v % 256]
  {
    var a := v / 256;
    var b := a / 256;
    var c := b / 256;
    assert BigEndian(c, 1) == [c % 256];
    assert BigEndian(b, 2) == BigEndian(c, 1) + [b % 256];
    assert BigEndian(a, 3) == BigEndian(b, 2) + [a % 256];
    assert BigEndian(v, 4) == BigEndian(a, 3) + [v % 256];
  }

  lemma {:induction false} BigEndian4(v: nat)
    ensures BigEndian(v, 4) == [v / 0x100_0000 % 256, v / 0x1_0000 % 256, v / 0x100 % 256, v % 256]
  {
    hide BigEndian;
    Unroll4(v);
    assert v / 256 / 256 == v / 0x1_0000;
    assert v / 256 / 256 / 256 == v / 0x100_0000;
  }

  /** A field of four bytes at `from` reads back as its value. */
  lemma {:induction false} Field4(b: seq<Byte>, from: nat, v: nat)
    requires v < U32_END && from + 4 <= |b| && b[from..from + 4] == BigEndian(v, 4)
    ensures Be32(b, from) == v
  {
    BigEndian4(v);
    var f := b[from..from + 4];
    assert b[from] == f[0] && b[from + 1] == f[1] && b[from + 2] == f[2] && b[from + 3] == f[3];
    hide BigEndian;
    Digits(v);
  }

  lemma {:induction false} Digits(v: nat)
    requires v < U32_END
    ensures v / 0x100_0000 % 256 * 0x100_0000 + v / 0x1_0000 % 256 * 0x1_0000 + v / 0x100 % 256 * 0x100 + v % 256 == v
  {
    var a, b, c := v / 256, v / 0x1_0000, v / 0x100_0000;
    assert v == a * 256 + v % 256 && a == b * 256 + a % 256 && b == c * 256 + b % 256 && c % 256 == c;
  }

  /** Eight bytes are two fields of four. */
  lemma {:induction false} BigEndian8(v: nat)
    ensures BigEndian(v, 8) == BigEndian(v / U32_END, 4) + BigEndian(v, 4)
  {
    assert v / 256 / 256 / 256 / 256 == v / U32_END;
    BigEndian4(v);
    var a := v / 256;
    var b := a / 256;
    var c := b / 256;
    assert BigEndian(v, 8) == BigEndian(a, 7) + [v % 256];
    assert BigEndian(a, 7) == BigEndian(b, 6) + [a % 256];
    assert BigEndian(b, 6) == BigEndian(c, 5) + [b % 256];
    assert BigEndian(c, 5) == BigEndian(c / 256, 4) + [c % 256];
  }

  /** Only the low bytes count. */
  lemma {:induction false} LowBytes(v: nat, k: nat, n: nat)
    ensures BigEndian(k * Pow256(n) + v, n) == BigEndian(v, n)
    decreases n
  {
    if n > 0 {
      var p := Pow256(n - 1);
      var w := k * Pow256(n) + v;
      assert k * Pow256(n) == 256 * (k * p) by {
        Assoc(k, p);
      }
      assert w / 256 == k * p + v / 256 && w % 256 == v % 256;
      LowBytes(v / 256, k, n - 1);
    }
  }

  lemma {:induction false} Assoc(k: nat, p: nat)
    ensures k * (256 * p) == 256 * (k * p)
  {
  }

  lemma {:induction false} Low4(v: nat)
    ensures BigEndian(v, 4) == BigEndian(v % U32_END, 4)
  {
    Widths();
    hide BigEndian; hide Pow256;
    LowBytes(v % U32_END, v / U32_END, 4);
  }

  lemma {:induction false} Kickoff8(b: seq<Byte>, v: nat)
    requires v < U64_END && |b| >= 10 && b[2..10] == BigEndian(v, 8)
    ensures Be32(b, 2) * U32_END + Be32(b, 6) == v
  {
    var high, low := v / U32_END, v % U32_END;
    hide BigEndian; hide Be32;
    BigEndian8(v);
    Low4(v);
    assert b[2..6] == b[2..10][..4] && b[6..10] == b[2..10][4..];
    Field4(b, 2, high);
    Field4(b, 6, low);
  }

  /** Taking the field `f` off the front of what is left at `at`. */
  lemma {:induction false} Take(b: seq<Byte>, at: nat, f: seq<Byte>, rest: seq<Byte>)
    requires at <= |b| && b[at..] == f + rest
    ensures |b| == at + |f| + |rest| && b[at..at + |f|] == f && b[at + |f|..] == rest
  {
    assert |b[at..]| == |f| + |rest|;
    assert b[at..at + |f|] == b[at..][..|f|] && b[at + |f|..] == b[at..][|f|..];
  }

  /** The same for a number of four bytes. */
  lemma {:induction false} Take4(b: seq<Byte>, at: nat, v: nat, rest: seq<Byte>)
    requires at <= |b| && v < U32_END && b[at..] == BigEndian(v, 4) + rest
    ensures |b| == at + 4 + |rest| && Be32(b, at) == v && b[at + 4..] == rest
  {
    hide BigEndian; hide Be32;
    Take(b, at, BigEndian(v, 4), rest);
    Field4(b, at, v);
  }

  lemma {:induction false} TakeOutPoint(b: seq<Byte>, at: nat, o: OutPoint)
    requires at <= |b| && |o.txid| == 32 && o.vout < U32_END && b[at..] == OutPointBytes(o)
    ensures |b| == at + 36 && b[at..at + 32] == o.txid && Be32(b, at + 32) == o.vout
  {
    hide BigEndian; hide Be32;
    Take(b, at, o.txid, BigEndian(o.vout, 4));
    assert b[at + 32..] == BigEndian(o.vout, 4) + [];
    Take4(b, at + 32, o.vout, []);
  }

  lemma {:induction false} HeadReads(p: Path)
    requires Encodable(p)
    ensures Encode(p)[0] == TypeId(p) && Encode(p)[1] == NetworkPrefix(p.params.network) && Encode(p)[2..] == Fields(p)
  {
    hide Fields;
  }

  lemma {:induction false} KickoffReads(p: Path)
    requires Encodable(p) && p.Kickoff?
    ensures ReadsAs(Encode(p), p)
  {
    HeadReads(p);
    hide BigEndian; hide Be32; hide Encode;
    var b := Encode(p);
    Take(b, 2, BigEndian(ToIndex(p.round), 8), BigEndian(p.kickoff, 4));
    Kickoff8(b, ToIndex(p.round));
    assert b[10..] == BigEndian(p.kickoff, 4) + [];
    Take4(b, 10, p.kickoff, []);
  }

  lemma {:induction false} AssertReads(p: Path)
    requires Encodable(p) && p.BitvmAssert?
    ensures ReadsAs(Encode(p), p)
  {
    HeadReads(p);
    hide BigEndian; hide Be32; hide Encode; hide OutPointBytes;
    var b := Encode(p);
    Take4(b, 2, p.messageLength, BigEndian(p.pkType, 4) + (BigEndian(p.pkIndex, 4) + OutPointBytes(p.deposit)));
    Take4(b, 6, p.pkType, BigEndian(p.pkIndex, 4) + OutPointBytes(p.deposit));
    Take4(b, 10, p.pkIndex, OutPointBytes(p.deposit));
    TakeOutPoint(b, 14, p.deposit);
  }

  lemma {:induction false} AckReads(p: Path)
    requires Encodable(p) && p.ChallengeAckHash?
    ensures ReadsAs(Encode(p), p)
  {
    HeadReads(p);
    hide BigEndian; hide Be32; hide Encode; hide OutPointBytes;
    var b := Encode(p);
    Take4(b, 2, p.watchtower, OutPointBytes(p.deposit));
    TakeOutPoint(b, 6, p.deposit);
  }

  /** The encoding reads back as variant, network, numbers and outpoint. */
  lemma {:induction false} EncodeReads(p: Path)
    requires Encodable(p)
    ensures ReadsAs(Encode(p), p)
  {
    hide *;
    match p
    case Kickoff(_, _, _) => KickoffReads(p);
    case BitvmAssert(_, _, _, _, _) => AssertReads(p);
    case ChallengeAckHash(_, _, _) => AckReads(p);
  }

  /** `to_bytes`, extending a buffer field by field. */
  method ToBytes(p: Path) returns (bytes: seq<Byte>)
    requires p.params.network != Testnet
    ensures bytes == Encode(p)
    ensures Encodable(p) ==> ReadsAs(bytes, p)
  {
    if Encodable(p) {
      EncodeReads(p);
    }
    hide Encodable; hide ReadsAs;
    bytes := [TypeId(p), NetworkPrefix(p.params.network)];
    match p
    case Kickoff(round, kickoff, _) =>
      bytes := bytes + BigEndian(ToIndex(round), 8);
      bytes := bytes + BigEndian(kickoff, 4);
    case BitvmAssert(length, pkType, pkIndex, deposit, _) =>
      bytes := bytes + BigEndian(length, 4);
      bytes := bytes + BigEndian(pkType, 4);
      bytes := bytes + BigEndian(pkIndex, 4);
      bytes := bytes + deposit.txid;
      bytes := bytes + BigEndian(deposit.vout, 4);
    case ChallengeAckHash(watchtower, deposit, _) =>
      bytes := bytes + BigEndian(watchtower, 4);
      bytes := bytes + deposit.txid;
      bytes := bytes + BigEndian(deposit.vout, 4);
  }

  /** Same variant, network, indices and deposit outpoint. */
  ghost predicate SamePath(p: Path, q: Path) {
    p.params.network == q.params.network && p.(params := q.params) == q
  }

  lemma {:induction false} SplitEqual(a: seq<Byte>, b: seq<Byte>, c: seq<Byte>, d: seq<Byte>)
    requires |a| == |c| && a + b == c + d
    ensures a == c && b == d
  {
    assert a == (a + b)[..|a|] && b == (a + b)[|a|..];
    assert c == (c + d)[..|c|] && d == (c + d)[|c|..];
  }

  lemma {:induction false} FieldEqual(v: nat, w: nat, n: nat, b: seq<Byte>, d: seq<Byte>)
    requires v < Pow256(n) && w < Pow256(n) && BigEndian(v, n) + b == BigEndian(w, n) + d
    ensures v == w && b == d
  {
    SplitEqual(BigEndian(v, n), b, BigEndian(w, n), d);
    BigEndianInjective(v, w, n);
  }

  lemma {:induction false} OutPointEqual(o: OutPoint, q: OutPoint)
    requires |o.txid| == |q.txid| == 32 && o.vout < Pow256(4) && q.vout < Pow256(4)
    requires OutPointBytes(o) == OutPointBytes(q)
    ensures o == q
  {
    SplitEqual(o.txid, BigEndian(o.vout, 4), q.txid, BigEndian(q.vout, 4));
    BigEndianInjective(o.vout, q.vout, 4);
  }

  lemma {:induction false} FieldsInjective(p: Path, q: Path)
    requires Encodable(p) && Encodable(q) && TypeId(p) == TypeId(q) && Fields(p) == Fields(q)
    ensures p.(params := q.params) == q
  {
    Widths();
    hide BigEndian; hide Pow256; hide OutPointBytes;
    match p
    case Kickoff(round, kickoff, _) =>
      FieldEqual(ToIndex(round), ToIndex(q.round), 8, BigEndian(kickoff, 4), BigEndian(q.kickoff, 4));
      BigEndianInjective(kickoff, q.kickoff, 4);
    case BitvmAssert(length, pkType, pkIndex, deposit, _) =>
      FieldEqual(length, q.messageLength, 4,
                 BigEndian(pkType, 4) + (BigEndian(pkIndex, 4) + OutPointBytes(deposit)),
                 BigEndian(q.pkType, 4) + (BigEndian(q.pkIndex, 4) + OutPointBytes(q.deposit)));
      FieldEqual(pkType, q.pkType, 4, BigEndian(pkIndex, 4) + OutPointBytes(deposit), BigEndian(q.pkIndex, 4) + OutPointBytes(q.deposit));
      FieldEqual(pkIndex, q.pkIndex, 4, OutPointBytes(deposit), OutPointBytes(q.deposit));
      OutPointEqual(deposit, q.deposit);
    case ChallengeAckHash(watchtower, deposit, _) =>
      FieldEqual(watchtower, q.watchtower, 4, OutPointBytes(deposit), OutPointBytes(q.deposit));
      OutPointEqual(deposit, q.deposit);
  }

  /** Two paths have equal bytes exactly when they agree on variant, network, indices and outpoint. */
  lemma {:induction false} EncodeInjective(p: Path, q: Path)
    requires Encodable(p) && Encodable(q)
    ensures Encode(p) == Encode(q) <==> SamePath(p, q)
  {
    if Encode(p) == Encode(q) {
      hide Fields;
      SplitEqual([TypeId(p), NetworkPrefix(p.params.network)], Fields(p), [TypeId(q), NetworkPrefix(q.params.network)], Fields(q));
      assert TypeId(p) == Encode(p)[0] == Encode(q)[0] == TypeId(q);
      assert NetworkPrefix(p.params.network) == Encode(p)[1] == NetworkPrefix(q.params.network);
      FieldsInjective(p, q);
    }
  }
}
