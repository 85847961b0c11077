/** The hashes and signatures the wallet takes from its crypto libraries, and the
    three signature digests: legacy, BIP-143 and BIP-341. */
module Sighashes {
  import opened Bytes
  import opened Wire
  import opened Transactions
  import opened Scripts

  type Der = b: bytes | 0 < |b| <= 72 witness [0]
  type Schnorr64 = b: bytes | |b| == 64 witness seq(64, _ => 0)

  /** The primitives, as deterministic total functions. A signer is named by its
      public key: RFC 6979 and BIP-340 signatures are functions of the secret and
      the digest, and the public key determines the secret. */
  datatype Crypto = Crypto(
    hash160: bytes -> Hash20,
    sha256: bytes -> Hash32,
    taggedHash: (bytes, bytes) -> Hash32,
    ecdsa: (PubKey, Hash32) -> Der,
    schnorr: (Hash32, Hash32) -> Schnorr64,
    tweakedSchnorr: (Hash32, Hash32) -> Schnorr64,
    outputKey: Hash32 -> Option<Hash32>,
    tapscriptOutputKey: Hash32 -> Hash32,
    tapscriptOddKey: Hash32 -> bool)

  const SIGHASH_DEFAULT: u32 := 0
  const SIGHASH_ALL: u32 := 1

  const TAP_SIGHASH: bytes := [0x54, 0x61, 0x70, 0x53, 0x69, 0x67, 0x68, 0x61, 0x73, 0x68]
  const TAP_LEAF: bytes := [0x54, 0x61, 0x70, 0x4c, 0x65, 0x61, 0x66]

  const TAPSCRIPT_INTERNAL_KEY: Hash32 := [
    0x50, 0x92, 0x9b, 0x74, 0xc1, 0xa0, 0x49, 0x54, 0xb7, 0x8b, 0x4b, 0x60, 0x35, 0xe9, 0x7a, 0x5e,
    0x07, 0x8a, 0x5a, 0x0f, 0x28, 0xec, 0x96, 0xd5, 0x47, 0xbf, 0xee, 0x9a, 0xce, 0x80, 0x3a, 0xc0]

  function XOnly(key: PubKey): Hash32 { key[1..33] }

  function DoubleSha(c: Crypto, data: bytes): Hash32 { c.sha256(c.sha256(data)) }

  function Backwards(h: Hash32): Hash32 { seq(32, i requires 0 <= i < 32 => h[31 - i]) }

  /** The transaction id, of the stripped layout and in display byte order. */
  function TxId(c: Crypto, tx: Tx): Hash32 { Backwards(DoubleSha(c, Stripped(tx))) }

  // ------------------------------------------------------------------- legacy

  function Blank(i: TxIn): TxIn { i.(script := [], stack := []) }

  /** Every input emptied, but for the script of the one being signed. */
  function Blanked(tx: Tx, index: nat, script: bytes): Tx
    requires index < |tx.vin|
  {
    var vin := MapSeq(Blank, tx.vin);
    tx.(vin := vin[index := vin[index].(script := script)])
  }

  function LegacyDigest(c: Crypto, tx: Tx, index: nat, script: bytes): Hash32
    requires index < |tx.vin|
  {
    DoubleSha(c, Stripped(Blanked(tx, index, script)) + LE(SIGHASH_ALL, 4))
  }

  // ------------------------------------------------------------------ BIP-143

  function OutPoint(i: TxIn): bytes { i.txhash + LE(i.n, 4) }

  function SequenceBytes(i: TxIn): bytes { LE(i.sequence, 4) }

  function P2wpkhScriptCode(script: bytes): bytes
    requires |script| == 22
  {
    [0x19, 0x76, 0xa9, 0x14] + script[2..22] + [0x88, 0xac]
  }

  function Bip143Digest(c: Crypto, tx: Tx, index: nat, scriptCode: bytes, amount: u64): Hash32
    requires index < |tx.vin|
  {
    var i := tx.vin[index];
    DoubleSha(c,
              VersionBytes(tx)
              + DoubleSha(c, Flat(OutPoint, tx.vin)) + DoubleSha(c, Flat(SequenceBytes, tx.vin))
              + OutPoint(i) + scriptCode + LE(amount, 8) + SequenceBytes(i)
              + DoubleSha(c, Flat(OutBytes, tx.vout)) + LE(tx.locktime, 4) + LE(SIGHASH_ALL, 4))
  }

  // ------------------------------------------------------------------ BIP-341

  function AmountBytes(o: TxOut): bytes { LE(o.amount, 8) }

  function LockScriptBytes(o: TxOut): bytes { VarBytes(o.script) }

  /** The common signature message: it commits to every input's amount and script. */
  function TaprootMessage(c: Crypto, tx: Tx, index: nat, spend: seq<TxOut>, spendType: byte): bytes {
    [SIGHASH_DEFAULT] + VersionBytes(tx) + LE(tx.locktime, 4)
    + c.sha256(Flat(OutPoint, tx.vin)) + c.sha256(Flat(AmountBytes, spend))
    + c.sha256(Flat(LockScriptBytes, spend)) + c.sha256(Flat(SequenceBytes, tx.vin))
    + c.sha256(Flat(OutBytes, tx.vout)) + [spendType] + LE(index, 4)
  }

  function KeypathDigest(c: Crypto, tx: Tx, index: nat, spend: seq<TxOut>): Hash32 {
    c.taggedHash(TAP_SIGHASH, [0x00] + TaprootMessage(c, tx, index, spend, 0x00))
  }

  function ScriptpathDigest(c: Crypto, tx: Tx, index: nat, spend: seq<TxOut>, leafHash: Hash32): Hash32 {
    c.taggedHash(TAP_SIGHASH,
                 [0x00] + (TaprootMessage(c, tx, index, spend, 0x02) + leafHash + [0x00] + LE(0xffff_ffff, 4)))
  }

  function LeafHash(c: Crypto, script: bytes): Hash32 {
    c.taggedHash(TAP_LEAF, [TAPSCRIPT_LEAF_VERSION] + VarBytes(script))
  }

  function ControlBlock(c: Crypto, leafHash: Hash32): bytes {
    [if c.tapscriptOddKey(leafHash) then 0xc1 else 0xc0] + TAPSCRIPT_INTERNAL_KEY
  }

  // ----------------------------------------------- what the digests depend on

  /** Two transactions that differ only in input scripts and witness stacks. */
  predicate SameSkeleton(a: Tx, b: Tx) {
    && a.version == b.version && a.vout == b.vout && a.locktime == b.locktime && |a.vin| == |b.vin|
    && forall i :: 0 <= i < |a.vin| ==> Blank(a.vin[i]) == Blank(b.vin[i])
  }

  lemma SameOutPoints(a: Tx, b: Tx)
    requires SameSkeleton(a, b)
    ensures Flat(OutPoint, a.vin) == Flat(OutPoint, b.vin)
    ensures Flat(SequenceBytes, a.vin) == Flat(SequenceBytes, b.vin)
  {
    forall i | 0 <= i < |a.vin|
      ensures OutPoint(a.vin[i]) == OutPoint(b.vin[i]) && SequenceBytes(a.vin[i]) == SequenceBytes(b.vin[i])
    {
      assert Blank(a.vin[i]) == Blank(b.vin[i]);
    }
    FlatSame(OutPoint, OutPoint, a.vin, b.vin);
    FlatSame(SequenceBytes, SequenceBytes, a.vin, b.vin);
  }

  /** No digest depends on the scripts and stacks already in the transaction. */
  lemma DigestsOfSkeleton(c: Crypto, a: Tx, b: Tx, index: nat, script: bytes, amount: u64, spend: seq<TxOut>)
    requires SameSkeleton(a, b) && index < |a.vin|
    ensures LegacyDigest(c, a, index, script) == LegacyDigest(c, b, index, script)
    ensures Bip143Digest(c, a, index, script, amount) == Bip143Digest(c, b, index, script, amount)
    ensures KeypathDigest(c, a, index, spend) == KeypathDigest(c, b, index, spend)
  {
    SameOutPoints(a, b);
    assert Blank(a.vin[index]) == Blank(b.vin[index]);
    assert MapSeq(Blank, a.vin) == MapSeq(Blank, b.vin);
  }
}
