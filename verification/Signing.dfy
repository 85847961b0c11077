/** The Signer: what a key contributes to an input, and adding it. */
module Signing {
  import opened Bytes
  import opened Wire
  import opened KeyMaps
  import opened Transactions
  import opened Psbts
  import opened Scripts
  import opened Multisig
  import opened Sighashes

  /** One input map per input, as every parsed or created container has. */
  predicate Parallel(p: Psbt) { |p.inputs| == |p.unsignedTx.vin| }

  /** The spent output: from the witness UTXO, else from the previous transaction. */
  function UtxoData(p: Psbt, index: nat): Option<TxOut>
    requires Parallel(p)
  {
    if index >= |p.inputs| then None
    else
      var i, n: nat := p.inputs[index], p.unsignedTx.vin[index].n;
      if i.witnessUtxo.Some? then i.witnessUtxo
      else if i.nonWitnessUtxo.None? || n >= |i.nonWitnessUtxo.value.vout| then None
      else Some(i.nonWitnessUtxo.value.vout[n])
  }

  predicate AllUtxosKnown(p: Psbt)
    requires Parallel(p)
  {
    forall i :: 0 <= i < |p.inputs| ==> UtxoData(p, i).Some?
  }

  /** What a taproot digest needs: every spent output. */
  function SpendContext(p: Psbt): (r: Option<seq<TxOut>>)
    requires Parallel(p)
    ensures r.Some? <==> AllUtxosKnown(p)
    ensures r.Some? ==>
      |r.value| == |p.inputs| && forall i :: 0 <= i < |p.inputs| ==> Some(r.value[i]) == UtxoData(p, i)
  {
    if AllUtxosKnown(p) then Some(seq(|p.inputs|, i requires 0 <= i < |p.inputs| => UtxoData(p, i).value)) else None
  }

  /** A previous transaction that is present but is not the one spent. */
  predicate PrevMismatch(c: Crypto, p: Psbt, index: nat)
    requires Parallel(p) && index < |p.inputs|
  {
    var prev := p.inputs[index].nonWitnessUtxo;
    prev.Some? && TxId(c, prev.value) != p.unsignedTx.vin[index].txhash
  }

  function PinnedSighash(form: Form): u32 { if form.P2tr? then SIGHASH_DEFAULT else SIGHASH_ALL }

  /** The form of the script when it commits to this key. */
  function OwnForm(c: Crypto, script: bytes, key: PubKey): Option<Form> {
    match FormOfScript(script)
    case None => None
    case Some(P2tr(k)) => if c.outputKey(XOnly(key)) == Some(k) then Some(P2tr(k)) else None
    case Some(form) => if form.hash == c.hash160(key) then Some(form) else None
  }

  /** An entry a key adds to an input: where it goes, and the signature unless the
      digest cannot be computed. */
  datatype Contribution = Contribution(tap: bool, key: bytes, sig: Option<bytes>)

  /** The checks every branch makes before it signs, in the order of the code. */
  function Cleared(c: Crypto, p: Psbt, index: nat, pinned: u32, entry: Contribution)
      : Result<Option<Contribution>, Error>
    requires Parallel(p) && index < |p.inputs|
  {
    var sighash := p.inputs[index].sighashType;
    if sighash.Some? && sighash.value != pinned then Err(UnsupportedSighashType(sighash.value))
    else if PrevMismatch(c, p, index) then Err(UtxoMismatch)
    else Ok(Some(entry))
  }

  function EcdsaEntry(c: Crypto, key: PubKey, digest: Hash32): Contribution {
    Contribution(false, key, Some(c.ecdsa(key, digest) + [SIGHASH_ALL]))
  }

  function KeySignature(c: Crypto, p: Psbt, index: nat, key: PubKey, utxo: TxOut, form: Form): Contribution
    requires Parallel(p) && index < |p.inputs| && (form.P2wpkh? ==> |utxo.script| == 22)
  {
    match form
    case Legacy(_) => EcdsaEntry(c, key, LegacyDigest(c, p.unsignedTx, index, utxo.script))
    case P2wpkh(_) =>
      EcdsaEntry(c, key, Bip143Digest(c, p.unsignedTx, index, P2wpkhScriptCode(utxo.script), utxo.amount))
    case P2tr(_) =>
      match SpendContext(p)
      case None => Contribution(false, key, None)
      case Some(spend) =>
        Contribution(false, key, Some(c.tweakedSchnorr(XOnly(key), KeypathDigest(c, p.unsignedTx, index, spend))))
  }

  function KeyEntry(c: Crypto, p: Psbt, index: nat, key: PubKey, utxo: TxOut): Result<Option<Contribution>, Error>
    requires Parallel(p) && index < |p.inputs|
  {
    match OwnForm(c, utxo.script, key)
    case None => Ok(None)
    case Some(form) => Cleared(c, p, index, PinnedSighash(form), KeySignature(c, p, index, key, utxo, form))
  }

  function P2shEntry(c: Crypto, p: Psbt, index: nat, key: PubKey, utxo: TxOut): Result<Option<Contribution>, Error>
    requires Parallel(p) && index < |p.inputs| && IsP2sh(utxo.script)
  {
    match p.inputs[index].redeemScript
    case None => Err(UnsupportedInputScript)
    case Some(redeem) =>
      match ExtractQuorum(redeem)
      case None => Err(UnsupportedInputScript)
      case Some(q) =>
        if c.hash160(redeem) != utxo.script[2..22] then Err(UtxoMismatch)
        else if key !in q.keys then Ok(None)
        else Cleared(c, p, index, SIGHASH_ALL, EcdsaEntry(c, key, LegacyDigest(c, p.unsignedTx, index, redeem)))
  }

  function P2wshEntry(c: Crypto, p: Psbt, index: nat, key: PubKey, utxo: TxOut): Result<Option<Contribution>, Error>
    requires Parallel(p) && index < |p.inputs| && IsP2wsh(utxo.script)
  {
    match p.inputs[index].witnessScript
    case None => Err(UnsupportedInputScript)
    case Some(redeem) =>
      match ExtractQuorum(redeem)
      case None => Err(UnsupportedInputScript)
      case Some(q) =>
        if c.sha256(redeem) != utxo.script[2..34] then Err(UtxoMismatch)
        else if key !in q.keys then Ok(None)
        else
          var digest := Bip143Digest(c, p.unsignedTx, index, VarBytes(redeem), utxo.amount);
          Cleared(c, p, index, SIGHASH_ALL, EcdsaEntry(c, key, digest))
  }

  /** The tapscript of an input's first leaf, after the checks that the Signer and
      the Finalizer share. */
  datatype Leaf = Leaf(controlBlock: bytes, script: bytes, hash: Hash32, quorum: Quorum)

  predicate OwnControlBlock(b: bytes) {
    |b| == 33 && (b[0] == 0xc0 || b[0] == 0xc1) && b[1..33] == TAPSCRIPT_INTERNAL_KEY
  }

  function ReadLeaf(c: Crypto, i: Input, utxo: TxOut): Result<Leaf, Error>
    requires i.tapLeafScripts != [] && IsP2tr(utxo.script)
  {
    var controlBlock, value := i.tapLeafScripts[0].key, i.tapLeafScripts[0].value;
    if !OwnControlBlock(controlBlock) then Err(UnsupportedInputScript)
    else if value == [] || value[|value| - 1] != TAPSCRIPT_LEAF_VERSION then Err(UnsupportedInputScript)
    else
      var script := value[..|value| - 1];
      match ExtractTapscript(script)
      case None => Err(UnsupportedInputScript)
      case Some(q) =>
        var hash := LeafHash(c, script);
        if c.tapscriptOutputKey(hash) != utxo.script[2..34] then Err(UtxoMismatch)
        else if i.tapMerkleRoot.Some? && i.tapMerkleRoot.value != hash then Err(UtxoMismatch)
        else Ok(Leaf(controlBlock, script, hash, q))
  }

  function TapSignature(c: Crypto, p: Psbt, index: nat, key: PubKey, leafHash: Hash32): Option<bytes>
    requires Parallel(p) && index < |p.inputs|
  {
    match SpendContext(p)
    case None => None
    case Some(spend) =>
      Some(c.schnorr(XOnly(key), ScriptpathDigest(c, p.unsignedTx, index, spend, leafHash)))
  }

  function TapEntry(c: Crypto, p: Psbt, index: nat, key: PubKey, utxo: TxOut): Result<Option<Contribution>, Error>
    requires Parallel(p) && index < |p.inputs| && IsP2tr(utxo.script) && p.inputs[index].tapLeafScripts != []
  {
    var leaf :- ReadLeaf(c, p.inputs[index], utxo);
    if XOnly(key) !in leaf.quorum.keys then Ok(None)
    else
      Cleared(c, p, index, SIGHASH_DEFAULT,
              Contribution(true, XOnly(key) + leaf.hash, TapSignature(c, p, index, key, leaf.hash)))
  }

  /** What `key` adds to an input: nothing, an entry, or a refusal. */
  function OwnEntry(c: Crypto, p: Psbt, index: nat, key: PubKey): Result<Option<Contribution>, Error>
    requires Parallel(p)
  {
    match UtxoData(p, index)
    case None => Ok(None)
    case Some(utxo) =>
      if IsP2wsh(utxo.script) then P2wshEntry(c, p, index, key, utxo)
      else if IsP2sh(utxo.script) then P2shEntry(c, p, index, key, utxo)
      else if IsP2tr(utxo.script) && p.inputs[index].tapLeafScripts != [] then TapEntry(c, p, index, key, utxo)
      else KeyEntry(c, p, index, key, utxo)
  }

  predicate HasKey(ps: seq<Pair>, key: bytes) { exists i :: 0 <= i < |ps| && ps[i].key == key }

  predicate Present(i: Input, e: Contribution) { HasKey(if e.tap then i.tapScriptSigs else i.partialSigs, e.key) }

  function AddSignature(i: Input, e: Contribution, sig: bytes): Input {
    if e.tap then i.(tapScriptSigs := Insert(Pair(e.key, sig), i.tapScriptSigs))
    else i.(partialSigs := Insert(Pair(e.key, sig), i.partialSigs))
  }

  /** Whether the input is signed by this key, and the container afterwards. */
  datatype Signed = Signed(done: bool, psbt: Psbt)

  function SignInput(c: Crypto, p: Psbt, index: nat, key: PubKey): Result<Signed, Error>
    requires Parallel(p)
  {
    var entry :- OwnEntry(c, p, index, key);
    if entry.None? then Ok(Signed(false, p))
    else
      var e, i := entry.value, p.inputs[index];
      if Present(i, e) then Ok(Signed(true, p))
      else if e.sig.None? then Ok(Signed(false, p))
      else Ok(Signed(true, p.(inputs := p.inputs[index := AddSignature(i, e, e.sig.value)])))
  }
}
