/** The Finalizer and the Extractor, on container values. */
module Finalizing {
  import opened Bytes
  import opened Wire
  import opened KeyMaps
  import opened Transactions
  import opened Psbts
  import opened Scripts
  import opened Multisig
  import opened Sighashes
  import opened Signing

  function Lookup(ps: seq<Pair>, key: bytes): Option<bytes> {
    match Find(ps, key)
    case None => None
    case Some(i) => Some(ps[i].value)
  }

  /** The first entry whose key hashes to `hash`. */
  function SigByHash(c: Crypto, ps: seq<Pair>, hash: bytes): Option<Pair> {
    if ps == [] then None
    else if |ps[0].key| == 33 && c.hash160(ps[0].key) == hash then Some(ps[0])
    else SigByHash(c, ps[1..], hash)
  }

  /** The first 64-byte signature whose key tweaks to `outputKey`. */
  function SigByOutputKey(c: Crypto, ps: seq<Pair>, outputKey: Hash32): Option<bytes> {
    if ps == [] then None
    else if |ps[0].value| == 64 && |ps[0].key| == 33 && c.outputKey(XOnly(ps[0].key)) == Some(outputKey)
    then Some(ps[0].value)
    else SigByOutputKey(c, ps[1..], outputKey)
  }

  /** The signature ends with the pinned sighash byte. */
  predicate EndsWith(sig: bytes, sighash: byte) { sig != [] && sig[|sig| - 1] == sighash }

  /** Without what only signers needed. */
  function Cleaned(i: Input): Input {
    i.(partialSigs := [], sighashType := None, redeemScript := None, witnessScript := None)
  }

  function CleanedTap(i: Input): Input {
    Cleaned(i).(tapScriptSigs := [], tapLeafScripts := [], tapInternalKey := None, tapMerkleRoot := None)
  }

  predicate IsFinal(i: Input) { i.finalScriptSig.Some? || i.finalScriptWitness.Some? }

  predicate SighashBlocked(i: Input, pinned: u32) { i.sighashType.Some? && i.sighashType.value != pinned }

  function KeyFinal(c: Crypto, i: Input, index: nat, script: bytes): Result<Input, Error> {
    match FormOfScript(script)
    case None => Err(IncompleteInput(index))
    case Some(form) =>
      if SighashBlocked(i, PinnedSighash(form)) then Err(IncompleteInput(index))
      else match form
        case Legacy(hash) =>
          var found := SigByHash(c, i.partialSigs, hash);
          if found.None? || !EndsWith(found.value.value, SIGHASH_ALL) then Err(IncompleteInput(index))
          else
            var scriptSig :- InlinePushes([found.value.value, found.value.key]);
            Ok(Cleaned(i).(finalScriptSig := Some(scriptSig)))
        case P2wpkh(hash) =>
          var found := SigByHash(c, i.partialSigs, hash);
          if found.None? || !EndsWith(found.value.value, SIGHASH_ALL) then Err(IncompleteInput(index))
          else Ok(Cleaned(i).(finalScriptWitness := Some(StackBytes([found.value.value, found.value.key]))))
        case P2tr(key) =>
          match SigByOutputKey(c, i.partialSigs, key)
          case None => Err(IncompleteInput(index))
          case Some(sig) => Ok(Cleaned(i).(finalScriptWitness := Some(StackBytes([sig]))))
  }

  /** The members' signatures in script-key order. */
  function MemberSigs(keys: seq<bytes>, ps: seq<Pair>, index: nat): Result<seq<bytes>, Error> {
    if keys == [] then Ok([])
    else match Lookup(ps, keys[0])
      case None => MemberSigs(keys[1..], ps, index)
      case Some(sig) =>
        if !EndsWith(sig, SIGHASH_ALL) then Err(IncompleteInput(index))
        else
          var rest :- MemberSigs(keys[1..], ps, index);
          Ok([sig] + rest)
  }

  /** The first M members' signatures for a known, committed quorum script. */
  function QuorumSigs(i: Input, index: nat, script: Option<bytes>, committed: bool): Result<seq<bytes>, Error> {
    if script.None? then Err(IncompleteInput(index))
    else match ExtractQuorum(script.value)
      case None => Err(UnsupportedInputScript)
      case Some(q) =>
        if !committed then Err(UtxoMismatch)
        else if SighashBlocked(i, SIGHASH_ALL) then Err(IncompleteInput(index))
        else
          var sigs :- MemberSigs(q.keys, i.partialSigs, index);
          if |sigs| < q.m then Err(IncompleteInput(index)) else Ok(sigs[..q.m])
  }

  function P2shFinal(c: Crypto, i: Input, index: nat, lock: bytes): Result<Input, Error>
    requires IsP2sh(lock)
  {
    var script := i.redeemScript;
    var sigs :- QuorumSigs(i, index, script, script.Some? && c.hash160(script.value) == lock[2..22]);
    var scriptSig :- MultisigScriptSig(script.value, sigs);
    Ok(Cleaned(i).(finalScriptSig := Some(scriptSig)))
  }

  function P2wshFinal(c: Crypto, i: Input, index: nat, lock: bytes): Result<Input, Error>
    requires IsP2wsh(lock)
  {
    var script := i.witnessScript;
    var sigs :- QuorumSigs(i, index, script, script.Some? && c.sha256(script.value) == lock[2..34]);
    Ok(Cleaned(i).(finalScriptWitness := Some(StackBytes(MultisigWitness(script.value, sigs)))))
  }

  /** One slot a key: a signature for the first `m` signers, nothing for the others. */
  function SigSlots(keys: seq<bytes>, hash: Hash32, ps: seq<Pair>, m: nat, index: nat)
      : (r: Result<seq<Option<bytes>>, Error>)
    ensures r.Ok? ==> |r.value| == |keys|
  {
    if keys == [] then Ok([])
    else
      var sig := Lookup(ps, keys[0] + hash);
      if sig.Some? && m > 0 then
        if |sig.value| != 64 then Err(IncompleteInput(index))
        else
          var rest :- SigSlots(keys[1..], hash, ps, m - 1, index);
          Ok([sig] + rest)
      else
        var rest :- SigSlots(keys[1..], hash, ps, m, index);
        Ok([None] + rest)
  }

  function Filled(slots: seq<Option<bytes>>): nat {
    if slots == [] then 0 else (if slots[0].Some? then 1 else 0) + Filled(slots[1..])
  }

  function TapFinal(c: Crypto, i: Input, index: nat, utxo: TxOut): Result<Input, Error>
    requires i.tapLeafScripts != [] && IsP2tr(utxo.script)
  {
    var leaf :- ReadLeaf(c, i, utxo);
    if SighashBlocked(i, SIGHASH_DEFAULT) then Err(IncompleteInput(index))
    else
      var slots :- SigSlots(leaf.quorum.keys, leaf.hash, i.tapScriptSigs, leaf.quorum.m, index);
      if Filled(slots) < leaf.quorum.m then Err(IncompleteInput(index))
      else
        var stack := TapscriptWitness(leaf.script, leaf.controlBlock, slots);
        Ok(CleanedTap(i).(finalScriptWitness := Some(StackBytes(stack))))
  }

  /** The input as finalizing leaves it. */
  function FinalInput(c: Crypto, p: Psbt, index: nat): Result<Input, Error>
    requires Parallel(p)
  {
    if index >= |p.inputs| then Err(IncompleteInput(index))
    else if IsFinal(p.inputs[index]) then Ok(p.inputs[index])
    else match UtxoData(p, index)
      case None => Err(IncompleteInput(index))
      case Some(utxo) =>
        var i := p.inputs[index];
        if IsP2sh(utxo.script) then P2shFinal(c, i, index, utxo.script)
        else if IsP2wsh(utxo.script) then P2wshFinal(c, i, index, utxo.script)
        else if IsP2tr(utxo.script) && i.tapLeafScripts != [] then TapFinal(c, i, index, utxo)
        else KeyFinal(c, i, index, utxo.script)
  }

  /** The refusals that finalizing a whole container passes over; a push that is too
      long is no refusal but stops the walk. */
  predicate Ignored(e: Error) { e != PushTooLong }

  /** A walk over the inputs, and whether it was cut short. */
  datatype Walk = Walk(psbt: Psbt, stopped: bool)

  function FinalizeFrom(c: Crypto, p: Psbt, index: nat): Walk
    requires Parallel(p)
    decreases |p.inputs| - index
  {
    if index >= |p.inputs| then Walk(p, false)
    else match FinalInput(c, p, index)
      case Ok(i) => FinalizeFrom(c, p.(inputs := p.inputs[index := i]), index + 1)
      case Err(e) => if Ignored(e) then FinalizeFrom(c, p, index + 1) else Walk(p, true)
  }

  function Finalize(c: Crypto, p: Psbt): Walk
    requires Parallel(p)
  {
    FinalizeFrom(c, p, 0)
  }

  // ---------------------------------------------------------------- extraction

  function WitnessIn(spent: TxIn, stack: Option<bytes>, index: nat): Result<TxIn, Error> {
    if stack.None? then Err(NotFinalized)
    else match DecodeWitnessStack(stack.value)
      case Err(_) => Err(IncompleteInput(index))
      case Ok(items) => Ok(spent.(script := [], stack := items))
  }

  function ScriptSigIn(spent: TxIn, script: Option<bytes>): Result<TxIn, Error> {
    if script.None? then Err(NotFinalized) else Ok(spent.(script := script.value))
  }

  function ExtractIn(p: Psbt, index: nat): Result<TxIn, Error>
    requires Parallel(p) && index < |p.inputs|
  {
    var i, spent := p.inputs[index], p.unsignedTx.vin[index];
    match UtxoData(p, index)
    case None => Err(NotFinalized)
    case Some(utxo) =>
      match FormOfScript(utxo.script)
      case None =>
        if IsP2sh(utxo.script) then
          if i.finalScriptWitness.Some? then Err(IncompleteInput(index)) else ScriptSigIn(spent, i.finalScriptSig)
        else if IsP2wsh(utxo.script) then
          if i.finalScriptSig.Some? then Err(IncompleteInput(index))
          else WitnessIn(spent, i.finalScriptWitness, index)
        else Err(NotFinalized)
      case Some(Legacy(_)) => ScriptSigIn(spent, i.finalScriptSig)
      case Some(_) =>
        if i.finalScriptSig.Some? && i.tapLeafScripts != [] then Err(IncompleteInput(index))
        else WitnessIn(spent, i.finalScriptWitness, index)
  }

  /** The first `n` inputs. */
  function ExtractIns(p: Psbt, n: nat): (r: Result<seq<TxIn>, Error>)
    requires Parallel(p) && n <= |p.inputs|
    ensures r.Ok? ==> |r.value| == n && forall i :: 0 <= i < n ==> ExtractIn(p, i) == Ok(r.value[i])
  {
    if n == 0 then Ok([])
    else
      var front :- ExtractIns(p, n - 1);
      var last :- ExtractIn(p, n - 1);
      Ok(front + [last])
  }

  function Extract(p: Psbt): Result<Tx, Error>
    requires Parallel(p)
  {
    var vin :- ExtractIns(p, |p.inputs|);
    Ok(p.unsignedTx.(vin := vin))
  }
}
