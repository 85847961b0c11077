/** The Creator: an unsigned transaction and what is known of the outputs it
    spends become a fresh container. */
module Creating {
  import opened Bytes
  import opened Wire
  import opened KeyMaps
  import opened Transactions
  import opened Psbts
  import opened PsbtCodec
  import opened Scripts
  import opened Multisig
  import opened Sighashes
  import opened Signing
  import opened Confluence

  /** What the caller knows of one spent output. */
  datatype Spent = Spent(
    amount: u64, script: bytes, prevTx: Option<Tx>,
    redeemScript: Option<bytes>, witnessScript: Option<bytes>, tapLeafScript: Option<bytes>)

  function CheckPrev(c: Crypto, vin: TxIn, prevTx: Option<Tx>, index: nat): Result<Tx, Error> {
    if prevTx.None? then Err(IncompleteInput(index))
    else if TxId(c, prevTx.value) != vin.txhash then Err(UtxoMismatch)
    else Ok(prevTx.value)
  }

  function WitnessInput(s: Spent): Input { EMPTY_INPUT.(witnessUtxo := Some(TxOut(s.amount, s.script))) }

  function TapLeafInput(c: Crypto, s: Spent, value: bytes): Result<Input, Error>
    requires IsP2tr(s.script)
  {
    if value == [] || value[|value| - 1] != TAPSCRIPT_LEAF_VERSION then Err(UnsupportedInputScript)
    else
      var script := value[..|value| - 1];
      if ExtractTapscript(script).None? then Err(UnsupportedInputScript)
      else
        var hash := LeafHash(c, script);
        if c.tapscriptOutputKey(hash) != s.script[2..34] then Err(UtxoMismatch)
        else Ok(WitnessInput(s).(tapLeafScripts := [Pair(ControlBlock(c, hash), value)],
                                 tapInternalKey := Some(TAPSCRIPT_INTERNAL_KEY)))
  }

  function CreateInput(c: Crypto, vin: TxIn, s: Spent, index: nat): Result<Input, Error> {
    var form := FormOfScript(s.script);
    if form.Some? && form.value.Legacy? then
      var prev :- CheckPrev(c, vin, s.prevTx, index);
      Ok(EMPTY_INPUT.(nonWitnessUtxo := Some(prev)))
    else if IsP2sh(s.script) && s.redeemScript.Some? then
      if ExtractQuorum(s.redeemScript.value).None? then Err(UnsupportedInputScript)
      else if c.hash160(s.redeemScript.value) != s.script[2..22] then Err(UtxoMismatch)
      else
        var prev :- CheckPrev(c, vin, s.prevTx, index);
        Ok(EMPTY_INPUT.(nonWitnessUtxo := Some(prev), redeemScript := s.redeemScript))
    else if IsP2wsh(s.script) && s.witnessScript.Some? then
      if ExtractQuorum(s.witnessScript.value).None? then Err(UnsupportedInputScript)
      else if c.sha256(s.witnessScript.value) != s.script[2..34] then Err(UtxoMismatch)
      else Ok(WitnessInput(s).(witnessScript := s.witnessScript))
    else if s.tapLeafScript.Some? && IsP2tr(s.script) then TapLeafInput(c, s, s.tapLeafScript.value)
    else Ok(WitnessInput(s))
  }

  function CreateInputs(c: Crypto, vin: seq<TxIn>, spent: seq<Spent>, n: nat): (r: Result<seq<Input>, Error>)
    requires n <= |vin| == |spent|
    ensures r.Ok? ==> |r.value| == n
  {
    if n == 0 then Ok([])
    else
      var front :- CreateInputs(c, vin, spent, n - 1);
      var last :- CreateInput(c, vin[n - 1], spent[n - 1], n - 1);
      Ok(front + [last])
  }

  predicate TrulyUnsigned(tx: Tx) {
    tx.vout != [] && forall i :: 0 <= i < |tx.vin| ==> tx.vin[i].script == [] && tx.vin[i].stack == []
  }

  function NoEntries(o: TxOut): seq<Pair> { [] }

  function Create(c: Crypto, tx: Tx, spent: seq<Spent>): (r: Result<Psbt, Error>)
    ensures r.Ok? ==> Parallel(r.value)
  {
    if tx.vout == [] then Err(InvalidUnsignedTx)
    else if |tx.vin| != |spent| then Err(MapCountMismatch)
    else if !TrulyUnsigned(tx) then Err(InvalidUnsignedTx)
    else
      var inputs :- CreateInputs(c, tx.vin, spent, |tx.vin|);
      Ok(Psbt(0, tx, inputs, MapSeq(NoEntries, tx.vout), []))
  }

  // ------------------------------------------------- what the Creator establishes

  lemma {:induction false} CreatedInputs(c: Crypto, vin: seq<TxIn>, spent: seq<Spent>, n: nat)
    requires n <= |vin| == |spent| && CreateInputs(c, vin, spent, n).Ok?
    ensures forall i :: 0 <= i < n ==> CreateInput(c, vin[i], spent[i], i) == Ok(CreateInputs(c, vin, spent, n).value[i])
  {
    hide CreateInput;
    if n > 0 { CreatedInputs(c, vin, spent, n - 1); }
  }

  /** Lengths that fit the wire, and no previous transaction that the encoding
      cannot carry. */
  predicate SpentFits(s: Spent) {
    OutFits(TxOut(s.amount, s.script)) && (s.prevTx.Some? ==> TxFits(s.prevTx.value) && !Ambiguous(s.prevTx.value))
  }

  /** An input with nothing signed or final, at most one leaf, and values in range. */
  predicate Plain(i: Input) {
    && i.partialSigs == [] && i.tapScriptSigs == [] && i.unknown == [] && |i.tapLeafScripts| <= 1
    && (i.tapLeafScripts != [] ==> |i.tapLeafScripts[0].key| == 33 && i.tapLeafScripts[0].value != [])
    && i.finalScriptSig.None? && i.finalScriptWitness.None? && i.tapMerkleRoot.None?
    && (i.tapInternalKey.Some? ==> |i.tapInternalKey.value| == 32)
    && (i.nonWitnessUtxo.Some? ==> TxFits(i.nonWitnessUtxo.value) && !Ambiguous(i.nonWitnessUtxo.value))
    && (i.witnessUtxo.Some? ==> OutFits(i.witnessUtxo.value))
  }

  lemma CreatedInputPlain(c: Crypto, vin: TxIn, s: Spent, index: nat)
    requires SpentFits(s) && CreateInput(c, vin, s, index).Ok?
    ensures Plain(CreateInput(c, vin, s, index).value)
  {
    hide TxId, ExtractQuorum, ExtractTapscript, LeafHash, TxFits, FormOfScript, IsP2sh, IsP2wsh, IsP2tr;
  }

  lemma PlainIsCanonical(i: Input)
    requires Plain(i)
    ensures InputCanonical(i) && Faithful(i)
    ensures forall tap :: SigList(i, tap) == []
  {
    SortShort(i.tapLeafScripts);
    SortShort([]);
    hide Sort, TxFits;
  }

  lemma CreatedInputCanonical(c: Crypto, vin: TxIn, s: Spent, index: nat)
    requires SpentFits(s) && CreateInput(c, vin, s, index).Ok?
    ensures InputCanonical(CreateInput(c, vin, s, index).value) && Faithful(CreateInput(c, vin, s, index).value)
    ensures forall tap :: SigList(CreateInput(c, vin, s, index).value, tap) == []
  {
    CreatedInputPlain(c, vin, s, index);
    PlainIsCanonical(CreateInput(c, vin, s, index).value);
  }

  lemma SortShort(ps: seq<Pair>)
    ensures |ps| <= 1 ==> Sort(ps) == ps
  {
    if |ps| == 1 { assert ps[..0] == []; }
  }

  /** A created container is a base of the signing protocol: the codec carries it,
      its lists are in order and it holds no signature. */
  lemma CreatedIsBase(c: Crypto, tx: Tx, spent: seq<Spent>)
    requires Create(c, tx, spent).Ok? && TxFits(tx)
    requires forall i :: 0 <= i < |spent| ==> SpentFits(spent[i])
    ensures Base(Create(c, tx, spent).value)
    ensures forall i, tap :: 0 <= i < |tx.vin| ==> SigList(Create(c, tx, spent).value.inputs[i], tap) == []
  {
    var p := Create(c, tx, spent).value;
    CreatedInputs(c, tx.vin, spent, |tx.vin|);
    hide CreateInput, InputCanonical, Faithful, SigList;
    forall i | 0 <= i < |tx.vin|
      ensures InputCanonical(p.inputs[i]) && Faithful(p.inputs[i])
      ensures forall tap :: SigList(p.inputs[i], tap) == []
    {
      CreatedInputCanonical(c, tx.vin[i], spent[i], i);
    }
    CreatedCanonical(p);
  }

  lemma CreatedCanonical(p: Psbt)
    requires p.version == 0 && TrulyUnsigned(p.unsignedTx) && TxFits(p.unsignedTx)
    requires Parallel(p) && p.outputs == MapSeq(NoEntries, p.unsignedTx.vout) && p.unknownGlobal == []
    requires forall i :: 0 <= i < |p.inputs| ==> InputCanonical(p.inputs[i]) && Faithful(p.inputs[i])
    ensures Base(p)
  {
    hide Faithful, TxFits, InputWellFormed, Canonical;
    assert MapSeq(Canonical, p.inputs) == p.inputs;
    assert MapSeq(Sort, p.outputs) == p.outputs;
  }
}
