/** Input maps as the mutable objects they are: the Signer and the Finalizer update
    them in place. Each method is the value-level role on what the objects hold. */
module PsbtObjects {
  import opened Bytes
  import opened Wire
  import opened KeyMaps
  import opened Transactions
  import opened Psbts
  import opened Scripts
  import opened Multisig
  import opened Sighashes
  import opened Signing
  import opened Finalizing
  import opened FinalizeFrame
  import opened Confluence

  lemma {:induction false} InsertAt(x: Pair, ps: seq<Pair>, pos: nat)
    requires pos <= |ps| && forall i :: 0 <= i < pos ==> LexLe(ps[i].key, x.key)
    requires pos == |ps| || !LexLe(ps[pos].key, x.key)
    ensures Insert(x, ps) == ps[..pos] + [x] + ps[pos..]
  {
    if pos > 0 {
      InsertAt(x, ps[1..], pos - 1);
      assert ps[..pos] == [ps[0]] + ps[1..][..pos - 1] && ps[1..][pos - 1..] == ps[pos..];
    }
  }

  /** The insertion loop shared by both signature lists. */
  method InsertByKey(ps: seq<Pair>, x: Pair) returns (r: seq<Pair>)
    ensures r == Insert(x, ps)
  {
    var pos := 0;
    while pos < |ps| && LexLe(ps[pos].key, x.key)
      invariant pos <= |ps| && forall i :: 0 <= i < pos ==> LexLe(ps[i].key, x.key)
    {
      pos := pos + 1;
    }
    InsertAt(x, ps, pos);
    return ps[..pos] + [x] + ps[pos..];
  }

  class PsbtIn {
    var nonWitnessUtxo: Option<Tx>
    var witnessUtxo: Option<TxOut>
    var partialSigs: seq<Pair>
    var sighashType: Option<u32>
    var redeemScript: Option<bytes>
    var witnessScript: Option<bytes>
    var finalScriptSig: Option<bytes>
    var finalScriptWitness: Option<bytes>
    var tapScriptSigs: seq<Pair>
    var tapLeafScripts: seq<Pair>
    var tapInternalKey: Option<bytes>
    var tapMerkleRoot: Option<bytes>
    var unknown: seq<Pair>

    function Value(): Input
      reads this
    {
      Input(nonWitnessUtxo, witnessUtxo, partialSigs, sighashType, redeemScript, witnessScript, finalScriptSig,
            finalScriptWitness, tapScriptSigs, tapLeafScripts, tapInternalKey, tapMerkleRoot, unknown)
    }

    constructor (v: Input)
      ensures Value() == v
    {
      nonWitnessUtxo, witnessUtxo, partialSigs := v.nonWitnessUtxo, v.witnessUtxo, v.partialSigs;
      sighashType, redeemScript, witnessScript := v.sighashType, v.redeemScript, v.witnessScript;
      finalScriptSig, finalScriptWitness := v.finalScriptSig, v.finalScriptWitness;
      tapScriptSigs, tapLeafScripts := v.tapScriptSigs, v.tapLeafScripts;
      tapInternalKey, tapMerkleRoot, unknown := v.tapInternalKey, v.tapMerkleRoot, v.unknown;
    }

    method InsertPartialSig(pubkey: bytes, sig: bytes)
      modifies this
      ensures Value() == old(Value()).(partialSigs := Insert(Pair(pubkey, sig), old(partialSigs)))
    {
      partialSigs := InsertByKey(partialSigs, Pair(pubkey, sig));
    }

    method InsertTapScriptSig(xOnlyAndLeaf: bytes, sig: bytes)
      modifies this
      ensures Value() == old(Value()).(tapScriptSigs := Insert(Pair(xOnlyAndLeaf, sig), old(tapScriptSigs)))
    {
      tapScriptSigs := InsertByKey(tapScriptSigs, Pair(xOnlyAndLeaf, sig));
    }

    /** Intermediates out, UTXOs and unknowns stay. */
    method Clean()
      modifies `partialSigs, `sighashType, `redeemScript, `witnessScript
      ensures Value() == Cleaned(old(Value()))
    {
      partialSigs := [];
      sighashType, redeemScript, witnessScript := None, None, None;
    }

    method CleanTap()
      modifies `partialSigs, `sighashType, `redeemScript, `witnessScript
      modifies `tapScriptSigs, `tapLeafScripts, `tapInternalKey, `tapMerkleRoot
      ensures Value() == CleanedTap(old(Value()))
    {
      Clean();
      tapScriptSigs, tapLeafScripts := [], [];
      tapInternalKey, tapMerkleRoot := None, None;
    }

    method FinalizeKey(c: Crypto, index: nat, script: bytes) returns (refused: Option<Error>)
      modifies this
      ensures match KeyFinal(c, old(Value()), index, script)
        case Ok(i) => refused == None && Value() == i
        case Err(e) => refused == Some(e) && Value() == old(Value())
    {
      hide StackBytes, InlinePushes, SigByHash, SigByOutputKey;
      var form := FormOfScript(script);
      if form.None? { return Some(IncompleteInput(index)); }
      if SighashBlocked(Value(), PinnedSighash(form.value)) { return Some(IncompleteInput(index)); }
      if form.value.P2tr? {
        var sig := SigByOutputKey(c, partialSigs, form.value.key);
        if sig.None? { return Some(IncompleteInput(index)); }
        finalScriptWitness := Some(StackBytes([sig.value]));
      } else {
        var found := SigByHash(c, partialSigs, form.value.hash);
        if found.None? || !EndsWith(found.value.value, SIGHASH_ALL) { return Some(IncompleteInput(index)); }
        if form.value.Legacy? {
          var pushes := InlinePushes([found.value.value, found.value.key]);
          if pushes.Err? { return Some(pushes.error); }
          finalScriptSig := Some(pushes.value);
        } else {
          finalScriptWitness := Some(StackBytes([found.value.value, found.value.key]));
        }
      }
      Clean();
      return None;
    }

    /** The members' signatures in script order, cut after the threshold. */
    method CollectMemberSigs(index: nat, script: Option<bytes>, committed: bool) returns (r: Result<seq<bytes>, Error>)
      ensures r == QuorumSigs(Value(), index, script, committed)
    {
      if script.None? { return Err(IncompleteInput(index)); }
      var q := ExtractMultisigQuorum(script.value);
      if q.None? { return Err(UnsupportedInputScript); }
      if !committed { return Err(UtxoMismatch); }
      if SighashBlocked(Value(), SIGHASH_ALL) { return Err(IncompleteInput(index)); }
      var keys := q.value.keys;
      var sigs: seq<bytes> := [];
      assert keys[0..] == keys;
      JoinedNothing(MemberSigs(keys, partialSigs, index));
      for i := 0 to |keys|
        invariant MemberSigs(keys, partialSigs, index) == Joined(sigs, MemberSigs(keys[i..], partialSigs, index))
      {
        assert keys[i..][1..] == keys[i + 1..];
        var sig := Lookup(partialSigs, keys[i]);
        if sig.Some? {
          if !EndsWith(sig.value, SIGHASH_ALL) { return Err(IncompleteInput(index)); }
          JoinedOne(sigs, sig.value, MemberSigs(keys[i + 1..], partialSigs, index));
          sigs := sigs + [sig.value];
        }
      }
      assert keys[|keys|..] == [] && sigs + [] == sigs;
      if |sigs| < q.value.m { return Err(IncompleteInput(index)); }
      return Ok(sigs[..q.value.m]);
    }

    method FinalizeP2sh(c: Crypto, index: nat, lock: bytes) returns (refused: Option<Error>)
      requires IsP2sh(lock)
      modifies this
      ensures match P2shFinal(c, old(Value()), index, lock)
        case Ok(i) => refused == None && Value() == i
        case Err(e) => refused == Some(e) && Value() == old(Value())
    {
      hide QuorumSigs, MultisigScriptSig;
      var committed := redeemScript.Some? && c.hash160(redeemScript.value) == lock[2..22];
      var sigs := CollectMemberSigs(index, redeemScript, committed);
      if sigs.Err? { return Some(sigs.error); }
      QuorumSigsOk(Value(), index, redeemScript, committed);
      var scriptSig := MakeMultisigScriptSig(redeemScript.value, sigs.value);
      if scriptSig.Err? { return Some(scriptSig.error); }
      finalScriptSig := Some(scriptSig.value);
      Clean();
      return None;
    }

    method FinalizeP2wsh(c: Crypto, index: nat, lock: bytes) returns (refused: Option<Error>)
      requires IsP2wsh(lock)
      modifies this
      ensures match P2wshFinal(c, old(Value()), index, lock)
        case Ok(i) => refused == None && Value() == i
        case Err(e) => refused == Some(e) && Value() == old(Value())
    {
      hide QuorumSigs, StackBytes;
      var committed := witnessScript.Some? && c.sha256(witnessScript.value) == lock[2..34];
      var sigs := CollectMemberSigs(index, witnessScript, committed);
      if sigs.Err? { return Some(sigs.error); }
      QuorumSigsOk(Value(), index, witnessScript, committed);
      var stack := EncodeWitnessStack(MultisigWitness(witnessScript.value, sigs.value));
      finalScriptWitness := Some(stack);
      Clean();
      return None;
    }

    /** One slot a key; `taken` counts the signatures placed. */
    method CollectSlots(leaf: Leaf, index: nat) returns (r: Result<seq<Option<bytes>>, Error>)
      ensures match SigSlots(leaf.quorum.keys, leaf.hash, tapScriptSigs, leaf.quorum.m, index)
        case Err(e) => r == Err(e)
        case Ok(slots) => if Filled(slots) < leaf.quorum.m then r == Err(IncompleteInput(index)) else r == Ok(slots)
    {
      var keys, m := leaf.quorum.keys, leaf.quorum.m;
      var slots: seq<Option<bytes>> := [];
      var taken := 0;
      NoSlots();
      assert keys[0..] == keys;
      JoinedNothing(SigSlots(keys, leaf.hash, tapScriptSigs, m, index));
      for i := 0 to |keys|
        invariant taken == Filled(slots) <= m
        invariant SigSlots(keys, leaf.hash, tapScriptSigs, m, index)
               == Joined(slots, SigSlots(keys[i..], leaf.hash, tapScriptSigs, m - taken, index))
      {
        assert keys[i..][1..] == keys[i + 1..];
        var sig := Lookup(tapScriptSigs, keys[i] + leaf.hash);
        var slot: Option<bytes> := None;
        if sig.Some? && taken < m {
          if |sig.value| != 64 { return Err(IncompleteInput(index)); }
          slot := sig;
        }
        FilledSnoc(slots, slot);
        var rest := SigSlots(keys[i + 1..], leaf.hash, tapScriptSigs, if slot.Some? then m - taken - 1 else m - taken, index);
        JoinedOne(slots, slot, rest);
        slots := slots + [slot];
        if slot.Some? { taken := taken + 1; }
      }
      assert keys[|keys|..] == [] && slots + [] == slots;
      if taken < m { return Err(IncompleteInput(index)); }
      return Ok(slots);
    }

    method FinalizeTap(c: Crypto, index: nat, utxo: TxOut) returns (refused: Option<Error>)
      requires tapLeafScripts != [] && IsP2tr(utxo.script)
      modifies this
      ensures match TapFinal(c, old(Value()), index, utxo)
        case Ok(i) => refused == None && Value() == i
        case Err(e) => refused == Some(e) && Value() == old(Value())
    {
      hide ReadLeaf, SigSlots, Filled, StackBytes, TapscriptWitness;
      var leaf := ReadLeaf(c, Value(), utxo);
      if leaf.Err? { return Some(leaf.error); }
      if SighashBlocked(Value(), SIGHASH_DEFAULT) { return Some(IncompleteInput(index)); }
      var slots := CollectSlots(leaf.value, index);
      if slots.Err? { return Some(slots.error); }
      var stack := EncodeWitnessStack(TapscriptWitness(leaf.value.script, leaf.value.controlBlock, slots.value));
      finalScriptWitness := Some(stack);
      CleanTap();
      return None;
    }
  }

  /** What was collected so far, in front of what the rest gives. */
  function Joined<T>(done: seq<T>, r: Result<seq<T>, Error>): Result<seq<T>, Error> {
    match r
    case Ok(rest) => Ok(done + rest)
    case Err(e) => Err(e)
  }

  lemma JoinedOne<T>(done: seq<T>, x: T, r: Result<seq<T>, Error>)
    ensures Joined(done + [x], r) == Joined(done, Joined([x], r))
  {
    if r.Ok? { Assoc(done, [x], r.value); }
  }

  lemma JoinedNothing<T>(r: Result<seq<T>, Error>)
    ensures Joined([], r) == r
  {
    if r.Ok? { assert [] + r.value == r.value; }
  }

  lemma {:induction false} FilledSnoc(slots: seq<Option<bytes>>, slot: Option<bytes>)
    ensures Filled(slots + [slot]) == Filled(slots) + (if slot.Some? then 1 else 0)
  {
    if slots == [] {
      assert Filled([slot][1..]) == 0;
      assert slots + [slot] == [slot];
    } else {
      assert (slots + [slot])[1..] == slots[1..] + [slot];
      FilledSnoc(slots[1..], slot);
    }
  }

  lemma NoSlots()
    ensures Filled([]) == 0
  {}

  // ------------------------------------------------------------------ containers

  /** A container whose input maps are objects. */
  datatype Container = Container(
    version: nat, unsignedTx: Tx, inputs: seq<PsbtIn>, outputs: seq<seq<Pair>>, unknownGlobal: seq<Pair>)

  function Values(inputs: seq<PsbtIn>): (r: seq<Input>)
    reads inputs
    ensures |r| == |inputs| && forall i :: 0 <= i < |inputs| ==> r[i] == inputs[i].Value()
  {
    seq(|inputs|, i requires 0 <= i < |inputs| reads inputs => inputs[i].Value())
  }

  function Contents(r: Container): Psbt
    reads r.inputs
  {
    Psbt(r.version, r.unsignedTx, Values(r.inputs), r.outputs, r.unknownGlobal)
  }

  /** One map an input, and no object twice. */
  ghost predicate Proper(r: Container) {
    |r.inputs| == |r.unsignedTx.vin| && forall i, j :: 0 <= i < j < |r.inputs| ==> r.inputs[i] != r.inputs[j]
  }

  /** Objects holding the maps of a container value. */
  method Open(p: Psbt) returns (r: Container)
    requires Parallel(p)
    ensures Proper(r) && fresh(r.inputs) && Contents(r) == p
  {
    var inputs: seq<PsbtIn> := [];
    for i := 0 to |p.inputs|
      invariant |inputs| == i && fresh(inputs)
      invariant forall j :: 0 <= j < i ==> inputs[j].Value() == p.inputs[j]
      invariant forall j, k :: 0 <= j < k < i ==> inputs[j] != inputs[k]
    {
      var o := new PsbtIn(p.inputs[i]);
      inputs := inputs + [o];
    }
    r := Container(p.version, p.unsignedTx, inputs, p.outputs, p.unknownGlobal);
    assert Values(inputs) == p.inputs;
  }

  /** The Signer on one input: adds this key's signature in place, or refuses and
      leaves every object as it was. */
  method SignPsbtInput(c: Crypto, r: Container, index: nat, key: PubKey) returns (res: Result<bool, Error>)
    requires Proper(r)
    modifies r.inputs
    ensures var s := SignInput(c, old(Contents(r)), index, key);
      && (s.Ok? ==> res == Ok(s.value.done) && Contents(r) == s.value.psbt)
      && (s.Err? ==> res == Err(s.error) && Contents(r) == old(Contents(r)))
  {
    var entry := OwnEntry(c, Contents(r), index, key);
    if entry.Err? { return Err(entry.error); }
    if entry.value.None? { return Ok(false); }
    KnownIndex(c, Contents(r), index, key);
    res := AddOwnEntry(r, index, entry.value.value);
  }

  method HasEntry(i: Input, e: Contribution) returns (present: bool)
    ensures present == Present(i, e)
  {
    var ps := if e.tap then i.tapScriptSigs else i.partialSigs;
    for k := 0 to |ps|
      invariant forall j :: 0 <= j < k ==> ps[j].key != e.key
    {
      if ps[k].key == e.key { return true; }
    }
    return false;
  }

  /** The last steps of signing: idempotent, and silent without a digest. */
  method AddOwnEntry(r: Container, index: nat, e: Contribution) returns (res: Result<bool, Error>)
    requires Proper(r) && index < |r.inputs|
    modifies r.inputs
    ensures Contents(r) == old(Contents(r)).(inputs := old(Contents(r)).inputs[index :=
              AfterEntry(old(r.inputs[index].Value()), Ok(Some(e)))])
    ensures res == Ok(old(Present(r.inputs[index].Value(), e)) || e.sig.Some?)
  {
    var input := r.inputs[index];
    var present := HasEntry(input.Value(), e);
    if present {
      res := Ok(true);
    } else if e.sig.None? {
      res := Ok(false);
    } else {
      if e.tap {
        input.InsertTapScriptSig(e.key, e.sig.value);
      } else {
        input.InsertPartialSig(e.key, e.sig.value);
      }
      res := Ok(true);
    }
  }

  lemma KnownIndex(c: Crypto, p: Psbt, index: nat, key: PubKey)
    requires Parallel(p) && OwnEntry(c, p, index, key).Ok? && OwnEntry(c, p, index, key).value.Some?
    ensures index < |p.inputs|
  {
    hide P2shEntry, P2wshEntry, TapEntry, KeyEntry;
  }

  /** The Finalizer on one input, in place; a refusal changes nothing. */
  method FinalizePsbtInput(c: Crypto, r: Container, index: nat) returns (refused: Option<Error>)
    requires Proper(r)
    modifies r.inputs
    ensures match FinalInput(c, old(Contents(r)), index)
      case Ok(i) => refused == None && index < |r.inputs|
                    && Contents(r) == old(Contents(r)).(inputs := old(Contents(r)).inputs[index := i])
      case Err(e) => refused == Some(e) && Contents(r) == old(Contents(r))
  {
    hide P2shFinal, P2wshFinal, TapFinal, KeyFinal, UtxoData;
    if index >= |r.inputs| { return Some(IncompleteInput(index)); }
    var input := r.inputs[index];
    ghost var before := Contents(r);
    assert before.inputs[index := before.inputs[index]] == before.inputs;
    if input.finalScriptSig.Some? || input.finalScriptWitness.Some? { return None; }
    var utxo := UtxoData(Contents(r), index);
    if utxo.None? { return Some(IncompleteInput(index)); }
    var script := utxo.value.script;
    if IsP2sh(script) {
      refused := input.FinalizeP2sh(c, index, script);
    } else if IsP2wsh(script) {
      refused := input.FinalizeP2wsh(c, index, script);
    } else if IsP2tr(script) && input.tapLeafScripts != [] {
      refused := input.FinalizeTap(c, index, utxo.value);
    } else {
      refused := input.FinalizeKey(c, index, script);
    }
    assert Contents(r).inputs == before.inputs[index := input.Value()];
  }

  /** The Finalizer on every input: refusals are passed over, a push that is too long
      cuts the walk short. */
  method FinalizePsbt(c: Crypto, r: Container) returns (stopped: bool)
    requires Proper(r)
    modifies r.inputs
    ensures Contents(r) == Finalize(c, old(Contents(r))).psbt && stopped == Finalize(c, old(Contents(r))).stopped
  {
    hide FinalInput;
    ghost var p := Contents(r);
    for i := 0 to |r.inputs|
      invariant Parallel(Contents(r)) && FinalizeFrom(c, p, 0) == FinalizeFrom(c, Contents(r), i)
    {
      var refused := FinalizePsbtInput(c, r, i);
      if refused.Some? && !Ignored(refused.value) { return true; }
    }
    return false;
  }
}
