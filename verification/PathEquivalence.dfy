/** Two ways to the same transaction: the container roles, in any schedule, and
    direct signing. */
module PathEquivalence {
  import opened Bytes
  import opened KeyMaps
  import opened Transactions
  import opened Psbts
  import opened Scripts
  import opened Sighashes
  import opened Signing
  import opened Finalizing
  import opened FinalizeFrame
  import opened Confluence
  import opened Creating
  import opened DirectSigning

  // ------------------------------------------------------------------- the setting

  function SpentOut(s: Spent): TxOut { TxOut(s.amount, s.script) }

  /** An output of one of the single-key forms that commits to `key`; what is known
      of it agrees with the previous transaction where that is needed. */
  predicate OwnSpend(c: Crypto, vin: TxIn, s: Spent, key: PubKey) {
    && OwnForm(c, s.script, key).Some? && s.tapLeafScript.None?
    && (FormOfScript(s.script).value.Legacy? ==>
          && s.prevTx.Some? && TxId(c, s.prevTx.value) == vin.txhash
          && vin.n < |s.prevTx.value.vout| && s.prevTx.value.vout[vin.n] == SpentOut(s))
  }

  predicate OwnSpends(c: Crypto, tx: Tx, spent: seq<Spent>, keys: seq<PubKey>) {
    && |tx.vin| == |spent| == |keys|
    && forall i :: 0 <= i < |tx.vin| ==> OwnSpend(c, tx.vin[i], spent[i], keys[i])
  }

  /** The direct path keeps the lock script in the input until it is signed. */
  function WithLockScripts(tx: Tx, spent: seq<Spent>): Tx
    requires |tx.vin| == |spent|
  {
    tx.(vin := seq(|tx.vin|, i requires 0 <= i < |tx.vin| => tx.vin[i].(script := spent[i].script)))
  }

  /** Input `i` was signed with its own key, and with no other key that owns it. */
  predicate SignedByOwner(c: Crypto, spent: seq<Spent>, keys: seq<PubKey>, applied: seq<set<PubKey>>, i: nat)
    requires i < |spent| == |keys| == |applied|
  {
    keys[i] in applied[i] && forall k :: k in applied[i] && OwnForm(c, spent[i].script, k).Some? ==> k == keys[i]
  }

  // -------------------------------------------------------------- one created input

  /** A single-key input that can be signed and finalized. */
  predicate Ready(c: Crypto, p: Psbt, i: nat, utxo: TxOut)
    requires Parallel(p)
  {
    && i < |p.inputs| && UtxoData(p, i) == Some(utxo) && FormOfScript(utxo.script).Some?
    && p.inputs[i].sighashType.None? && p.inputs[i].tapLeafScripts == [] && !IsFinal(p.inputs[i])
    && !PrevMismatch(c, p, i)
  }

  lemma CreatedOwnInput(c: Crypto, vin: TxIn, s: Spent, key: PubKey, i: nat)
    requires OwnSpend(c, vin, s, key)
    ensures CreateInput(c, vin, s, i) ==
      Ok(if FormOfScript(s.script).value.Legacy? then EMPTY_INPUT.(nonWitnessUtxo := s.prevTx) else WitnessInput(s))
  {
    hide TxId;
    ShapesDisjoint(s.script);
  }

  lemma {:induction false} CreateOwnInputs(c: Crypto, vin: seq<TxIn>, spent: seq<Spent>, keys: seq<PubKey>, n: nat)
    requires n <= |vin| == |spent| == |keys| && forall i :: 0 <= i < n ==> OwnSpend(c, vin[i], spent[i], keys[i])
    ensures CreateInputs(c, vin, spent, n).Ok?
  {
    hide OwnSpend, CreateInput;
    if n > 0 {
      CreateOwnInputs(c, vin, spent, keys, n - 1);
      CreatedOwnInput(c, vin[n - 1], spent[n - 1], keys[n - 1], n - 1);
    }
  }

  lemma CreatedReady(c: Crypto, tx: Tx, spent: seq<Spent>, keys: seq<PubKey>)
    requires TrulyUnsigned(tx) && OwnSpends(c, tx, spent, keys)
    ensures Create(c, tx, spent).Ok?
    ensures var p := Create(c, tx, spent).value;
      && p.unsignedTx == tx && (forall i :: 0 <= i < |spent| ==> Ready(c, p, i, SpentOut(spent[i])))
      && SpendContext(p) == Some(MapSeq(SpentOut, spent))
      && forall i, tap :: 0 <= i < |spent| ==> SigList(p.inputs[i], tap) == []
  {
    CreateOwnInputs(c, tx.vin, spent, keys, |tx.vin|);
    CreatedInputs(c, tx.vin, spent, |tx.vin|);
    var p := Create(c, tx, spent).value;
    hide CreateInput, TxId;
    forall i | 0 <= i < |spent|
      ensures Ready(c, p, i, SpentOut(spent[i])) && forall tap :: SigList(p.inputs[i], tap) == []
    {
      CreatedOwnInput(c, tx.vin[i], spent[i], keys[i], i);
    }
    hide Ready, CreateInputs;
    AllReadyContext(c, p, spent);
  }

  lemma AllReadyContext(c: Crypto, p: Psbt, spent: seq<Spent>)
    requires Parallel(p) && |p.inputs| == |spent| && forall i :: 0 <= i < |spent| ==> Ready(c, p, i, SpentOut(spent[i]))
    ensures SpendContext(p) == Some(MapSeq(SpentOut, spent))
  {
    forall i | 0 <= i < |spent|
      ensures UtxoData(p, i) == Some(SpentOut(spent[i]))
    {
      assert Ready(c, p, i, SpentOut(spent[i]));
    }
    hide UtxoData;
    assert SpendContext(p).value == MapSeq(SpentOut, spent);
  }

  /** What a key adds to such an input, if it owns it. */
  lemma ReadyEntry(c: Crypto, p: Psbt, i: nat, utxo: TxOut, key: PubKey)
    requires Parallel(p) && Ready(c, p, i, utxo)
    ensures OwnEntry(c, p, i, key) ==
      match OwnForm(c, utxo.script, key)
      case None => Ok(None)
      case Some(form) => Ok(Some(KeySignature(c, p, i, key, utxo, form)))
  {
    ShapesDisjoint(utxo.script);
    hide UtxoData, KeySignature, PrevMismatch;
  }

  // ------------------------------------------------------- from a copy to its input

  lemma OnlyEntry(ps: seq<Pair>, e: Pair)
    requires Distinct(ps) && forall p :: p in ps <==> p == e
    ensures ps == [e]
  {
    assert e in ps;
    assert forall i :: 0 <= i < |ps| ==> ps[i] in ps;
    assert |ps| > 1 ==> ps[0].key == ps[1].key;
  }

  lemma OnlyOwnSig(c: Crypto, p: Psbt, x: Copy, i: nat, utxo: TxOut, key: PubKey, form: Form, sig: bytes)
    requires Parallel(p) && i < |p.inputs| && Holds(c, p, x)
    requires Ready(c, p, i, utxo) && SigList(p.inputs[i], false) == []
    requires OwnForm(c, utxo.script, key) == Some(form)
    requires KeySignature(c, p, i, key, utxo, form) == Contribution(false, key, Some(sig))
    requires key in x.applied[i] && forall k :: k in x.applied[i] && OwnForm(c, utxo.script, k).Some? ==> k == key
    ensures x.psbt.inputs[i].partialSigs == [Pair(key, sig)]
  {
    hide KeySignature, OwnEntry, OwnForm, Ready, HasKey;
    var ps, own := x.psbt.inputs[i].partialSigs, Pair(key, sig);
    assert ListHolds(c, p, i, false, x.applied[i], SigList(x.psbt.inputs[i], false));
    ReadyEntry(c, p, i, utxo, key);
    NoKeys(own.key);
    assert Adds(c, p, i, false, key, own);
    forall e
      ensures e in ps <==> e == own
    {
      if e in ps {
        assert Expected(c, p, i, false, x.applied[i], e);
        var k :| k in x.applied[i] && Adds(c, p, i, false, k, e);
        ReadyEntry(c, p, i, utxo, k);
      }
    }
    OnlyEntry(ps, own);
  }

  lemma NoKeys(key: bytes)
    ensures !HasKey([], key)
  {}

  /** The shape of a signature for each form. */
  predicate SigFits(form: Form, sig: bytes) {
    if form.P2tr? then |sig| == 64 else EndsWith(sig, SIGHASH_ALL) && |sig| < 0x4c
  }

  /** The signed input, whichever way it was made. */
  function SpendingIn(vin: TxIn, form: Form, sig: bytes, key: PubKey): TxIn
    requires SigFits(form, sig)
  {
    match form
    case Legacy(_) => InlineTwo(sig, key); vin.(script := InlinePushes([sig, key]).value)
    case P2wpkh(_) => vin.(script := [], stack := [sig, key])
    case P2tr(_) => vin.(script := [], stack := [sig])
  }

  function FinalOwn(i: Input, form: Form, sig: bytes, key: PubKey): Input
    requires SigFits(form, sig)
  {
    match form
    case Legacy(_) => InlineTwo(sig, key); Cleaned(i).(finalScriptSig := Some(InlinePushes([sig, key]).value))
    case P2wpkh(_) => Cleaned(i).(finalScriptWitness := Some(StackBytes([sig, key])))
    case P2tr(_) => Cleaned(i).(finalScriptWitness := Some(StackBytes([sig])))
  }

  lemma FinalOwnInput(c: Crypto, p: Psbt, i: nat, utxo: TxOut, key: PubKey, form: Form, sig: bytes)
    requires Parallel(p) && Ready(c, p, i, utxo) && p.inputs[i].partialSigs == [Pair(key, sig)]
    requires OwnForm(c, utxo.script, key) == Some(form) && SigFits(form, sig)
    ensures FinalInput(c, p, i) == Ok(FinalOwn(p.inputs[i], form, sig, key))
  {
    hide UtxoData, PrevMismatch, InlinePushes;
    ShapesDisjoint(utxo.script);
    InlineTwo(sig, key);
    var ps := p.inputs[i].partialSigs;
    assert ps[0] == Pair(key, sig);
  }

  lemma ExtractOwnInput(q: Psbt, i: nat, utxo: TxOut, before: Input, key: PubKey, form: Form, sig: bytes)
    requires Parallel(q) && i < |q.inputs| && UtxoData(q, i) == Some(utxo)
    requires FormOfScript(utxo.script) == Some(form) && SigFits(form, sig) && !IsFinal(before)
    requires q.inputs[i] == FinalOwn(before, form, sig, key) && before.tapLeafScripts == []
    ensures ExtractIn(q, i) == Ok(SpendingIn(q.unsignedTx.vin[i], form, sig, key))
  {
    hide UtxoData, InlinePushes, FormOfScript, DecodeWitnessStack, StackBytes;
    if form.P2wpkh? { DecodeWitnessStackOfBytes([sig, key]); }
    if form.P2tr? { DecodeWitnessStackOfBytes([sig]); }
  }

  // ------------------------------------------------------------- the two paths meet

  lemma LockedSkeleton(tx: Tx, spent: seq<Spent>)
    requires TrulyUnsigned(tx) && |tx.vin| == |spent|
    ensures SameSkeleton(tx, WithLockScripts(tx, spent))
  {}

  function OwnSig(c: Crypto, p: Psbt, i: nat, utxo: TxOut, key: PubKey, form: Form): bytes
    requires Parallel(p) && i < |p.inputs| && SpendContext(p).Some? && FormOfScript(utxo.script) == Some(form)
  {
    KeySignature(c, p, i, key, utxo, form).sig.value
  }

  lemma OwnSigFits(c: Crypto, p: Psbt, i: nat, utxo: TxOut, key: PubKey, form: Form)
    requires Parallel(p) && i < |p.inputs| && SpendContext(p).Some? && FormOfScript(utxo.script) == Some(form)
    ensures SigFits(form, OwnSig(c, p, i, utxo, key, form))
    ensures KeySignature(c, p, i, key, utxo, form) == Contribution(false, key, Some(OwnSig(c, p, i, utxo, key, form)))
  {
    hide LegacyDigest, Bip143Digest, KeypathDigest, SpendContext;
  }

  /** Signing one input directly gives the same input. */
  lemma SignedOwnInput(c: Crypto, p: Psbt, tx: Tx, spent: seq<Spent>, keys: seq<PubKey>, i: nat, form: Form)
    requires TrulyUnsigned(tx) && i < |tx.vin| == |spent| == |keys| && Parallel(p) && p.unsignedTx == tx
    requires SpendContext(p) == Some(MapSeq(SpentOut, spent)) && FormOfScript(spent[i].script) == Some(form)
    ensures SigFits(form, OwnSig(c, p, i, SpentOut(spent[i]), keys[i], form))
    ensures SignedIn(c, WithLockScripts(tx, spent), keys, Some(MapSeq(SpentOut, spent)), i)
         == Ok(SpendingIn(tx.vin[i], form, OwnSig(c, p, i, SpentOut(spent[i]), keys[i], form), keys[i]))
  {
    var d, spend := WithLockScripts(tx, spent), MapSeq(SpentOut, spent);
    LockedSkeleton(tx, spent);
    OwnSigFits(c, p, i, SpentOut(spent[i]), keys[i], form);
    DigestsAlike(c, tx, d, Some(spend), i);
    DigestsOfSkeleton(c, tx, d, i, spent[i].script, 0, spend);
    hide LegacyDigest, Bip143Digest, KeypathDigest, SpendContext, InlinePushes, SameSkeleton;
    if form.Legacy? { InlineTwo(OwnSig(c, p, i, SpentOut(spent[i]), keys[i], form), keys[i]); }
  }

  /** What finalizing reads of an input besides its signatures is as in the base. */
  lemma CopyReady(c: Crypto, p: Psbt, x: Copy, i: nat, utxo: TxOut)
    requires Parallel(p) && i < |p.inputs| && Ready(c, p, i, utxo) && SameSkeletonAs(x.psbt, p)
    ensures Parallel(x.psbt) && Ready(c, x.psbt, i, utxo)
  {
    SameUtxos(x.psbt, p);
    assert SameButSigs(x.psbt.inputs[i], p.inputs[i]);
    hide UtxoData, TxId;
  }

  lemma UtxoAfterFinalize(p: Psbt, q: Psbt, i: nat)
    requires Parallel(p) && q == p.(inputs := q.inputs) && |q.inputs| == |p.inputs|
    requires i < |p.inputs| && KeepsUtxo(p.inputs[i], q.inputs[i])
    ensures Parallel(q) && UtxoData(q, i) == UtxoData(p, i)
  {}

  lemma ContainerInput(c: Crypto, p: Psbt, x: Copy, tx: Tx, spent: seq<Spent>, keys: seq<PubKey>, i: nat)
    requires TrulyUnsigned(tx) && i < |tx.vin| == |spent| == |keys| == |x.applied|
    requires Parallel(p) && p.unsignedTx == tx && Holds(c, p, x) && Ready(c, p, i, SpentOut(spent[i]))
    requires SigList(p.inputs[i], false) == [] && SpendContext(p) == Some(MapSeq(SpentOut, spent))
    requires OwnForm(c, spent[i].script, keys[i]).Some? && SignedByOwner(c, spent, keys, x.applied, i)
    ensures Parallel(x.psbt) && FinalInput(c, x.psbt, i).Ok?
    ensures forall q :: Parallel(q) && q == x.psbt.(inputs := q.inputs) && |q.inputs| == |x.psbt.inputs|
                        && Ok(q.inputs[i]) == FinalInput(c, x.psbt, i) ==>
      ExtractIn(q, i) == SignedIn(c, WithLockScripts(tx, spent), keys, Some(MapSeq(SpentOut, spent)), i)
      && SignedIn(c, WithLockScripts(tx, spent), keys, Some(MapSeq(SpentOut, spent)), i).Ok?
  {
    var utxo, key := SpentOut(spent[i]), keys[i];
    var form := OwnForm(c, utxo.script, key).value;
    hide Holds, Ready, OwnForm, SignedIn, KeySignature, FinalInput, ExtractIn, UtxoData;
    OwnFormIsForm(c, utxo.script, key);
    var sig := OwnSig(c, p, i, utxo, key, form);
    OwnSigFits(c, p, i, utxo, key, form);
    OnlyOwnSig(c, p, x, i, utxo, key, form, sig);
    HoldsSkeleton(c, p, x);
    CopyReady(c, p, x, i, utxo);
    FinalOwnInput(c, x.psbt, i, utxo, key, form, sig);
    FinalInputKeeps(c, x.psbt, i);
    SignedOwnInput(c, p, tx, spent, keys, i, form);
    ReadyFacts(c, x.psbt, i, utxo);
    forall q | Parallel(q) && q == x.psbt.(inputs := q.inputs) && |q.inputs| == |x.psbt.inputs|
               && Ok(q.inputs[i]) == FinalInput(c, x.psbt, i)
      ensures ExtractIn(q, i) == SignedIn(c, WithLockScripts(tx, spent), keys, Some(MapSeq(SpentOut, spent)), i)
    {
      UtxoAfterFinalize(x.psbt, q, i);
      ExtractOwnInput(q, i, utxo, x.psbt.inputs[i], key, form, sig);
    }
  }

  lemma OwnFormIsForm(c: Crypto, script: bytes, key: PubKey)
    ensures OwnForm(c, script, key).Some? ==> FormOfScript(script) == OwnForm(c, script, key)
  {}

  lemma HoldsSkeleton(c: Crypto, p: Psbt, x: Copy)
    requires Parallel(p) && Holds(c, p, x)
    ensures SameSkeletonAs(x.psbt, p)
  {}

  lemma ReadyFacts(c: Crypto, p: Psbt, i: nat, utxo: TxOut)
    requires Parallel(p) && Ready(c, p, i, utxo)
    ensures i < |p.inputs| && UtxoData(p, i) == Some(utxo) && !IsFinal(p.inputs[i]) && p.inputs[i].tapLeafScripts == []
  {}

  lemma {:induction false} SameIns(c: Crypto, q: Psbt, d: Tx, keys: seq<PubKey>, spend: Option<seq<TxOut>>, n: nat)
    requires Parallel(q) && n <= |q.inputs| == |d.vin| == |keys|
    requires forall i :: 0 <= i < n ==> ExtractIn(q, i) == SignedIn(c, d, keys, spend, i)
    ensures ExtractIns(q, n) == SignedIns(c, d, keys, spend, n)
  {
    hide ExtractIn, SignedIn;
    if n > 0 { SameIns(c, q, d, keys, spend, n - 1); }
  }

  /** Create, sign every input by its owner in any schedule among any copies,
      finalize and extract: the result is the transaction that direct signing of the
      same inputs gives, byte for byte on the wire. */
  lemma ContainerPathIsDirectPath(
      c: Crypto, tx: Tx, spent: seq<Spent>, keys: seq<PubKey>, steps: seq<Step>, p: Psbt, x: Copy)
    requires TrulyUnsigned(tx) && TxFits(tx) && OwnSpends(c, tx, spent, keys)
    requires forall i :: 0 <= i < |spent| ==> SpentFits(spent[i])
    requires Create(c, tx, spent) == Ok(p)
    requires Run(c, [Fresh(p)], steps).Ok? && x in Run(c, [Fresh(p)], steps).value
    requires |x.applied| == |spent| && forall i :: 0 <= i < |spent| ==> SignedByOwner(c, spent, keys, x.applied, i)
    ensures Parallel(x.psbt) && !Finalize(c, x.psbt).stopped && Parallel(Finalize(c, x.psbt).psbt)
    ensures var signed := SignDirect(c, WithLockScripts(tx, spent), keys, Some(MapSeq(SpentOut, spent)));
      signed.Ok? && Extract(Finalize(c, x.psbt).psbt) == signed
  {
    hide Holds, Ready, OwnSpend, SignedByOwner, FinalInput, ExtractIn, SignedIn, Run, SpendContext, SigList, Create;
    CreatedReady(c, tx, spent, keys);
    CreatedIsBase(c, tx, spent);
    RunKeeps(c, p, steps);
    HoldsSkeleton(c, p, x);
    var d, spend := WithLockScripts(tx, spent), Some(MapSeq(SpentOut, spent));
    var q := Finalize(c, x.psbt).psbt;
    FinalizeEach(c, x.psbt);
    forall i | 0 <= i < |spent|
      ensures FinalInput(c, x.psbt, i).Ok?
    {
      OwnSpendForm(c, tx.vin[i], spent[i], keys[i]);
      ContainerInput(c, p, x, tx, spent, keys, i);
    }
    forall i | 0 <= i < |spent|
      ensures ExtractIn(q, i) == SignedIn(c, d, keys, spend, i) && SignedIn(c, d, keys, spend, i).Ok?
    {
      OwnSpendForm(c, tx.vin[i], spent[i], keys[i]);
      ContainerInput(c, p, x, tx, spent, keys, i);
    }
    SameIns(c, q, d, keys, spend, |spent|);
    ExtractInsEach(q, |spent|);
  }

  lemma OwnSpendForm(c: Crypto, vin: TxIn, s: Spent, key: PubKey)
    requires OwnSpend(c, vin, s, key)
    ensures OwnForm(c, s.script, key).Some?
  {}
}
