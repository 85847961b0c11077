/** What finalizing and extracting keep: each input is finalized on its own, a
    refused one stays as it was, and doing it twice changes nothing. */
module FinalizeFrame {
  import opened Bytes
  import opened Wire
  import opened KeyMaps
  import opened Transactions
  import opened Psbts
  import opened Scripts
  import opened Multisig
  import opened Sighashes
  import opened Signing
  import opened Finalizing

  /** Other inputs do not matter, and neither does finalizing them. */
  lemma FinalInputLocal(c: Crypto, p: Psbt, q: Psbt, index: nat)
    requires Parallel(p) && Parallel(q) && p.unsignedTx == q.unsignedTx && index < |p.inputs|
    requires p.inputs[index] == q.inputs[index]
    ensures FinalInput(c, p, index) == FinalInput(c, q, index)
  {
    hide P2shFinal, P2wshFinal, TapFinal, KeyFinal;
  }

  lemma QuorumSigsOk(i: Input, index: nat, script: Option<bytes>, committed: bool)
    requires QuorumSigs(i, index, script, committed).Ok?
    ensures script.Some? && committed && ExtractQuorum(script.value).Some? && !SighashBlocked(i, SIGHASH_ALL)
    ensures var q := ExtractQuorum(script.value).value;
      && MemberSigs(q.keys, i.partialSigs, index).Ok? && |MemberSigs(q.keys, i.partialSigs, index).value| >= q.m
      && QuorumSigs(i, index, script, committed).value == MemberSigs(q.keys, i.partialSigs, index).value[..q.m]
  {}

  /** What survives finalizing. */
  predicate KeepsUtxo(a: Input, b: Input) {
    a.nonWitnessUtxo == b.nonWitnessUtxo && a.witnessUtxo == b.witnessUtxo && a.unknown == b.unknown
  }

  lemma FinalInputKeeps(c: Crypto, p: Psbt, index: nat)
    requires Parallel(p) && FinalInput(c, p, index).Ok?
    ensures index < |p.inputs| && IsFinal(FinalInput(c, p, index).value)
    ensures KeepsUtxo(p.inputs[index], FinalInput(c, p, index).value)
  {
    hide QuorumSigs, SigSlots, ReadLeaf, UtxoData, ExtractQuorum, InlinePushes, MultisigScriptSig;
  }

  /** One input after the walk. */
  function FinalizedInput(c: Crypto, p: Psbt, index: nat): Input
    requires Parallel(p) && index < |p.inputs|
  {
    match FinalInput(c, p, index)
    case Ok(i) => i
    case Err(_) => p.inputs[index]
  }

  predicate Stops(c: Crypto, p: Psbt)
    requires Parallel(p)
  {
    exists i :: 0 <= i < |p.inputs| && FinalInput(c, p, i) == Err(PushTooLong)
  }

  /** Where the walk from `index` ends: at the first input with a push that is too
      long, or behind the last one. */
  function StopIndex(c: Crypto, p: Psbt, index: nat): (k: nat)
    requires Parallel(p) && index <= |p.inputs|
    ensures index <= k <= |p.inputs|
    ensures forall i :: index <= i < k ==> FinalInput(c, p, i) != Err(PushTooLong)
    ensures k < |p.inputs| ==> FinalInput(c, p, k) == Err(PushTooLong)
    decreases |p.inputs| - index
  {
    if index == |p.inputs| || FinalInput(c, p, index) == Err(PushTooLong) then index else StopIndex(c, p, index + 1)
  }

  lemma {:induction false} FinalizeFromEach(c: Crypto, p: Psbt, q: Psbt, index: nat)
    requires Parallel(p) && q == p.(inputs := q.inputs) && |q.inputs| == |p.inputs| && index <= |p.inputs|
    requires forall i :: 0 <= i < index ==> q.inputs[i] == FinalizedInput(c, p, i)
    requires forall i :: index <= i < |p.inputs| ==> q.inputs[i] == p.inputs[i]
    ensures var w := FinalizeFrom(c, q, index); var k := StopIndex(c, p, index);
      && (w.stopped <==> k < |p.inputs|) && w.psbt == p.(inputs := w.psbt.inputs) && |w.psbt.inputs| == |p.inputs|
      && forall i :: 0 <= i < |p.inputs| ==> w.psbt.inputs[i] == if i < k then FinalizedInput(c, p, i) else p.inputs[i]
    decreases |p.inputs| - index
  {
    hide FinalInput;
    if index < |p.inputs| {
      FinalInputLocal(c, q, p, index);
      match FinalInput(c, p, index)
      case Ok(i) => FinalizeFromEach(c, p, q.(inputs := q.inputs[index := i]), index + 1);
      case Err(e) => if Ignored(e) { FinalizeFromEach(c, p, q, index + 1); }
    }
  }

  /** The walk finalizes each input by itself, leaves every refused one as it was, and is
      cut short exactly at the first push that is too long: nothing changes from there. */
  lemma FinalizeEach(c: Crypto, p: Psbt)
    requires Parallel(p)
    ensures var w := Finalize(c, p); var k := StopIndex(c, p, 0);
      && (w.stopped <==> k < |p.inputs|) && (w.stopped <==> Stops(c, p))
      && w.psbt == p.(inputs := w.psbt.inputs) && |w.psbt.inputs| == |p.inputs|
      && forall i :: 0 <= i < |p.inputs| ==>
           && w.psbt.inputs[i] == (if i < k then FinalizedInput(c, p, i) else p.inputs[i])
           && KeepsUtxo(p.inputs[i], w.psbt.inputs[i])
  {
    hide FinalInput;
    FinalizeFromEach(c, p, p, 0);
    forall i | 0 <= i < |p.inputs|
      ensures KeepsUtxo(p.inputs[i], FinalizedInput(c, p, i))
    {
      if FinalInput(c, p, i).Ok? { FinalInputKeeps(c, p, i); }
    }
  }

  lemma AlreadyFinal(c: Crypto, p: Psbt, index: nat)
    requires Parallel(p) && index < |p.inputs| && IsFinal(p.inputs[index])
    ensures FinalInput(c, p, index) == Ok(p.inputs[index])
  {}

  lemma FinalizedTwice(c: Crypto, p: Psbt, q: Psbt, index: nat)
    requires Parallel(p) && q == p.(inputs := q.inputs) && |q.inputs| == |p.inputs| && index < |p.inputs|
    requires q.inputs[index] == FinalizedInput(c, p, index)
    ensures FinalizedInput(c, q, index) == q.inputs[index]
    ensures FinalInput(c, q, index) == Err(PushTooLong) ==> FinalInput(c, p, index) == Err(PushTooLong)
  {
    hide FinalInput;
    if FinalInput(c, p, index).Ok? {
      FinalInputKeeps(c, p, index);
      AlreadyFinal(c, q, index);
    } else {
      FinalInputLocal(c, p, q, index);
    }
  }

  /** Finalizing again changes nothing, and stops where it stopped before. */
  lemma FinalizeIdempotent(c: Crypto, p: Psbt)
    requires Parallel(p)
    ensures Parallel(Finalize(c, p).psbt) && Finalize(c, Finalize(c, p).psbt) == Finalize(c, p)
  {
    hide FinalInput, FinalizedInput;
    FinalizeEach(c, p);
    var q, k := Finalize(c, p).psbt, StopIndex(c, p, 0);
    FinalizeEach(c, q);
    forall i | 0 <= i < k
      ensures FinalizedInput(c, q, i) == q.inputs[i] && FinalInput(c, q, i) != Err(PushTooLong)
    {
      FinalizedTwice(c, p, q, i);
    }
    if k < |p.inputs| { FinalInputLocal(c, q, p, k); }
    assert StopIndex(c, q, 0) == k;
    assert Finalize(c, q).psbt.inputs == q.inputs;
  }

  lemma {:induction false} SigByHashIn(c: Crypto, ps: seq<Pair>, hash: bytes)
    requires SigByHash(c, ps, hash).Some?
    ensures var p := SigByHash(c, ps, hash).value; p in ps && |p.key| == 33 && c.hash160(p.key) == hash
  {
    if !(|ps[0].key| == 33 && c.hash160(ps[0].key) == hash) { SigByHashIn(c, ps[1..], hash); }
  }

  lemma LookupIn(ps: seq<Pair>, key: bytes)
    ensures Lookup(ps, key).Some? ==> Pair(key, Lookup(ps, key).value) in ps
    ensures Lookup(ps, key).None? <==> !HasKey(ps, key)
  {}

  lemma {:induction false} MemberSigsIn(keys: seq<bytes>, ps: seq<Pair>, index: nat)
    requires MemberSigs(keys, ps, index).Ok?
    ensures forall s :: s in MemberSigs(keys, ps, index).value ==>
      EndsWith(s, SIGHASH_ALL) && exists k :: k in keys && Pair(k, s) in ps
  {
    if keys != [] {
      LookupIn(ps, keys[0]);
      if Lookup(ps, keys[0]).None? || EndsWith(Lookup(ps, keys[0]).value, SIGHASH_ALL) {
        MemberSigsIn(keys[1..], ps, index);
      }
      assert forall k :: k in keys[1..] ==> k in keys;
    }
  }

  lemma {:induction false} MemberSigsError(keys: seq<bytes>, ps: seq<Pair>, index: nat)
    ensures MemberSigs(keys, ps, index).Err? ==> MemberSigs(keys, ps, index).error == IncompleteInput(index)
  {
    if keys != [] { MemberSigsError(keys[1..], ps, index); }
  }

  lemma {:induction false} SigSlotsError(keys: seq<bytes>, hash: Hash32, ps: seq<Pair>, m: nat, index: nat)
    ensures SigSlots(keys, hash, ps, m, index).Err? ==> SigSlots(keys, hash, ps, m, index).error == IncompleteInput(index)
  {
    if keys != [] {
      SigSlotsError(keys[1..], hash, ps, m, index);
      if m > 0 { SigSlotsError(keys[1..], hash, ps, m - 1, index); }
    }
  }

  lemma {:induction false} PushAllFails(items: seq<bytes>)
    ensures PushAll(items).Err? <==> exists x :: x in items && |x| > 0xffff
  {
    if items != [] {
      assert items == [items[0]] + items[1..];
      PushAllFails(items[1..]);
    }
  }

  lemma InlineTwo(a: bytes, b: bytes)
    requires |b| < 0x4c
    ensures InlinePushes([a, b]) == if |a| >= 0x4c then Err(PushTooLong) else Ok([|a|] + a + ([|b|] + b))
  {
    assert [a, b][1..] == [b] && [b][1..] == [];
    assert InlinePushes([b]) == Ok([|b|] + b + []);
    assert [|b|] + b + [] == [|b|] + b;
  }

  // --------------------------------------------------------- what stops the walk

  /** One of the signatures that the quorum spend takes is longer than any push. */
  predicate QuorumTooLong(i: Input, index: nat, script: Option<bytes>, committed: bool) {
    QuorumSigs(i, index, script, committed).Ok?
    && exists x :: x in QuorumSigs(i, index, script, committed).value && |x| > 0xffff
  }

  /** The signature of a P2PKH spend is longer than an inline push. */
  predicate KeyTooLong(c: Crypto, i: Input, script: bytes) {
    match FormOfScript(script)
    case Some(Legacy(hash)) =>
      var found := SigByHash(c, i.partialSigs, hash);
      && !SighashBlocked(i, SIGHASH_ALL) && found.Some? && EndsWith(found.value.value, SIGHASH_ALL)
      && |found.value.value| >= 0x4c
    case _ => false
  }

  predicate HasTooLongPush(c: Crypto, p: Psbt, index: nat)
    requires Parallel(p) && index < |p.inputs|
  {
    var i, utxo := p.inputs[index], UtxoData(p, index);
    && !IsFinal(i) && utxo.Some?
    && var script := utxo.value.script;
       if IsP2sh(script) then
         QuorumTooLong(i, index, i.redeemScript, i.redeemScript.Some? && c.hash160(i.redeemScript.value) == script[2..22])
       else !IsP2wsh(script) && !(IsP2tr(script) && i.tapLeafScripts != []) && KeyTooLong(c, i, script)
  }

  lemma QuorumSigsError(i: Input, index: nat, script: Option<bytes>, committed: bool)
    ensures QuorumSigs(i, index, script, committed) != Err(PushTooLong)
  {
    hide ExtractQuorum;
    if script.Some? && ExtractQuorum(script.value).Some? {
      MemberSigsError(ExtractQuorum(script.value).value.keys, i.partialSigs, index);
    }
  }

  lemma P2shTooLong(c: Crypto, i: Input, index: nat, lock: bytes)
    requires IsP2sh(lock)
    ensures P2shFinal(c, i, index, lock) == Err(PushTooLong) <==>
      QuorumTooLong(i, index, i.redeemScript, i.redeemScript.Some? && c.hash160(i.redeemScript.value) == lock[2..22])
  {
    var script := i.redeemScript;
    var committed := script.Some? && c.hash160(script.value) == lock[2..22];
    QuorumSigsError(i, index, script, committed);
    var sigs := QuorumSigs(i, index, script, committed);
    if sigs.Ok? {
      QuorumSigsOk(i, index, script, committed);
      hide QuorumSigs;
      QuorumScriptFits(script.value);
      PushAllFails(sigs.value);
      PushAllError(sigs.value);
      hide PushAll, ExtractQuorum;
    }
  }

  lemma P2shFinalOk(c: Crypto, i: Input, index: nat, lock: bytes)
    requires IsP2sh(lock) && P2shFinal(c, i, index, lock) != Err(PushTooLong)
    ensures var script := i.redeemScript;
      P2shFinal(c, i, index, lock).Ok?
      <==> QuorumSigs(i, index, script, script.Some? && c.hash160(script.value) == lock[2..22]).Ok?
  {
    var script := i.redeemScript;
    var sigs := QuorumSigs(i, index, script, script.Some? && c.hash160(script.value) == lock[2..22]);
    if sigs.Ok? { PushAllError(sigs.value); }
    hide QuorumSigs, PushAll;
  }

  lemma QuorumScriptFits(script: bytes)
    requires ExtractQuorum(script).Some?
    ensures PushData(script).Ok?
  {
    ExtractedRedeem(script);
    SplitRedeem(ExtractQuorum(script).value) by { assert HasLength(ExtractQuorum(script).value.keys, 33); }
  }

  lemma P2wshNeverTooLong(c: Crypto, i: Input, index: nat, lock: bytes)
    requires IsP2wsh(lock)
    ensures P2wshFinal(c, i, index, lock) != Err(PushTooLong)
  {
    hide QuorumSigs;
    QuorumSigsError(i, index, i.witnessScript, i.witnessScript.Some? && c.sha256(i.witnessScript.value) == lock[2..34]);
  }

  lemma TapFinalError(c: Crypto, i: Input, index: nat, utxo: TxOut)
    requires i.tapLeafScripts != [] && IsP2tr(utxo.script)
    ensures TapFinal(c, i, index, utxo) != Err(PushTooLong)
  {
    var leaf := ReadLeaf(c, i, utxo);
    if leaf.Ok? {
      SigSlotsError(leaf.value.quorum.keys, leaf.value.hash, i.tapScriptSigs, leaf.value.quorum.m, index);
    }
    hide SigSlots, ExtractTapscript;
  }

  lemma KeyFinalTooLong(c: Crypto, i: Input, index: nat, script: bytes)
    ensures KeyFinal(c, i, index, script) == Err(PushTooLong) <==> KeyTooLong(c, i, script)
  {
    var form := FormOfScript(script);
    if form.Some? && form.value.Legacy? {
      var found := SigByHash(c, i.partialSigs, form.value.hash);
      if found.Some? {
        SigByHashIn(c, i.partialSigs, form.value.hash);
        InlineTwo(found.value.value, found.value.key);
      }
    }
    hide SigByHash, SigByOutputKey, InlinePushes;
  }

  /** An input stops the walk exactly when its spend takes a signature that is too long
      for a push: 76 bytes in P2PKH, more than 65535 in P2SH, never elsewhere. */
  lemma StopsExactly(c: Crypto, p: Psbt, index: nat)
    requires Parallel(p) && index < |p.inputs|
    ensures FinalInput(c, p, index) == Err(PushTooLong) <==> HasTooLongPush(c, p, index)
  {
    hide QuorumTooLong, KeyTooLong, P2shFinal, P2wshFinal, TapFinal, KeyFinal, UtxoData;
    var i := p.inputs[index];
    if UtxoData(p, index).Some? {
      var utxo := UtxoData(p, index).value;
      if IsP2sh(utxo.script) {
        P2shTooLong(c, i, index, utxo.script);
      } else if IsP2wsh(utxo.script) {
        P2wshNeverTooLong(c, i, index, utxo.script);
      } else if IsP2tr(utxo.script) && i.tapLeafScripts != [] {
        TapFinalError(c, i, index, utxo);
      } else {
        KeyFinalTooLong(c, i, index, utxo.script);
      }
    }
  }

  /** Signatures short enough for every push never stop the walk. */
  predicate Pushable(i: Input) { forall s :: s in i.partialSigs ==> |s.value| < 0x4c }

  lemma PushableInput(c: Crypto, p: Psbt, index: nat)
    requires Parallel(p) && index < |p.inputs| && Pushable(p.inputs[index])
    ensures FinalInput(c, p, index) != Err(PushTooLong)
  {
    StopsExactly(c, p, index);
    if HasTooLongPush(c, p, index) { TooLongIsStored(c, p, index); }
  }

  lemma TooLongIsStored(c: Crypto, p: Psbt, index: nat)
    requires Parallel(p) && index < |p.inputs| && HasTooLongPush(c, p, index)
    ensures exists s :: s in p.inputs[index].partialSigs && |s.value| >= 0x4c
  {
    hide ExtractQuorum, UtxoData, MemberSigs, SigByHash;
    var i, script := p.inputs[index], UtxoData(p, index).value.script;
    if IsP2sh(script) {
      var committed := i.redeemScript.Some? && c.hash160(i.redeemScript.value) == script[2..22];
      QuorumSigsOk(i, index, i.redeemScript, committed);
      var q := ExtractQuorum(i.redeemScript.value).value;
      MemberSigsIn(q.keys, i.partialSigs, index);
      var x :| x in QuorumSigs(i, index, i.redeemScript, committed).value && |x| > 0xffff;
      assert x in MemberSigs(q.keys, i.partialSigs, index).value;
      var k :| k in q.keys && Pair(k, x) in i.partialSigs;
      assert |Pair(k, x).value| >= 0x4c;
    } else {
      SigByHashIn(c, i.partialSigs, FormOfScript(script).value.hash);
    }
  }

  lemma PushableNeverStops(c: Crypto, p: Psbt)
    requires Parallel(p) && forall i :: 0 <= i < |p.inputs| ==> Pushable(p.inputs[i])
    ensures !Stops(c, p)
  {
    forall i | 0 <= i < |p.inputs|
      ensures FinalInput(c, p, i) != Err(PushTooLong)
    {
      PushableInput(c, p, i);
    }
  }

  /** A container whose only input spends to `key` with a signature of `n` zeros and the
      sighash byte. */
  function LongSigned(c: Crypto, key: PubKey, n: nat): Psbt {
    Psbt(0, Tx(2, [TxIn(LE(0, 32), 0, [], 0, [])], [TxOut(0, [])], 0),
         [EMPTY_INPUT.(witnessUtxo := Some(TxOut(0, P2pkhScript(c.hash160(key)))),
                      partialSigs := [Pair(key, LE(0, n) + [SIGHASH_ALL])])],
         [[]], [])
  }

  /** It stops the walk from 76 bytes on, and is finalized below. */
  lemma LongSignatureStops(c: Crypto, key: PubKey, n: nat)
    ensures Parallel(LongSigned(c, key, n)) && (Stops(c, LongSigned(c, key, n)) <==> n >= 75)
    ensures n >= 75 ==> Finalize(c, LongSigned(c, key, n)) == Walk(LongSigned(c, key, n), true)
  {
    hide LE, FinalInput;
    var p, hash := LongSigned(c, key, n), c.hash160(key);
    var sig := Pair(key, LE(0, n) + [SIGHASH_ALL]);
    FormOfScriptInverse(P2pkhScript(hash), Legacy(hash));
    ShapesDisjoint(P2pkhScript(hash));
    assert SigByHash(c, [sig], hash) == Some(sig);
    StopsExactly(c, p, 0);
    hide SigByHash, FormOfScript;
  }

  // ---------------------------------------------------------------- extraction

  lemma {:induction false} ExtractInsEach(p: Psbt, n: nat)
    requires Parallel(p) && n <= |p.inputs|
    ensures ExtractIns(p, n).Ok? <==> forall i :: 0 <= i < n ==> ExtractIn(p, i).Ok?
  {
    hide ExtractIn;
    if n > 0 { ExtractInsEach(p, n - 1); }
  }

  predicate SpendsWitness(p: Psbt, index: nat)
    requires Parallel(p)
  {
    UtxoData(p, index).Some?
    && var script := UtxoData(p, index).value.script; IsP2wpkh(script) || IsP2wsh(script) || IsP2tr(script)
  }

  lemma ExtractInShape(p: Psbt, index: nat)
    requires Parallel(p) && index < |p.inputs| && ExtractIn(p, index).Ok?
    ensures var t, u := ExtractIn(p, index).value, p.unsignedTx.vin[index];
      && t.txhash == u.txhash && t.n == u.n && t.sequence == u.sequence
      && (SpendsWitness(p, index) ==> t.script == [])
  {}

  lemma StrippedOfVin(a: Tx, b: Tx)
    requires a == b.(vin := a.vin) && |a.vin| == |b.vin|
    requires forall i :: 0 <= i < |a.vin| ==> a.vin[i] == b.vin[i].(stack := a.vin[i].stack)
    ensures Stripped(a) == Stripped(b)
  {
    FlatSame(InBytes, InBytes, a.vin, b.vin);
  }

  /** The extracted transaction keeps every outpoint, sequence and output; its id is
      the unsigned one's when every input spends a witness output. */
  lemma ExtractKeepsTransaction(c: Crypto, p: Psbt)
    requires Parallel(p) && Extract(p).Ok? && Unsigned(p.unsignedTx)
    ensures SameSkeleton(Extract(p).value, p.unsignedTx)
    ensures (forall i :: 0 <= i < |p.inputs| ==> SpendsWitness(p, i)) ==>
      TxId(c, Extract(p).value) == TxId(c, p.unsignedTx)
  {
    var t := Extract(p).value;
    forall i | 0 <= i < |p.inputs|
      ensures Blank(t.vin[i]) == Blank(p.unsignedTx.vin[i])
      ensures SpendsWitness(p, i) ==> t.vin[i].script == []
    {
      ExtractInShape(p, i);
    }
    if forall i :: 0 <= i < |p.inputs| ==> SpendsWitness(p, i) {
      forall i | 0 <= i < |t.vin|
        ensures t.vin[i] == p.unsignedTx.vin[i].(stack := t.vin[i].stack)
      {
        assert Blank(t.vin[i]) == Blank(p.unsignedTx.vin[i]);
      }
      StrippedOfVin(t, p.unsignedTx);
    }
  }
}
