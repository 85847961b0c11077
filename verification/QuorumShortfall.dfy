/** The estimate for a P2SH quorum spend counts the prefix of the redeem script's push
    but not the script, so the fee is chosen for less than what is sent. */
module QuorumShortfall {
  import opened Bytes
  import opened Wire
  import opened KeyMaps
  import opened Transactions
  import opened Psbts
  import opened Scripts
  import opened Multisig
  import opened Sighashes
  import opened Signing
  import opened Finalizing
  import opened FinalizeFrame
  import opened Confluence
  import opened Addresses
  import opened Accounting
  import opened FeeLoop
  import opened QuorumFees
  import opened QuorumRuns

  /** Two lengths of signatures, sighash byte included, where DER signatures commonly
      take about 71 bytes: enough to outgrow the estimate, and by more than an output. */
  const SHORTEST_SIG: nat := 39
  const USUAL_SIG: nat := 69

  /** A P2SH output on the wire. */
  const CHANGE_SIZE: nat := 32

  function SigsLength(sigs: seq<bytes>): nat { if sigs == [] then 0 else |sigs[0]| + SigsLength(sigs[1..]) }

  /** A finished scriptSig: the dummy, the pushed signatures and the pushed script. */
  function ScriptSigLength(plan: QuorumPlan, sigs: seq<bytes>): nat {
    1 + |sigs| + SigsLength(sigs) + PushPrefixLength(|plan.redeem|) + |plan.redeem|
  }

  lemma {:induction false} PushAllLength(sigs: seq<bytes>)
    requires forall s :: s in sigs ==> |s| <= 0x4b
    ensures PushAll(sigs).Ok? && |PushAll(sigs).value| == |sigs| + SigsLength(sigs)
  {
    if sigs != [] {
      assert sigs[0] in sigs && forall s :: s in sigs[1..] ==> s in sigs;
      PushAllLength(sigs[1..]);
      PushDataLength(sigs[0]);
    }
  }

  lemma {:induction false} SigsLengthAtLeast(sigs: seq<bytes>, n: nat)
    requires forall s :: s in sigs ==> |s| >= n
    ensures SigsLength(sigs) >= n * |sigs|
  {
    if sigs != [] {
      assert sigs[0] in sigs && forall s :: s in sigs[1..] ==> s in sigs;
      SigsLengthAtLeast(sigs[1..], n);
      MulSucc(n, |sigs| - 1);
    }
  }

  lemma BuiltLength(plan: QuorumPlan, sigs: seq<bytes>)
    requires PushData(plan.redeem).Ok? && forall s :: s in sigs ==> |s| <= MS_SIG_SIZE_ESTIMATE
    ensures MultisigScriptSig(plan.redeem, sigs).Ok?
    ensures |MultisigScriptSig(plan.redeem, sigs).value| == ScriptSigLength(plan, sigs)
  {
    hide PushAll, PushData, SigsLength;
    PushAllLength(sigs);
    PushDataLength(plan.redeem);
  }

  // ---------------------------------------------------------------- one input

  /** The signatures in the scriptSig of an extracted P2SH input. */
  lemma SpentSigs(c: Crypto, p: Psbt, q: Psbt, i: nat, plan: QuorumPlan) returns (sigs: seq<bytes>)
    requires Parallel(p) && i < |p.inputs| && Parallel(q) && FinalizedAt(c, p, q, i)
    requires QuorumInput(c, p, i, plan) && plan.form.MsP2sh? && ExtractIn(q, i).Ok?
    ensures |sigs| == plan.quorum.m && forall s :: s in sigs ==> exists k :: Pair(k, s) in p.inputs[i].partialSigs
    ensures MultisigScriptSig(plan.redeem, sigs) == Ok(ExtractIn(q, i).value.script)
  {
    hide QuorumSigs, ExtractQuorum, UtxoData, MultisigScriptSig, ExtractIn, MemberSigs;
    ExtractedWasFinal(c, p, q, i);
    QuorumOutputShapes(c, plan.redeem, plan.form);
    P2shExtracts(c, p, q, i, plan);
    var input, lock := p.inputs[i], UtxoData(p, i).value.script;
    assert FinalInput(c, p, i) == P2shFinal(c, input, i, lock);
    var committed := c.hash160(plan.redeem) == lock[2..22];
    QuorumSigsOk(input, i, input.redeemScript, committed);
    var all := MemberSigs(plan.quorum.keys, input.partialSigs, i).value;
    MemberSigsIn(plan.quorum.keys, input.partialSigs, i);
    sigs := all[..plan.quorum.m];
    forall s | s in sigs
      ensures exists k :: Pair(k, s) in input.partialSigs
    {
      assert s in all;
    }
  }

  lemma QuorumSizes(plan: QuorumPlan)
    requires ExtractQuorum(plan.redeem) == Some(plan.quorum)
    ensures PushData(plan.redeem).Ok? && |plan.redeem| == 34 * |plan.quorum.keys| + 3 && 1 <= plan.quorum.m <= |plan.quorum.keys|
  {
    ExtractedRedeem(plan.redeem);
    SplitRedeem(plan.quorum) by { assert HasLength(plan.quorum.keys, 33); }
  }

  /** The scriptSig of an extracted input, from the lengths of its signatures. */
  lemma P2shInputSize(c: Crypto, p: Psbt, q: Psbt, i: nat, plan: QuorumPlan) returns (sigs: seq<bytes>)
    requires Parallel(p) && i < |p.inputs| && Parallel(q) && FinalizedAt(c, p, q, i)
    requires QuorumInput(c, p, i, plan) && plan.form.MsP2sh? && ExtractIn(q, i).Ok?
    ensures |sigs| == plan.quorum.m && forall s :: s in sigs ==> exists k :: Pair(k, s) in p.inputs[i].partialSigs
    ensures MultisigScriptSig(plan.redeem, sigs) == Ok(ExtractIn(q, i).value.script)
    ensures |ExtractIn(q, i).value.script| == ScriptSigLength(plan, sigs)
  {
    hide ExtractIn, UtxoData, MultisigScriptSig, ExtractQuorum, ScriptSigLength, FinalizedInput;
    sigs := SpentSigs(c, p, q, i, plan);
    QuorumSizes(plan);
    forall s | s in sigs
      ensures |s| <= MS_SIG_SIZE_ESTIMATE
    {
      var k :| Pair(k, s) in p.inputs[i].partialSigs;
      assert |Pair(k, s).value| <= MS_SIG_SIZE_ESTIMATE;
    }
    BuiltLength(plan, sigs);
  }

  lemma ExtractedUnwitnessed(c: Crypto, p: Psbt, q: Psbt, i: nat, plan: QuorumPlan)
    requires Parallel(p) && i < |p.inputs| && Parallel(q) && FinalizedAt(c, p, q, i)
    requires QuorumInput(c, p, i, plan) && plan.form.MsP2sh? && ExtractIn(q, i).Ok?
    ensures ExtractIn(q, i).value.stack == p.unsignedTx.vin[i].stack
  {
    hide FinalInput, UtxoData, DecodeWitnessStack, ExtractQuorum;
    ExtractedWasFinal(c, p, q, i);
    FinalInputKeeps(c, p, i);
    UtxoKept(p, q, i);
    QuorumOutputShapes(c, plan.redeem, plan.form);
    ShapesDisjoint(UtxoData(p, i).value.script);
  }

  // ---------------------------------------------------------------- the transaction

  /** A script of `n` bytes behind its length. */
  function VarLength(n: nat): nat { |CompactSize(n)| + n }

  function ScriptsLength(vin: seq<TxIn>): nat {
    if vin == [] then 0 else VarLength(|vin[0].script|) + ScriptsLength(vin[1..])
  }

  /** What the scriptSigs with these signatures take in all. */
  function SpendLength(plan: QuorumPlan, sigs: seq<seq<bytes>>): nat {
    if sigs == [] then 0 else VarLength(ScriptSigLength(plan, sigs[0])) + SpendLength(plan, sigs[1..])
  }

  lemma {:induction false} InsLength(vin: seq<TxIn>)
    ensures |Flat(InBytes, vin)| == 40 * |vin| + ScriptsLength(vin)
  {
    hide CompactSize;
    if vin != [] { InsLength(vin[1..]); }
  }

  lemma {:induction false} SameScriptsLength(plan: QuorumPlan, vin: seq<TxIn>, sigs: seq<seq<bytes>>)
    requires |vin| == |sigs| && forall i :: 0 <= i < |vin| ==> |vin[i].script| == ScriptSigLength(plan, sigs[i])
    ensures ScriptsLength(vin) == SpendLength(plan, sigs)
  {
    hide ScriptSigLength, CompactSize;
    if vin != [] { SameScriptsLength(plan, vin[1..], sigs[1..]); }
  }

  lemma {:induction false} EqualScriptsLength(vin: seq<TxIn>, n: nat)
    requires forall i :: 0 <= i < |vin| ==> |vin[i].script| == n
    ensures ScriptsLength(vin) == VarLength(n) * |vin|
  {
    hide CompactSize, VarLength;
    if vin != [] {
      EqualScriptsLength(vin[1..], n);
      MulSucc(VarLength(n), |vin| - 1);
    }
  }

  lemma UnwitnessedSize(tx: Tx)
    requires !HasWitness(tx)
    ensures VSize(tx) == 4 + |CompactSize(|tx.vin|)| + 40 * |tx.vin| + ScriptsLength(tx.vin) + |VoutBytes(tx.vout)| + 4
  {
    hide CompactSize, VSize, VoutBytes, InBytes;
    VSizeBounds(tx);
    WireLength(tx);
    InsLength(tx.vin);
  }

  lemma SizedScripts(c: Crypto, plan: QuorumPlan, vout: seq<TxOut>)
    requires plan.form.MsP2sh?
    ensures var b := SizedTx(c, plan, vout);
      && b.vout == vout && |b.vin| == |plan.selected| && !HasWitness(b)
      && forall i :: 0 <= i < |b.vin| ==> b.vin[i].script == SizedScriptSig(plan)
  {
    hide SizedScriptSig;
  }

  /** The estimate of a P2SH spend holds exactly when the finished scriptSigs, redeem
      scripts included, take no more than the sized ones. */
  lemma P2shEstimateHolds(c: Crypto, plan: QuorumPlan, vout: seq<TxOut>, p: Psbt) returns (sigs: seq<seq<bytes>>)
    requires plan.form.MsP2sh? && Parallel(p) && p.unsignedTx == UnsignedQuorumTx(plan, vout)
    requires forall i :: 0 <= i < |p.inputs| ==> QuorumInput(c, p, i, plan)
    requires Parallel(Finalize(c, p).psbt) && Extract(Finalize(c, p).psbt).Ok?
    ensures |sigs| == |p.inputs| == |Extract(Finalize(c, p).psbt).value.vin|
    ensures forall i :: 0 <= i < |sigs| ==>
      && |sigs[i]| == plan.quorum.m && (forall s :: s in sigs[i] ==> exists k :: Pair(k, s) in p.inputs[i].partialSigs)
      && MultisigScriptSig(plan.redeem, sigs[i]) == Ok(Extract(Finalize(c, p).psbt).value.vin[i].script)
    ensures VSize(Extract(Finalize(c, p).psbt).value) + VarLength(|SizedScriptSig(plan)|) * |sigs|
         == VSize(SizedTx(c, plan, vout)) + SpendLength(plan, sigs)
    ensures VSize(Extract(Finalize(c, p).psbt).value) <= VSize(SizedTx(c, plan, vout))
       <==> SpendLength(plan, sigs) <= VarLength(|SizedScriptSig(plan)|) * |sigs|
  {
    hide FinalInput, FinalizedInput, ExtractIn, QuorumInput, SizedTx, VSize, SizedScriptSig, MultisigScriptSig,
         ScriptSigLength, VarLength, CompactSize;
    forall i | 0 <= i < |p.inputs|
      ensures FinalInput(c, p, i) != Err(PushTooLong)
    {
      QuorumInputNeverStops(c, p, i, plan);
    }
    FinalizeEach(c, p);
    var q := Finalize(c, p).psbt;
    var t, b := Extract(q).value, SizedTx(c, plan, vout);
    sigs := [];
    for i := 0 to |p.inputs|
      invariant |sigs| == i
      invariant forall j :: 0 <= j < i ==>
        && |sigs[j]| == plan.quorum.m && (forall s :: s in sigs[j] ==> exists k :: Pair(k, s) in p.inputs[j].partialSigs)
        && MultisigScriptSig(plan.redeem, sigs[j]) == Ok(t.vin[j].script)
        && |t.vin[j].script| == ScriptSigLength(plan, sigs[j]) && t.vin[j].stack == []
    {
      var own := P2shInputSize(c, p, q, i, plan);
      ExtractedUnwitnessed(c, p, q, i, plan);
      sigs := sigs + [own];
    }
    SizedScripts(c, plan, vout);
    SameScriptsLength(plan, t.vin, sigs);
    EqualScriptsLength(b.vin, |SizedScriptSig(plan)|);
    UnwitnessedSize(t);
    UnwitnessedSize(b);
  }

  // ---------------------------------------------------------------- how short it is

  /** What M signatures of `shortest` bytes leave of the redeem script. */
  predicate LeavesOver(plan: QuorumPlan, shortest: nat, gap: nat) {
    shortest <= MS_SIG_SIZE_ESTIMATE && (MS_SIG_SIZE_ESTIMATE - shortest) * plan.quorum.m + gap <= |plan.redeem|
  }

  lemma UsualGaps(plan: QuorumPlan)
    requires ExtractQuorum(plan.redeem) == Some(plan.quorum)
    ensures LeavesOver(plan, SHORTEST_SIG, 1) && LeavesOver(plan, USUAL_SIG, CHANGE_SIZE + 1)
  {
    QuorumSizes(plan);
    hide ExtractQuorum;
  }

  lemma LongerThanSized(plan: QuorumPlan, sigs: seq<bytes>, shortest: nat, gap: nat)
    requires plan.form.MsP2sh? && |sigs| == plan.quorum.m && LeavesOver(plan, shortest, gap)
    requires forall s :: s in sigs ==> |s| >= shortest
    ensures VarLength(ScriptSigLength(plan, sigs)) >= VarLength(|SizedScriptSig(plan)|) + gap
  {
    hide CompactSize;
    SigsLengthAtLeast(sigs, shortest);
    assert (MS_SIG_SIZE_ESTIMATE - shortest) * plan.quorum.m == MS_SIG_SIZE_ESTIMATE * plan.quorum.m - shortest * plan.quorum.m;
    CompactSizeMonotone(|SizedScriptSig(plan)|, ScriptSigLength(plan, sigs));
  }

  lemma {:induction false} LongerSpend(plan: QuorumPlan, sigs: seq<seq<bytes>>, shortest: nat, gap: nat)
    requires plan.form.MsP2sh? && LeavesOver(plan, shortest, gap)
    requires forall i :: 0 <= i < |sigs| ==> |sigs[i]| == plan.quorum.m && forall s :: s in sigs[i] ==> |s| >= shortest
    ensures SpendLength(plan, sigs) >= VarLength(|SizedScriptSig(plan)|) * |sigs| + gap * |sigs|
  {
    hide VarLength, SizedScriptSig, ScriptSigLength, LeavesOver;
    if sigs != [] {
      LongerThanSized(plan, sigs[0], shortest, gap);
      LongerSpend(plan, sigs[1..], shortest, gap);
      MulSucc(VarLength(|SizedScriptSig(plan)|), |sigs| - 1);
      MulSucc(gap, |sigs| - 1);
    }
  }

  /** No signature that a member left on any input is shorter. */
  predicate SigsAtLeast(p: Psbt, shortest: nat) {
    forall i :: 0 <= i < |p.inputs| ==> forall s :: s in p.inputs[i].partialSigs ==> |s.value| >= shortest
  }

  /** Each input adds its share of what the estimate leaves out. */
  lemma SpendExceeds(c: Crypto, plan: QuorumPlan, vout: seq<TxOut>, p: Psbt, shortest: nat, gap: nat)
    requires plan.form.MsP2sh? && Parallel(p) && p.unsignedTx == UnsignedQuorumTx(plan, vout) && SigsAtLeast(p, shortest)
    requires forall i :: 0 <= i < |p.inputs| ==> QuorumInput(c, p, i, plan)
    requires Parallel(Finalize(c, p).psbt) && Extract(Finalize(c, p).psbt).Ok? && LeavesOver(plan, shortest, gap)
    ensures VSize(Extract(Finalize(c, p).psbt).value) >= VSize(SizedTx(c, plan, vout)) + gap * |plan.selected|
  {
    hide UtxoData, IsFinal, SizedTx, VSize, SizedScriptSig, Finalize, Extract, MultisigScriptSig, VarLength, LeavesOver,
         QuorumInput;
    var sigs := P2shEstimateHolds(c, plan, vout, p);
    forall i | 0 <= i < |sigs|
      ensures forall s :: s in sigs[i] ==> |s| >= shortest
    {
      forall s | s in sigs[i]
        ensures |s| >= shortest
      {
        var k :| Pair(k, s) in p.inputs[i].partialSigs;
        assert |Pair(k, s).value| >= shortest;
      }
    }
    LongerSpend(plan, sigs, shortest, gap);
    assert |sigs| == |plan.selected|;
  }

  lemma RateStrict(a: nat, b: nat, feekb: nat)
    requires a < b
    ensures feekb >= MIN_RELAY_TX_FEE ==> Rate(a, feekb) < Rate(b, feekb)
  {
    if feekb >= MIN_RELAY_TX_FEE {
      MulMonotone(a + 1, b, feekb);
      assert (a + 1) * feekb == a * feekb + feekb;
    }
  }

  /** Every finished P2SH spend with signatures of 39 bytes or more is larger than the
      transaction its fee was chosen for, and owes a higher rate. */
  lemma P2shSpendUnderestimated(c: Crypto, plan: QuorumPlan, vout: seq<TxOut>, p: Psbt, feekb: nat)
    requires plan.form.MsP2sh? && Parallel(p) && p.unsignedTx == UnsignedQuorumTx(plan, vout) && plan.selected != []
    requires (forall i :: 0 <= i < |p.inputs| ==> QuorumInput(c, p, i, plan)) && SigsAtLeast(p, SHORTEST_SIG)
    requires Parallel(Finalize(c, p).psbt) && Extract(Finalize(c, p).psbt).Ok?
    ensures var sized, made := VSize(SizedTx(c, plan, vout)), VSize(Extract(Finalize(c, p).psbt).value);
      made > sized && (feekb >= MIN_RELAY_TX_FEE ==> Rate(made, feekb) > Rate(sized, feekb))
  {
    hide UtxoData, IsFinal, ExtractQuorum, SizedTx, VSize, Rate, Finalize, Extract, LeavesOver;
    assert QuorumInput(c, p, 0, plan);
    UsualGaps(plan);
    SpendExceeds(c, plan, vout, p, SHORTEST_SIG, 1);
    RateStrict(VSize(SizedTx(c, plan, vout)), VSize(Extract(Finalize(c, p).psbt).value), feekb);
  }

  // ------------------------------------------------------------------- whole runs

  /** So it goes with every run of the members: a copy gives a transaction exactly when
      each input has met M of them, and whatever it gives is larger than estimated. */
  lemma P2shRunUnderestimated(
      c: Crypto, plan: QuorumPlan, previous: Utxo -> Option<Tx>, vout: seq<TxOut>, p: Psbt, steps: seq<Step>, x: Copy,
      feekb: nat)
    requires plan.form.MsP2sh? && Planned(plan) && AllBacked(c, plan, previous) && plan.selected != []
    requires vout != [] && TxFits(UnsignedQuorumTx(plan, vout)) && CreateQuorumSpend(c, plan, previous, vout) == Ok(p)
    requires Run(c, [Fresh(p)], steps).Ok? && x in Run(c, [Fresh(p)], steps).value && SigsAtLeast(x.psbt, SHORTEST_SIG)
    ensures |x.applied| == |plan.selected| && Parallel(x.psbt) && Parallel(Finalize(c, x.psbt).psbt)
    ensures var tx := Extract(Finalize(c, x.psbt).psbt); var sized := VSize(SizedTx(c, plan, vout));
      && (tx.Ok? <==> forall i :: 0 <= i < |plan.selected| ==> Enough(plan, x.applied[i]))
      && (tx.Ok? ==>
            VSize(tx.value) > sized && (feekb >= MIN_RELAY_TX_FEE ==> Rate(VSize(tx.value), feekb) > Rate(sized, feekb)))
  {
    hide Run, QuorumInput, Enough, Finalize, Extract, CreateQuorumSpend, TxFits, Planned, AllBacked, SizedTx, VSize, Rate,
         SigsAtLeast;
    RunCompletes(c, plan, previous, vout, p, steps, x);
    if Extract(Finalize(c, x.psbt).psbt).Ok? { P2shSpendUnderestimated(c, plan, vout, x.psbt, feekb); }
  }

  /** Change makes a P2SH spend larger by one output. */
  lemma ChangeAdds(c: Crypto, b58: Base58, plan: QuorumPlan)
    requires plan.form.MsP2sh? && Sound(b58) && RedeemAddress(c, b58, plan.redeem, plan.form) == Ok(plan.quorumAddress)
    ensures SizeWith(c, b58, plan) == SizeWithout(c, b58, plan) + CHANGE_SIZE
  {
    hide LockScript, SizedTx, VSize, RedeemAddress, Sound;
    QuorumChangeScript(c, b58, plan.redeem, plan.form);
    var back, out := TxOut(0, ScriptOrNothing(b58, plan.quorumAddress)), TxOut(0, ScriptOrNothing(b58, plan.dst));
    SizedSize(c, plan, [out]);
    SizedSize(c, plan, [back, out]);
    assert |back.script| == 23;
    assert [back, out][1..] == [out] && [out][1..] == [];
  }

  lemma SizedSize(c: Crypto, plan: QuorumPlan, vout: seq<TxOut>)
    requires plan.form.MsP2sh?
    ensures VSize(SizedTx(c, plan, vout))
         == 8 + |CompactSize(|plan.selected|)| + 40 * |plan.selected| + ScriptsLength(SizedTx(c, plan, []).vin) + |VoutBytes(vout)|
  {
    hide VSize, CompactSize, VoutBytes;
    SizedScripts(c, plan, vout);
    UnwitnessedSize(SizedTx(c, plan, vout));
  }

  lemma ChosenBySize(c: Crypto, b58: Base58, plan: QuorumPlan, feekb: nat, best: Attempt<Vout>)
    requires Chosen(BuildsSized(c, b58, plan), feekb, Ok(best)) && plan.form.MsP2sh?
    requires Sound(b58) && RedeemAddress(c, b58, plan.redeem, plan.form) == Ok(plan.quorumAddress)
    ensures VSize(SizedTx(c, plan, best.made.vout)) == best.size && best.size >= SizeWithout(c, b58, plan)
    ensures best.fee <= Rate(SizeWith(c, b58, plan), feekb)
  {
    hide SizedTx, VSize, MakeVout, Chosen, SizeWith, SizeWithout, RedeemAddress, Sound, Rate;
    ChangeAdds(c, b58, plan);
    ChosenPays(BuildsSized(c, b58, plan), feekb, best);
    TwoSizes(c, b58, plan, best.fee);
    forall fee | BuildsSized(c, b58, plan)(fee).Ok?
      ensures BuildsSized(c, b58, plan)(fee).value.size <= SizeWith(c, b58, plan)
    {
      TwoSizes(c, b58, plan, fee);
    }
    ChosenFeeBounded(BuildsSized(c, b58, plan), feekb, best, SizeWith(c, b58, plan));
  }

  lemma SpendsSomething(c: Crypto, b58: Base58, plan: QuorumPlan, feekb: nat, best: Attempt<Vout>)
    requires Chosen(BuildsSized(c, b58, plan), feekb, Ok(best)) && plan.form.MsP2sh? && feekb >= MIN_RELAY_TX_FEE
    ensures plan.selected != []
  {
    hide SizedTx, VSize, MakeVout, Chosen;
    ChosenPays(BuildsSized(c, b58, plan), feekb, best);
    SizedConserves(c, b58, plan, best);
    SizedSize(c, plan, best.made.vout);
  }

  /** Whatever the loop chose, with change or without: in every run whose signatures take
      69 bytes or more, the finished spend pays less than the rate it was made for. */
  lemma P2shFeeFallsShort(
      c: Crypto, b58: Base58, plan: QuorumPlan, previous: Utxo -> Option<Tx>, feekb: nat, best: Attempt<Vout>,
      p: Psbt, steps: seq<Step>, x: Copy)
    requires Chosen(BuildsSized(c, b58, plan), feekb, Ok(best)) && feekb >= MIN_RELAY_TX_FEE
    requires Sound(b58) && RedeemAddress(c, b58, plan.redeem, plan.form) == Ok(plan.quorumAddress) && plan.form.MsP2sh?
    requires Planned(plan) && AllBacked(c, plan, previous)
    requires TxFits(UnsignedQuorumTx(plan, best.made.vout)) && CreateQuorumSpend(c, plan, previous, best.made.vout) == Ok(p)
    requires Run(c, [Fresh(p)], steps).Ok? && x in Run(c, [Fresh(p)], steps).value && SigsAtLeast(x.psbt, USUAL_SIG)
    ensures |x.applied| == |plan.selected| && Parallel(x.psbt) && Parallel(Finalize(c, x.psbt).psbt)
    ensures var tx := Extract(Finalize(c, x.psbt).psbt);
      && (tx.Ok? <==> forall i :: 0 <= i < |plan.selected| ==> Enough(plan, x.applied[i]))
      && (tx.Ok? ==> best.fee < Rate(VSize(tx.value), feekb))
  {
    hide Run, QuorumInput, Enough, Finalize, Extract, CreateQuorumSpend, TxFits, AllBacked, SizedTx, VSize, Rate, Chosen,
         SigsAtLeast, LeavesOver, BuildSized, SizeWith, SizeWithout, RedeemAddress, Sound, ExtractQuorum;
    ChosenBySize(c, b58, plan, feekb, best);
    SpendsSomething(c, b58, plan, feekb, best);
    ChangeAdds(c, b58, plan);
    QuorumFeeConserves(c, b58, plan, feekb, 0, best);
    RunCompletes(c, plan, previous, best.made.vout, p, steps, x);
    if Extract(Finalize(c, x.psbt).psbt).Ok? {
      var made := VSize(Extract(Finalize(c, x.psbt).psbt).value);
      UsualGaps(plan);
      SpendExceeds(c, plan, best.made.vout, x.psbt, USUAL_SIG, CHANGE_SIZE + 1);
      MulMonotone(1, |plan.selected|, CHANGE_SIZE + 1);
      RateStrict(SizeWith(c, b58, plan), made, feekb);
    }
  }
}
