/** The fee of a quorum spend is chosen before anyone has signed, from a transaction
    of estimated size. For the witness forms the estimate bounds what is later
    extracted, so the fee still pays the rate. */
module QuorumFees {
  import opened Bytes
  import opened Wire
  import opened KeyMaps
  import opened Transactions
  import opened Psbts
  import opened Scripts
  import opened Multisig
  import opened Sighashes
  import opened Signing
  import opened Finalizing
  import opened FinalizeFrame
  import opened TapscriptSpends
  import opened Addresses
  import opened FeeLoop
  import opened Accounting

  const MS_SIG_SIZE_ESTIMATE: nat := 73
  const MS_SIG_SIZE_ESTIMATE_TAP: nat := 66

  /** A quorum spend before its fee is known. */
  datatype QuorumPlan = QuorumPlan(
    form: MsForm, redeem: bytes, quorum: Quorum, selected: seq<Utxo>, quorumAddress: Text, dst: Text, amount: nat)

  function Blanks(n: nat): bytes { seq(n, _ => 0) }

  function Copies(item: bytes, n: nat): (r: seq<bytes>)
    ensures |r| == n && forall i :: 0 <= i < n ==> r[i] == item
  {
    seq(n, _ => item)
  }

  /** What a signed input of the quorum will need at the most. */
  function SizedStack(c: Crypto, plan: QuorumPlan): seq<bytes> {
    var m, n := plan.quorum.m, |plan.quorum.keys|;
    match plan.form
    case MsP2sh => []
    case MsP2wsh => [[]] + Copies(Blanks(MS_SIG_SIZE_ESTIMATE), m) + [plan.redeem]
    case MsP2tr =>
      Copies(Blanks(MS_SIG_SIZE_ESTIMATE_TAP), m) + Copies([], if m <= n then n - m else 0)
      + [plan.redeem, ControlBlock(c, LeafHash(c, plan.redeem))]
  }

  function SizedScriptSig(plan: QuorumPlan): bytes {
    if plan.form.MsP2sh? then
      Blanks(1 + plan.quorum.m * (1 + MS_SIG_SIZE_ESTIMATE) + PushPrefixLength(|plan.redeem|))
    else []
  }

  function QuorumIn(u: Utxo, script: bytes, stack: seq<bytes>): TxIn {
    TxIn(u.txhash, u.n, script, 0xffff_fffe, stack)
  }

  function QuorumVin(plan: QuorumPlan, script: bytes, stack: seq<bytes>): seq<TxIn> {
    MapSeq(u => QuorumIn(u, script, stack), plan.selected)
  }

  function SizedTx(c: Crypto, plan: QuorumPlan, vout: seq<TxOut>): Tx {
    Tx(2, QuorumVin(plan, SizedScriptSig(plan), SizedStack(c, plan)), vout, 0)
  }

  function UnsignedQuorumTx(plan: QuorumPlan, vout: seq<TxOut>): Tx { Tx(2, QuorumVin(plan, [], []), vout, 0) }

  function AmountOf(u: Utxo): TxOut { TxOut(u.amount, u.script) }

  function InAmount(plan: QuorumPlan): nat { Total(MapSeq(AmountOf, plan.selected)) }

  function BuildSized(c: Crypto, b58: Base58, plan: QuorumPlan, fee: nat): Result<Built<Vout>, WalletError> {
    var vout :- MakeVout(b58, plan.quorumAddress, plan.dst, InAmount(plan), Some(plan.amount), fee);
    Ok(Built(VSize(SizedTx(c, plan, vout.vout)), vout))
  }

  function BuildsSized(c: Crypto, b58: Base58, plan: QuorumPlan): Builder<Vout, WalletError> {
    (fee: nat) => BuildSized(c, b58, plan, fee)
  }

  /** Change goes back to exactly the lock script that the inputs spend. */
  lemma QuorumChangeReturns(c: Crypto, b58: Base58, plan: QuorumPlan, fee: nat)
    requires (plan.form.MsP2sh? ==> Sound(b58)) && RedeemAddress(c, b58, plan.redeem, plan.form) == Ok(plan.quorumAddress)
    requires BuildSized(c, b58, plan, fee).Ok? && BuildSized(c, b58, plan, fee).value.made.cashback > 0
    ensures var vout := BuildSized(c, b58, plan, fee).value.made.vout;
      vout != [] && vout[0].script == QuorumLockScript(c, plan.redeem, plan.form)
  {
    hide SizedTx, VSize, MakeVout, LockScript, QuorumLockScript;
    VoutConserves(b58, plan.quorumAddress, plan.dst, InAmount(plan), Some(plan.amount), fee);
    QuorumChangeScript(c, b58, plan.redeem, plan.form);
  }

  // ---------------------------------------------------------- two sizes, three passes

  lemma SameOutputLengths(c: Crypto, plan: QuorumPlan, a: seq<TxOut>, b: seq<TxOut>)
    requires |a| == |b| && forall i :: 0 <= i < |a| ==> a[i].script == b[i].script
    ensures VSize(SizedTx(c, plan, a)) == VSize(SizedTx(c, plan, b))
  {
    hide SizedStack, SizedScriptSig;
    FlatSameLength(OutBytes, a, b);
    WireLength(SizedTx(c, plan, a));
    WireLength(SizedTx(c, plan, b));
  }

  lemma {:induction false} FlatSameLength<T>(enc: T -> bytes, xs: seq<T>, ys: seq<T>)
    requires |xs| == |ys| && forall i :: 0 <= i < |xs| ==> |enc(xs[i])| == |enc(ys[i])|
    ensures |Flat(enc, xs)| == |Flat(enc, ys)|
  {
    if xs != [] { FlatSameLength(enc, xs[1..], ys[1..]); }
  }

  function ScriptOrNothing(b58: Base58, address: Text): bytes {
    match LockScript(b58, address)
    case Ok(s) => s
    case Err(_) => []
  }

  /** The only sizes an attempt can have: without change and with it. */
  function SizeWithout(c: Crypto, b58: Base58, plan: QuorumPlan): nat {
    VSize(SizedTx(c, plan, [TxOut(0, ScriptOrNothing(b58, plan.dst))]))
  }

  function SizeWith(c: Crypto, b58: Base58, plan: QuorumPlan): nat {
    VSize(SizedTx(c, plan, [TxOut(0, ScriptOrNothing(b58, plan.quorumAddress)), TxOut(0, ScriptOrNothing(b58, plan.dst))]))
  }

  lemma TwoSizes(c: Crypto, b58: Base58, plan: QuorumPlan, fee: nat)
    requires BuildSized(c, b58, plan, fee).Ok?
    ensures BuildSized(c, b58, plan, fee).value.size in {SizeWithout(c, b58, plan), SizeWith(c, b58, plan)}
  {
    hide LockScript, MakeVout, SizedTx, VSize;
    VoutConserves(b58, plan.quorumAddress, plan.dst, InAmount(plan), Some(plan.amount), fee);
    var v := BuildSized(c, b58, plan, fee).value.made.vout;
    var dst, back := ScriptOrNothing(b58, plan.dst), ScriptOrNothing(b58, plan.quorumAddress);
    if |v| == 1 {
      SameOutputLengths(c, plan, v, [TxOut(0, dst)]);
    } else {
      SameOutputLengths(c, plan, v, [TxOut(0, back), TxOut(0, dst)]);
    }
  }

  lemma SizedBounded(c: Crypto, b58: Base58, plan: QuorumPlan)
    ensures Bounded(BuildsSized(c, b58, plan), SizeWithout(c, b58, plan) + SizeWith(c, b58, plan))
  {
    hide BuildSized, SizeWithout, SizeWith;
    forall fee | BuildsSized(c, b58, plan)(fee).Ok?
      ensures BuildsSized(c, b58, plan)(fee).value.size <= SizeWithout(c, b58, plan) + SizeWith(c, b58, plan)
    {
      TwoSizes(c, b58, plan, fee);
    }
  }

  /** The fee of a quorum spend: the given one, or a choice of the loop. */
  ghost predicate QuorumFee(
      c: Crypto, b58: Base58, plan: QuorumPlan, feekb: nat, fee: nat, r: Result<Attempt<Vout>, WalletError>)
  {
    if fee == 0 then Chosen(BuildsSized(c, b58, plan), feekb, r)
    else match BuildSized(c, b58, plan, fee)
      case Err(e) => r == Err(e)
      case Ok(b) => r == Ok(Attempt(fee, b.size, b.made))
  }

  method ChooseQuorumFee(c: Crypto, b58: Base58, plan: QuorumPlan, feekb: nat, fee: nat)
    returns (r: Result<Attempt<Vout>, WalletError>)
    ensures QuorumFee(c, b58, plan, feekb, fee, r)
  {
    hide BuildSized, SizeWithout, SizeWith;
    if fee > 0 {
      var built := BuildSized(c, b58, plan, fee);
      if built.Err? { return Err(built.error); }
      return Ok(Attempt(fee, built.value.size, built.value.made));
    }
    SizedBounded(c, b58, plan);
    r := ChooseFee(BuildsSized(c, b58, plan), feekb, SizeWithout(c, b58, plan) + SizeWith(c, b58, plan));
  }

  /** Inputs equal outputs plus fee in every quorum spend. */
  lemma QuorumFeeConserves(c: Crypto, b58: Base58, plan: QuorumPlan, feekb: nat, fee: nat, best: Attempt<Vout>)
    requires QuorumFee(c, b58, plan, feekb, fee, Ok(best))
    ensures best.made.vout != [] && Total(best.made.vout) + best.fee == InAmount(plan)
    ensures fee > 0 ==> best.fee == fee
  {
    hide BuildSized, MakeVout, SizedTx, VSize;
    if fee == 0 { ChosenPays(BuildsSized(c, b58, plan), feekb, best); }
    SizedConserves(c, b58, plan, best);
  }

  lemma SizedConserves(c: Crypto, b58: Base58, plan: QuorumPlan, best: Attempt<Vout>)
    requires BuildSized(c, b58, plan, best.fee) == Ok(Built(best.size, best.made))
    ensures best.made.vout != [] && Total(best.made.vout) + best.fee == InAmount(plan)
  {
    hide SizedTx, VSize, MakeVout;
    VoutConserves(b58, plan.quorumAddress, plan.dst, InAmount(plan), Some(plan.amount), best.fee);
  }

  lemma AtMostThree(c: Crypto, b58: Base58, plan: QuorumPlan, feekb: nat, tried: seq<Attempt<Vout>>)
    requires Finished(BuildsSized(c, b58, plan), feekb, tried)
    ensures 2 <= |tried| <= 3
  {
    hide SizeWithout, SizeWith, BuildSized;
    var sizes := {SizeWithout(c, b58, plan), SizeWith(c, b58, plan)};
    forall a | a in tried
      ensures a.size in sizes
    {
      var k :| 0 <= k < |tried| && tried[k] == a;
      TwoSizes(c, b58, plan, a.fee);
    }
    AttemptsBounded(tried, sizes);
  }

  // -------------------------------------------------------------- sizes of witnesses

  lemma {:induction false} FlatNotLonger<T>(enc: T -> bytes, xs: seq<T>, ys: seq<T>)
    requires |xs| == |ys| && forall i :: 0 <= i < |xs| ==> |enc(xs[i])| <= |enc(ys[i])|
    ensures |Flat(enc, xs)| <= |Flat(enc, ys)|
  {
    if xs != [] { FlatNotLonger(enc, xs[1..], ys[1..]); }
  }

  /** Two transactions that differ in their witness stacks only. */
  predicate SameButStacks(a: Tx, b: Tx) {
    && a.version == b.version && a.vout == b.vout && a.locktime == b.locktime && |a.vin| == |b.vin|
    && forall i :: 0 <= i < |a.vin| ==> a.vin[i] == b.vin[i].(stack := a.vin[i].stack)
  }

  lemma SmallerWitness(a: Tx, b: Tx)
    requires SameButStacks(a, b)
    requires forall i :: 0 <= i < |a.vin| ==> b.vin[i].stack != [] && |WitnessBytes(a.vin[i])| <= |WitnessBytes(b.vin[i])|
    ensures VSize(a) <= VSize(b)
  {
    hide InBytes, WitnessBytes;
    StrippedOfVinAlike(a, b);
    WireLength(a);
    WireLength(b);
    FlatNotLonger(WitnessBytes, a.vin, b.vin);
    if HasWitness(a) {
      assert b.vin[0].stack != [];
    }
  }

  lemma StrippedOfVinAlike(a: Tx, b: Tx)
    requires SameButStacks(a, b)
    ensures Stripped(a) == Stripped(b)
  {
    FlatSame(InBytes, InBytes, a.vin, b.vin);
  }

  lemma P2wshStackFits(c: Crypto, plan: QuorumPlan, sigs: seq<bytes>)
    requires plan.form.MsP2wsh? && |sigs| == plan.quorum.m && forall s :: s in sigs ==> |s| <= MS_SIG_SIZE_ESTIMATE
    ensures |StackBytes(MultisigWitness(plan.redeem, sigs))| <= |StackBytes(SizedStack(c, plan))|
  {
    var a, b := MultisigWitness(plan.redeem, sigs), SizedStack(c, plan);
    forall i | 0 <= i < |a|
      ensures |VarBytes(a[i])| <= |VarBytes(b[i])|
    {
      if 1 <= i <= |sigs| { assert a[i] == sigs[i - 1] && sigs[i - 1] in sigs; }
      VarBytesMonotone(a[i], b[i]);
    }
    FlatNotLonger(VarBytes, a, b);
  }

  lemma {:induction false} CopiesLength(item: bytes, n: nat)
    ensures |Flat(VarBytes, Copies(item, n))| == |VarBytes(item)| * n
  {
    hide VarBytes;
    if n > 0 {
      assert Copies(item, n)[1..] == Copies(item, n - 1);
      CopiesLength(item, n - 1);
      MulSucc(|VarBytes(item)|, n - 1);
    }
  }

  lemma {:induction false} SlotsLength(slots: seq<Option<bytes>>)
    requires forall s :: s in slots && s.Some? ==> |s.value| == 64
    ensures Filled(slots) <= |slots|
    ensures |Flat(VarBytes, Reversed(SlotItems(slots)))| == 64 * Filled(slots) + |slots|
  {
    if slots != [] {
      assert forall s :: s in slots[1..] ==> s in slots;
      assert slots[0] in slots;
      SlotsLength(slots[1..]);
      SlotsTop(slots);
      FlatSnoc(VarBytes, Reversed(SlotItems(slots[1..])), SlotItem(slots[0]));
    }
  }

  lemma TapStackFits(c: Crypto, plan: QuorumPlan, slots: seq<Option<bytes>>)
    requires plan.form.MsP2tr? && |slots| == |plan.quorum.keys| && plan.quorum.m <= |slots|
    requires Filled(slots) == plan.quorum.m && forall s :: s in slots && s.Some? ==> |s.value| == 64
    ensures |StackBytes(TapscriptWitness(plan.redeem, ControlBlock(c, LeafHash(c, plan.redeem)), slots))|
         <= |StackBytes(SizedStack(c, plan))|
  {
    hide ControlBlock, LeafHash, VarBytes, SlotItem, Flat, CompactSize;
    var m, n := plan.quorum.m, |slots|;
    var tail := [plan.redeem, ControlBlock(c, LeafHash(c, plan.redeem))];
    FlatConcat(VarBytes, Reversed(SlotItems(slots)), tail);
    SlotsLength(slots);
    SizedSlots(m, n, tail);
  }

  /** The estimated slots take 67 bytes each for the signers and one for the others. */
  lemma SizedSlots(m: nat, n: nat, tail: seq<bytes>)
    requires m <= n
    ensures |Flat(VarBytes, Copies(Blanks(MS_SIG_SIZE_ESTIMATE_TAP), m) + Copies([], n - m) + tail)|
         == 66 * m + n + |Flat(VarBytes, tail)|
  {
    hide VarBytes, Flat;
    var full, empty := Copies(Blanks(MS_SIG_SIZE_ESTIMATE_TAP), m), Copies([], n - m);
    CopiesLength(Blanks(MS_SIG_SIZE_ESTIMATE_TAP), m);
    CopiesLength([], n - m);
    BlankLengths();
    FlatConcat(VarBytes, full + empty, tail);
    FlatConcat(VarBytes, full, empty);
  }

  lemma BlankLengths()
    ensures |VarBytes(Blanks(MS_SIG_SIZE_ESTIMATE_TAP))| == 67 && |VarBytes([])| == 1
  {}

  // ------------------------------------------------------------ the fee still covers

  /** An input of a container that spends the quorum's own output, as the Creator sets
      it up, with signatures of any members; ECDSA items have at most 73 bytes. */
  predicate QuorumInput(c: Crypto, p: Psbt, i: nat, plan: QuorumPlan)
    requires Parallel(p) && i < |p.inputs|
  {
    && UtxoData(p, i).Some? && UtxoData(p, i).value.script == QuorumLockScript(c, plan.redeem, plan.form)
    && !IsFinal(p.inputs[i])
    && match plan.form
       case MsP2sh =>
         && p.inputs[i].redeemScript == Some(plan.redeem) && ExtractQuorum(plan.redeem) == Some(plan.quorum)
         && forall s :: s in p.inputs[i].partialSigs ==> |s.value| <= MS_SIG_SIZE_ESTIMATE
       case MsP2wsh =>
         && p.inputs[i].witnessScript == Some(plan.redeem) && ExtractQuorum(plan.redeem) == Some(plan.quorum)
         && forall s :: s in p.inputs[i].partialSigs ==> |s.value| <= MS_SIG_SIZE_ESTIMATE
       case MsP2tr =>
         && p.inputs[i].tapLeafScripts ==
              [Pair(ControlBlock(c, LeafHash(c, plan.redeem)), plan.redeem + [TAPSCRIPT_LEAF_VERSION])]
         && ExtractTapscript(plan.redeem) == Some(plan.quorum)
  }

  /** Input `i` of `q` is that of `p` after finalizing. */
  predicate FinalizedAt(c: Crypto, p: Psbt, q: Psbt, i: nat)
    requires Parallel(p) && i < |p.inputs|
  {
    q == p.(inputs := q.inputs) && |q.inputs| == |p.inputs| && q.inputs[i] == FinalizedInput(c, p, i)
  }

  lemma ExtractedWasFinal(c: Crypto, p: Psbt, q: Psbt, i: nat)
    requires Parallel(p) && i < |p.inputs| && Parallel(q) && FinalizedAt(c, p, q, i) && !IsFinal(p.inputs[i])
    requires ExtractIn(q, i).Ok?
    ensures FinalInput(c, p, i) == Ok(q.inputs[i])
  {
    hide FinalInput, UtxoData, DecodeWitnessStack, FormOfScript;
  }

  lemma P2wshFinalStack(c: Crypto, p: Psbt, i: nat, plan: QuorumPlan) returns (sigs: seq<bytes>)
    requires Parallel(p) && i < |p.inputs| && QuorumInput(c, p, i, plan) && plan.form.MsP2wsh?
    requires FinalInput(c, p, i).Ok?
    ensures |sigs| == plan.quorum.m && forall s :: s in sigs ==> |s| <= MS_SIG_SIZE_ESTIMATE
    ensures FinalInput(c, p, i).value.finalScriptWitness == Some(StackBytes(MultisigWitness(plan.redeem, sigs)))
    ensures FinalInput(c, p, i).value.finalScriptSig.None?
  {
    hide QuorumSigs, ExtractQuorum, StackBytes, UtxoData, TapFinal, P2shFinal, KeyFinal;
    var input, lock := p.inputs[i], UtxoData(p, i).value.script;
    var hash := c.sha256(plan.redeem);
    assert lock[2..34] == hash;
    var script := input.witnessScript;
    QuorumSigsOk(input, i, script, script.Some? && c.sha256(script.value) == lock[2..34]);
    var all := MemberSigs(plan.quorum.keys, input.partialSigs, i).value;
    MemberSigsIn(plan.quorum.keys, input.partialSigs, i);
    sigs := all[..plan.quorum.m];
    forall s | s in sigs
      ensures |s| <= MS_SIG_SIZE_ESTIMATE
    {
      assert s in all;
      var k :| k in plan.quorum.keys && Pair(k, s) in input.partialSigs;
      assert |Pair(k, s).value| <= MS_SIG_SIZE_ESTIMATE;
    }
  }

  lemma QuorumOutputShapes(c: Crypto, redeem: bytes, form: MsForm)
    ensures var lock := QuorumLockScript(c, redeem, form);
      match form
      case MsP2sh => IsP2sh(lock)
      case MsP2wsh => IsP2wsh(lock) && FormOfScript(lock).None? && !IsP2sh(lock)
      case MsP2tr => IsP2tr(lock) && FormOfScript(lock).Some? && FormOfScript(lock).value.P2tr?
  {}

  lemma P2wshInputFits(c: Crypto, p: Psbt, q: Psbt, i: nat, plan: QuorumPlan)
    requires Parallel(p) && i < |p.inputs| && Parallel(q) && FinalizedAt(c, p, q, i)
    requires QuorumInput(c, p, i, plan) && plan.form.MsP2wsh? && ExtractIn(q, i).Ok?
    ensures var t := ExtractIn(q, i).value; t.script == [] && |WitnessBytes(t)| <= |StackBytes(SizedStack(c, plan))|
  {
    hide FinalInput, UtxoData, StackBytes, DecodeWitnessStack, MultisigWitness, SizedStack, FormOfScript;
    ExtractedWasFinal(c, p, q, i);
    FinalInputKeeps(c, p, i);
    UtxoKept(p, q, i);
    QuorumOutputShapes(c, plan.redeem, plan.form);
    var sigs := P2wshFinalStack(c, p, i, plan);
    SigsStackFits(plan, sigs);
    DecodeWitnessStackOfBytes(MultisigWitness(plan.redeem, sigs));
    P2wshStackFits(c, plan, sigs);
  }

  lemma UtxoKept(p: Psbt, q: Psbt, i: nat)
    requires Parallel(p) && Parallel(q) && i < |p.inputs| == |q.inputs| && p.unsignedTx == q.unsignedTx
    requires KeepsUtxo(p.inputs[i], q.inputs[i])
    ensures UtxoData(q, i) == UtxoData(p, i)
  {}

  lemma SigsStackFits(plan: QuorumPlan, sigs: seq<bytes>)
    requires ExtractQuorum(plan.redeem) == Some(plan.quorum) && |sigs| == plan.quorum.m
    requires forall s :: s in sigs ==> |s| <= MS_SIG_SIZE_ESTIMATE
    ensures StackFits(MultisigWitness(plan.redeem, sigs))
  {
    ExtractedRedeem(plan.redeem);
    assert HasLength(plan.quorum.keys, 33);
    SplitRedeem(plan.quorum);
    var stack := MultisigWitness(plan.redeem, sigs);
    forall i | 0 <= i < |stack|
      ensures Fits(stack[i])
    {
      if 1 <= i <= |sigs| { assert stack[i] == sigs[i - 1] && sigs[i - 1] in sigs; }
    }
  }

  lemma OwnLeaf(c: Crypto, p: Psbt, i: nat, plan: QuorumPlan)
    requires Parallel(p) && i < |p.inputs| && QuorumInput(c, p, i, plan) && plan.form.MsP2tr?
    ensures IsP2tr(UtxoData(p, i).value.script)
    ensures ReadLeaf(c, p.inputs[i], UtxoData(p, i).value).Ok? ==>
      ReadLeaf(c, p.inputs[i], UtxoData(p, i).value).value
      == Leaf(ControlBlock(c, LeafHash(c, plan.redeem)), plan.redeem, LeafHash(c, plan.redeem), plan.quorum)
  {
    hide UtxoData, ExtractTapscript, ControlBlock, LeafHash;
    var value := plan.redeem + [TAPSCRIPT_LEAF_VERSION];
    assert value[..|value| - 1] == plan.redeem;
    QuorumOutputShapes(c, plan.redeem, plan.form);
  }

  lemma TapInputFits(c: Crypto, p: Psbt, q: Psbt, i: nat, plan: QuorumPlan)
    requires Parallel(p) && i < |p.inputs| && Parallel(q) && FinalizedAt(c, p, q, i)
    requires QuorumInput(c, p, i, plan) && plan.form.MsP2tr? && ExtractIn(q, i).Ok?
    ensures var t := ExtractIn(q, i).value; t.script == [] && |WitnessBytes(t)| <= |StackBytes(SizedStack(c, plan))|
  {
    hide FinalInput, UtxoData, StackBytes, DecodeWitnessStack, TapscriptWitness, SizedStack, FormOfScript, ReadLeaf,
         TapFinal, SigSlots, LeafHash, ControlBlock, Filled, StackFits, ExtractTapscript;
    ExtractedWasFinal(c, p, q, i);
    FinalInputKeeps(c, p, i);
    UtxoKept(p, q, i);
    QuorumOutputShapes(c, plan.redeem, plan.form);
    OwnLeaf(c, p, i, plan);
    var input, utxo := p.inputs[i], UtxoData(p, i).value;
    TapFinalApplies(c, p, i);
    TapFinalOf(c, input, i, utxo);
    var leaf := ReadLeaf(c, input, utxo).value;
    var slots := SigSlots(leaf.quorum.keys, leaf.hash, input.tapScriptSigs, leaf.quorum.m, i).value;
    SlotsOfFinalizer((_, _) => true, leaf.quorum.keys, leaf.hash, input.tapScriptSigs, leaf.quorum.m, i);
    TapscriptFacts(leaf.script);
    WitnessFits(leaf.script, leaf.controlBlock, slots);
    DecodeWitnessStackOfBytes(TapscriptWitness(leaf.script, leaf.controlBlock, slots));
    TapStackFits(c, plan, slots);
  }

  lemma TapFinalApplies(c: Crypto, p: Psbt, i: nat)
    requires Parallel(p) && i < |p.inputs| && UtxoData(p, i).Some? && IsP2tr(UtxoData(p, i).value.script)
    requires !IsFinal(p.inputs[i]) && p.inputs[i].tapLeafScripts != []
    ensures FinalInput(c, p, i) == TapFinal(c, p.inputs[i], i, UtxoData(p, i).value)
  {
    ShapesDisjoint(UtxoData(p, i).value.script);
    hide TapFinal, UtxoData;
  }

  lemma QuorumInputNeverStops(c: Crypto, p: Psbt, i: nat, plan: QuorumPlan)
    requires Parallel(p) && i < |p.inputs| && QuorumInput(c, p, i, plan)
    ensures FinalInput(c, p, i) != Err(PushTooLong)
  {
    hide FinalInput, UtxoData, ControlBlock, LeafHash, TapFinal, ExtractTapscript, ExtractQuorum;
    QuorumOutputShapes(c, plan.redeem, plan.form);
    if plan.form.MsP2tr? {
      TapFinalApplies(c, p, i);
      TapFinalError(c, p.inputs[i], i, UtxoData(p, i).value);
    } else {
      PushableInput(c, p, i);
    }
  }

  /** Whatever members sign, in whatever order: the transaction extracted from the
      finalized container is no larger than the one the fee was chosen for. */
  lemma SpendWithinEstimate(c: Crypto, plan: QuorumPlan, vout: seq<TxOut>, p: Psbt)
    requires !plan.form.MsP2sh? && Parallel(p) && p.unsignedTx == UnsignedQuorumTx(plan, vout)
    requires forall i :: 0 <= i < |p.inputs| ==> QuorumInput(c, p, i, plan)
    ensures Parallel(Finalize(c, p).psbt)
    ensures Extract(Finalize(c, p).psbt).Ok? ==>
      VSize(Extract(Finalize(c, p).psbt).value) <= VSize(SizedTx(c, plan, vout))
  {
    hide FinalInput, FinalizedInput, ExtractIn, QuorumInput, SizedStack, VSize, WitnessBytes, StackBytes;
    forall i | 0 <= i < |p.inputs|
      ensures FinalInput(c, p, i) != Err(PushTooLong)
    {
      QuorumInputNeverStops(c, p, i, plan);
    }
    FinalizeEach(c, p);
    var q := Finalize(c, p).psbt;
    if Extract(q).Ok? {
      var t, b := Extract(q).value, SizedTx(c, plan, vout);
      forall i | 0 <= i < |t.vin|
        ensures t.vin[i] == b.vin[i].(stack := t.vin[i].stack) && b.vin[i].stack != []
        ensures |WitnessBytes(t.vin[i])| <= |WitnessBytes(b.vin[i])|
      {
        ExtractInShape(q, i);
        if plan.form.MsP2wsh? { P2wshInputFits(c, p, q, i, plan); } else { TapInputFits(c, p, q, i, plan); }
        SizedIn(c, plan, vout, i);
      }
      SmallerWitness(t, b);
    }
  }

  lemma SizedIn(c: Crypto, plan: QuorumPlan, vout: seq<TxOut>, i: nat)
    requires !plan.form.MsP2sh? && i < |plan.selected|
    ensures var b, u := SizedTx(c, plan, vout).vin[i], UnsignedQuorumTx(plan, vout).vin[i];
      && b == u.(stack := SizedStack(c, plan)) && b.stack != [] && u.script == []
      && |WitnessBytes(b)| == |StackBytes(SizedStack(c, plan))|
  {}

  /** The fee the loop chose still pays the rate for the finished transaction. */
  lemma FeeCoversSpend(c: Crypto, b58: Base58, plan: QuorumPlan, feekb: nat, best: Attempt<Vout>, p: Psbt)
    requires Chosen(BuildsSized(c, b58, plan), feekb, Ok(best))
    requires feekb >= MIN_RELAY_TX_FEE && !plan.form.MsP2sh?
    requires Parallel(p) && p.unsignedTx == UnsignedQuorumTx(plan, best.made.vout)
    requires forall i :: 0 <= i < |p.inputs| ==> QuorumInput(c, p, i, plan)
    ensures Parallel(Finalize(c, p).psbt)
    ensures Extract(Finalize(c, p).psbt).Ok? ==> best.fee >= Rate(VSize(Extract(Finalize(c, p).psbt).value), feekb)
    ensures Total(best.made.vout) + best.fee == InAmount(plan)
  {
    hide SizedTx, VSize, Rate, Chosen, QuorumInput, Finalize, Extract, MakeVout;
    ChosenPays(BuildsSized(c, b58, plan), feekb, best);
    SpendWithinEstimate(c, plan, best.made.vout, p);
    VoutConserves(b58, plan.quorumAddress, plan.dst, InAmount(plan), Some(plan.amount), best.fee);
    if Extract(Finalize(c, p).psbt).Ok? {
      RateMonotone(VSize(Extract(Finalize(c, p).psbt).value), best.size, feekb);
    }
  }
}
