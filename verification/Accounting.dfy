/** Building and paying for a wallet transaction: inputs, outputs, the fee loop over
    the signed transaction, and where every satoshi goes. */
module Accounting {
  import opened Bytes
  import opened Wire
  import opened Transactions
  import opened Scripts
  import opened Sighashes
  import opened Signing
  import opened FinalizeFrame
  import opened DirectSigning
  import opened Addresses
  import opened FeeLoop

  datatype WalletError =
    | InputBelowFee | AmountAboveInput | AmountOutOfRange | Address(e: AddressError)
    | UnsupportedUtxoScript | P2shNotSpendable | UnknownPubKey | SigningFailed(error: Error)

  // ----------------------------------------------------------------------- outputs

  datatype Vout = Vout(vout: seq<TxOut>, cashback: nat, amount: nat)

  function ScriptFor(b58: Base58, address: Text): Result<bytes, WalletError> {
    match LockScript(b58, address)
    case Ok(s) => Ok(s)
    case Err(e) => Err(Address(e))
  }

  function Output(amount: nat, script: bytes): Result<TxOut, WalletError> {
    if amount >= 0x1_0000_0000_0000_0000 then Err(AmountOutOfRange) else Ok(TxOut(amount, script))
  }

  /** Change to `src` and the amount to `dst`; without change, or with no amount given,
      everything but the fee to `dst`. */
  function MakeVout(b58: Base58, src: Text, dst: Text, inAmount: nat, amount: Option<nat>, fee: nat)
      : Result<Vout, WalletError>
  {
    if inAmount < fee then Err(InputBelowFee)
    else if amount.Some? && amount.value + fee > inAmount then Err(AmountAboveInput)
    else
      var script :- ScriptFor(b58, dst);
      if amount.None? || amount.value + fee == inAmount then
        var out :- Output(inAmount - fee, script);
        Ok(Vout([out], 0, inAmount - fee))
      else
        var back := inAmount - amount.value - fee;
        var change :- ScriptFor(b58, src);
        var backOut :- Output(back, change);
        var out :- Output(amount.value, script);
        Ok(Vout([backOut, out], back, amount.value))
  }

  function Total(outs: seq<TxOut>): nat { if outs == [] then 0 else outs[0].amount + Total(outs[1..]) }

  /** Nothing is lost: inputs are outputs plus fee; the payee gets what was asked, and
      change exists exactly when something is left, paid to the change address. */
  lemma VoutConserves(b58: Base58, src: Text, dst: Text, inAmount: nat, amount: Option<nat>, fee: nat)
    requires MakeVout(b58, src, dst, inAmount, amount, fee).Ok?
    ensures var v := MakeVout(b58, src, dst, inAmount, amount, fee).value;
      && Total(v.vout) + fee == inAmount && v.cashback + v.amount + fee == inAmount
      && (amount.Some? ==> v.amount == amount.value) && (amount.None? ==> v.cashback == 0)
      && LockScript(b58, dst).Ok? && v.vout[|v.vout| - 1] == TxOut(v.amount, LockScript(b58, dst).value)
      && (v.cashback > 0 <==> |v.vout| == 2) && 1 <= |v.vout| <= 2
      && (v.cashback > 0 ==> LockScript(b58, src).Ok? && v.vout[0] == TxOut(v.cashback, LockScript(b58, src).value))
  {
    hide LockScript;
    var v := MakeVout(b58, src, dst, inAmount, amount, fee).value;
    TotalShort(v.vout);
  }

  lemma TotalShort(outs: seq<TxOut>)
    ensures |outs| == 1 ==> Total(outs) == outs[0].amount
    ensures |outs| == 2 ==> Total(outs) == outs[0].amount + outs[1].amount
  {
    if |outs| == 1 { assert Total(outs[1..]) == 0; }
    if |outs| == 2 {
      assert Total(outs[1..][1..]) == 0;
      assert Total(outs[1..]) == outs[1].amount + Total(outs[1..][1..]);
    }
  }

  // ------------------------------------------------------------------------ inputs

  datatype Utxo = Utxo(txhash: Hash32, n: u32, amount: u64, script: bytes)

  /** A key and the outputs found at one of its addresses. */
  datatype Source = Source(key: PubKey, unspent: seq<Utxo>)

  datatype Held = Held(key: PubKey, utxo: Utxo)

  function HeldBy(s: Source): seq<Held> { MapSeq(u => Held(s.key, u), s.unspent) }

  function AllHeld(sources: seq<Source>): seq<Held> {
    if sources == [] then [] else AllHeld(sources[..|sources| - 1]) + HeldBy(sources[|sources| - 1])
  }

  /** Why an output cannot be spent by its key, if so. */
  function Refusal(c: Crypto, h: Held): Option<WalletError> {
    if IsP2sh(h.utxo.script) then Some(P2shNotSpendable)
    else if FormOfScript(h.utxo.script).None? then Some(UnsupportedUtxoScript)
    else if OwnForm(c, h.utxo.script, h.key).None? then Some(UnknownPubKey)
    else None
  }

  /** The refusal met first. */
  function FirstRefusal(c: Crypto, hs: seq<Held>): Option<WalletError> {
    if hs == [] then None
    else match FirstRefusal(c, hs[..|hs| - 1])
      case Some(e) => Some(e)
      case None => Refusal(c, hs[|hs| - 1])
  }

  lemma {:induction false} FirstRefusalStays(c: Crypto, hs: seq<Held>, all: seq<Held>)
    requires hs <= all && FirstRefusal(c, hs).Some?
    ensures FirstRefusal(c, all) == FirstRefusal(c, hs)
    decreases |all|
  {
    hide Refusal;
    if |hs| == |all| { assert hs == all; } else { FirstRefusalStays(c, hs, all[..|all| - 1]); }
  }

  /** Building is refused exactly when some output cannot be spent by its key. */
  lemma {:induction false} RefusedIffUnspendable(c: Crypto, hs: seq<Held>)
    ensures FirstRefusal(c, hs).None? <==> forall h :: h in hs ==> Refusal(c, h).None?
  {
    hide Refusal;
    if hs != [] {
      RefusedIffUnspendable(c, hs[..|hs| - 1]);
      assert hs == hs[..|hs| - 1] + [hs[|hs| - 1]];
    }
  }

  function VinOf(h: Held): TxIn { TxIn(h.utxo.txhash, h.utxo.n, h.utxo.script, 0xffff_ffff, []) }

  function SpentOf(h: Held): TxOut { TxOut(h.utxo.amount, h.utxo.script) }

  function KeyOf(h: Held): PubKey { h.key }

  /** Parallel lists: inputs, the keys that sign them, and what they spend. */
  datatype Inputs = Inputs(vin: seq<TxIn>, total: nat, keys: seq<PubKey>, spend: seq<TxOut>)

  function InputsOf(hs: seq<Held>): Inputs {
    Inputs(MapSeq(VinOf, hs), Total(MapSeq(SpentOf, hs)), MapSeq(KeyOf, hs), MapSeq(SpentOf, hs))
  }

  lemma {:induction false} TotalConcat(a: seq<TxOut>, b: seq<TxOut>)
    ensures Total(a + b) == Total(a) + Total(b)
  {
    if a == [] {
      assert a + b == b;
    } else {
      assert (a + b)[1..] == a[1..] + b;
      TotalConcat(a[1..], b);
    }
  }

  lemma InputsSnoc(hs: seq<Held>, h: Held)
    ensures InputsOf(hs + [h]) ==
      Inputs(InputsOf(hs).vin + [VinOf(h)], InputsOf(hs).total + h.utxo.amount,
             InputsOf(hs).keys + [h.key], InputsOf(hs).spend + [SpentOf(h)])
  {
    assert MapSeq(VinOf, hs + [h]) == MapSeq(VinOf, hs) + [VinOf(h)];
    assert MapSeq(KeyOf, hs + [h]) == MapSeq(KeyOf, hs) + [h.key];
    assert MapSeq(SpentOf, hs + [h]) == MapSeq(SpentOf, hs) + [SpentOf(h)];
    TotalConcat(MapSeq(SpentOf, hs), [SpentOf(h)]);
    assert [SpentOf(h)][1..] == [];
  }

  /** The parallel lists cover every output of every source in order; the first output
      that its key cannot spend stops the building. */
  method MakeVin(c: Crypto, sources: seq<Source>) returns (r: Result<Inputs, WalletError>)
    ensures r == match FirstRefusal(c, AllHeld(sources))
                 case Some(e) => Err(e)
                 case None => Ok(InputsOf(AllHeld(sources)))
  {
    hide Refusal, InputsOf, FirstRefusal, HeldBy;
    var acc := Inputs([], 0, [], []);
    NoInputs();
    NothingRefused(c);
    for i := 0 to |sources|
      invariant acc == InputsOf(AllHeld(sources[..i])) && FirstRefusal(c, AllHeld(sources[..i])) == None
    {
      HeldPrefix(sources, i);
      var next := AddSource(c, sources[i], acc, AllHeld(sources[..i]));
      if next.Err? {
        HeldWithin(sources, i + 1);
        FirstRefusalStays(c, AllHeld(sources[..i + 1]), AllHeld(sources));
        return Err(next.error);
      }
      acc := next.value;
    }
    assert sources[..|sources|] == sources;
    return Ok(acc);
  }

  lemma NothingRefused(c: Crypto)
    ensures FirstRefusal(c, []) == None
  {}

  /** The outputs of one source behind those of the sources before. */
  method AddSource(c: Crypto, s: Source, start: Inputs, ghost before: seq<Held>) returns (r: Result<Inputs, WalletError>)
    requires start == InputsOf(before) && FirstRefusal(c, before) == None
    ensures r == match FirstRefusal(c, before + HeldBy(s))
                 case Some(e) => Err(e)
                 case None => Ok(InputsOf(before + HeldBy(s)))
  {
    hide Refusal, InputsOf;
    var acc := start;
    assert before + HeldBy(s)[..0] == before;
    for j := 0 to |s.unspent|
      invariant acc == InputsOf(before + HeldBy(s)[..j]) && FirstRefusal(c, before + HeldBy(s)[..j]) == None
    {
      var u := s.unspent[j];
      var h := Held(s.key, u);
      ghost var met := before + HeldBy(s)[..j];
      assert HeldBy(s)[j] == h && before + HeldBy(s)[..j + 1] == met + [h];
      assert (met + [h])[..|met|] == met;
      var refusal := Refusal(c, h);
      if refusal.Some? {
        FirstRefusalStays(c, met + [h], before + HeldBy(s));
        return Err(refusal.value);
      }
      InputsSnoc(met, h);
      acc := Inputs(acc.vin + [VinOf(h)], acc.total + u.amount, acc.keys + [h.key], acc.spend + [SpentOf(h)]);
    }
    assert HeldBy(s)[..|s.unspent|] == HeldBy(s);
    return Ok(acc);
  }

  lemma NoInputs()
    ensures InputsOf([]) == Inputs([], 0, [], []) && AllHeld([]) == []
  {}

  lemma HeldPrefix(sources: seq<Source>, i: nat)
    requires i < |sources|
    ensures AllHeld(sources[..i + 1]) == AllHeld(sources[..i]) + HeldBy(sources[i])
  {
    assert sources[..i + 1][..i] == sources[..i];
  }

  lemma {:induction false} HeldWithin(sources: seq<Source>, i: nat)
    requires i <= |sources|
    ensures AllHeld(sources[..i]) <= AllHeld(sources)
    decreases |sources|
  {
    if i == |sources| {
      assert sources[..i] == sources;
    } else {
      assert sources[..|sources| - 1][..i] == sources[..i];
      HeldWithin(sources[..|sources| - 1], i);
    }
  }

  // ------------------------------------------------------------ the transaction loop

  /** What a spend is made of before its fee is known. */
  datatype Plan = Plan(inputs: Inputs, src: Text, dst: Text, amount: Option<nat>)

  /** A signed candidate and the outputs it was made with. */
  datatype Candidate = Candidate(vout: Vout, tx: Tx)

  function UnsignedTx(plan: Plan, vout: Vout): Tx { Tx(2, plan.inputs.vin, vout.vout, 0) }

  function BuildSigned(c: Crypto, b58: Base58, plan: Plan, fee: nat): Result<Built<Candidate>, WalletError> {
    var vout :- MakeVout(b58, plan.src, plan.dst, plan.inputs.total, plan.amount, fee);
    match SignDirect(c, UnsignedTx(plan, vout), plan.inputs.keys, Some(plan.inputs.spend))
    case Err(e) => Err(SigningFailed(e))
    case Ok(tx) => Ok(Built(VSize(tx), Candidate(vout, tx)))
  }

  function Builds(c: Crypto, b58: Base58, plan: Plan): Builder<Candidate, WalletError> {
    (fee: nat) => BuildSigned(c, b58, plan, fee)
  }

  function ScriptLength(b58: Base58, address: Text): nat {
    match LockScript(b58, address)
    case Ok(s) => |s|
    case Err(_) => 0
  }

  /** More than any candidate of the plan can measure. */
  function SizeBound(b58: Base58, plan: Plan): nat {
    300 * |plan.inputs.vin| + ScriptLength(b58, plan.src) + ScriptLength(b58, plan.dst) + 60
  }

  lemma {:induction false} FlatMaxLength<T>(enc: T -> bytes, xs: seq<T>, each: nat)
    requires forall i :: 0 <= i < |xs| ==> |enc(xs[i])| <= each
    ensures |Flat(enc, xs)| <= each * |xs|
  {
    if xs != [] {
      FlatMaxLength(enc, xs[1..], each);
      MulSucc(each, |xs[1..]|);
    }
  }

  lemma SignedInSize(c: Crypto, tx: Tx, keys: seq<PubKey>, spend: Option<seq<TxOut>>, i: nat)
    requires i < |tx.vin| == |keys| && tx.vin[i].stack == [] && SignedIn(c, tx, keys, spend, i).Ok?
    ensures var t := SignedIn(c, tx, keys, spend, i).value; |InBytes(t)| <= 160 && |WitnessBytes(t)| <= 140
  {
    hide LegacyDigest, Bip143Digest, KeypathDigest, InlinePushes;
    var t := SignedIn(c, tx, keys, spend, i).value;
    if IsP2wpkh(tx.vin[i].script) {
      TwoItems(t.stack);
    } else if IsP2tr(tx.vin[i].script) {
      OneItem(t.stack);
    } else {
      var signature := c.ecdsa(keys[i], LegacyDigest(c, tx, i, tx.vin[i].script)) + [SIGHASH_ALL];
      InlineTwo(signature, keys[i]);
      assert t.stack == [] && Flat(VarBytes, t.stack) == [];
    }
  }

  lemma FlatLengths<T>(enc: T -> bytes, xs: seq<T>)
    ensures |xs| == 1 ==> |Flat(enc, xs)| == |enc(xs[0])|
    ensures |xs| == 2 ==> |Flat(enc, xs)| == |enc(xs[0])| + |enc(xs[1])|
  {
    if |xs| == 1 { assert Flat(enc, xs[1..]) == []; }
    if |xs| == 2 {
      assert Flat(enc, xs[1..][1..]) == [];
      assert Flat(enc, xs[1..]) == enc(xs[1]) + Flat(enc, xs[1..][1..]);
    }
  }

  lemma OneItem(stack: seq<bytes>)
    requires |stack| == 1 && |stack[0]| <= 64
    ensures |StackBytes(stack)| <= 140
  {
    FlatLengths(VarBytes, stack);
    assert |VarBytes(stack[0])| <= 9 + |stack[0]|;
  }

  lemma TwoItems(stack: seq<bytes>)
    requires |stack| == 2 && |stack[0]| <= 73 && |stack[1]| <= 33
    ensures |StackBytes(stack)| <= 140
  {
    FlatLengths(VarBytes, stack);
    assert |VarBytes(stack[0])| <= 9 + |stack[0]| && |VarBytes(stack[1])| <= 9 + |stack[1]|;
  }

  lemma VoutSize(b58: Base58, plan: Plan, fee: nat)
    requires MakeVout(b58, plan.src, plan.dst, plan.inputs.total, plan.amount, fee).Ok?
    ensures var v := MakeVout(b58, plan.src, plan.dst, plan.inputs.total, plan.amount, fee).value.vout;
      |Flat(OutBytes, v)| <= 34 + ScriptLength(b58, plan.src) + ScriptLength(b58, plan.dst)
  {
    hide LockScript;
    VoutConserves(b58, plan.src, plan.dst, plan.inputs.total, plan.amount, fee);
    var v := MakeVout(b58, plan.src, plan.dst, plan.inputs.total, plan.amount, fee).value;
    FlatLengths(OutBytes, v.vout);
    assert forall o: TxOut :: |OutBytes(o)| <= 17 + |o.script|;
  }

  /** No candidate exceeds the bound, whatever fee it was built with. */
  lemma CandidatesBounded(c: Crypto, b58: Base58, plan: Plan)
    requires forall i :: 0 <= i < |plan.inputs.vin| ==> plan.inputs.vin[i].stack == []
    ensures Bounded(Builds(c, b58, plan), SizeBound(b58, plan))
  {
    hide BuildSigned, SizeBound;
    forall fee | Builds(c, b58, plan)(fee).Ok?
      ensures Builds(c, b58, plan)(fee).value.size <= SizeBound(b58, plan)
    {
      CandidateBounded(c, b58, plan, fee);
    }
  }

  lemma CandidateBounded(c: Crypto, b58: Base58, plan: Plan, fee: nat)
    requires forall i :: 0 <= i < |plan.inputs.vin| ==> plan.inputs.vin[i].stack == []
    requires BuildSigned(c, b58, plan, fee).Ok?
    ensures BuildSigned(c, b58, plan, fee).value.size <= SizeBound(b58, plan)
  {
    hide SignedIn, MakeVout, ScriptLength, InBytes, WitnessBytes, OutBytes;
    var vout := MakeVout(b58, plan.src, plan.dst, plan.inputs.total, plan.amount, fee).value;
    var u, t := UnsignedTx(plan, vout), BuildSigned(c, b58, plan, fee).value.made.tx;
    var keys, spend := plan.inputs.keys, Some(plan.inputs.spend);
    VoutSize(b58, plan, fee);
    assert SignedIns(c, u, keys, spend, |u.vin|) == Ok(t.vin);
    forall i | 0 <= i < |t.vin|
      ensures |InBytes(t.vin[i])| <= 160 && |WitnessBytes(t.vin[i])| <= 140
    {
      SignedInSize(c, u, keys, spend, i);
    }
    FlatMaxLength(InBytes, t.vin, 160);
    FlatMaxLength(WitnessBytes, t.vin, 140);
    WireLength(t);
    VSizeBounds(t);
    StrippedLength(t);
  }

  lemma StrippedLength(t: Tx)
    ensures |Stripped(t)| <= 26 + |Flat(InBytes, t.vin)| + |Flat(OutBytes, t.vout)|
  {
    hide InBytes, OutBytes;
  }

  datatype TxResult = TxResult(tx: Tx, cashback: nat, amount: nat, fee: nat)

  function PlanOf(sources: seq<Source>, src: Text, dst: Text, amount: Option<nat>): Plan {
    Plan(InputsOf(AllHeld(sources)), src, dst, amount)
  }

  function Amounts(hs: seq<Held>): nat { Total(MapSeq(SpentOf, hs)) }

  /** The transaction spends these outputs, in this order. */
  predicate SpendsAll(tx: Tx, hs: seq<Held>) {
    |tx.vin| == |hs|
    && forall i :: 0 <= i < |hs| ==> tx.vin[i].txhash == hs[i].utxo.txhash && tx.vin[i].n == hs[i].utxo.n
  }

  /** Signed from what the sources hold, and accounted for to the satoshi: what the spent
      outputs amount to is what the new outputs and the fee amount to. */
  ghost predicate Settles(sources: seq<Source>, amount: Option<nat>, r: TxResult) {
    && SpendsAll(r.tx, AllHeld(sources)) && Total(r.tx.vout) + r.fee == Amounts(AllHeld(sources))
    && r.cashback + r.amount + r.fee == Amounts(AllHeld(sources)) && (amount.Some? ==> r.amount == amount.value)
  }

  lemma BuiltSettles(c: Crypto, b58: Base58, sources: seq<Source>, src: Text, dst: Text, amount: Option<nat>, fee: nat)
    requires BuildSigned(c, b58, PlanOf(sources, src, dst, amount), fee).Ok?
    ensures var s := BuildSigned(c, b58, PlanOf(sources, src, dst, amount), fee).value;
      s.size == VSize(s.made.tx) && Settles(sources, amount, ResultOf(fee, s.made))
  {
    hide SignDirect, MakeVout, VSize, AllHeld, MapSeq;
    var plan := PlanOf(sources, src, dst, amount);
    VoutConserves(b58, src, dst, plan.inputs.total, amount, fee);
    SignDirectKeeps(c, UnsignedTx(plan, BuildSigned(c, b58, plan, fee).value.made.vout), plan.inputs.keys,
                    Some(plan.inputs.spend));
  }

  lemma SignDirectKeeps(c: Crypto, tx: Tx, keys: seq<PubKey>, spend: Option<seq<TxOut>>)
    requires SignDirect(c, tx, keys, spend).Ok?
    ensures var t := SignDirect(c, tx, keys, spend).value;
      && t.vout == tx.vout && |t.vin| == |tx.vin|
      && forall i :: 0 <= i < |tx.vin| ==> t.vin[i].txhash == tx.vin[i].txhash && t.vin[i].n == tx.vin[i].n
  {
    hide SignedIn;
    var t := SignDirect(c, tx, keys, spend).value;
    assert SignedIns(c, tx, keys, spend, |tx.vin|) == Ok(t.vin);
    forall i | 0 <= i < |tx.vin|
      ensures Blank(t.vin[i]) == Blank(tx.vin[i])
    {
      SignedInSkeleton(c, tx, keys, spend, i);
    }
  }

  function ResultOf(fee: nat, made: Candidate): TxResult { TxResult(made.tx, made.vout.cashback, made.vout.amount, fee) }

  /** How making a transaction may end: with the given fee, or as the loop ends. */
  ghost predicate Made(
      c: Crypto, b58: Base58, plan: Plan, feekb: nat, fee: nat, r: Result<TxResult, WalletError>)
  {
    if fee > 0 then
      match BuildSigned(c, b58, plan, fee)
      case Err(e) => r == Err(e)
      case Ok(b) => r == Ok(ResultOf(fee, b.made))
    else
      match r
      case Err(e) => Chosen(Builds(c, b58, plan), feekb, Err(e))
      case Ok(t) => exists best :: Chosen(Builds(c, b58, plan), feekb, Ok(best)) && t == ResultOf(best.fee, best.made)
  }

  /** The same from sources, which may hold an output that cannot be spent. */
  ghost predicate MadeFrom(
      c: Crypto, b58: Base58, sources: seq<Source>, src: Text, dst: Text, amount: Option<nat>, feekb: nat, fee: nat,
      r: Result<TxResult, WalletError>)
  {
    match FirstRefusal(c, AllHeld(sources))
    case Some(e) => r == Err(e)
    case None => Made(c, b58, PlanOf(sources, src, dst, amount), feekb, fee, r)
  }

  /** A transaction from the outputs of the sources, or the error of the first output that
      cannot be spent. What the outputs spent amount to is outputs plus fee, and from the
      relay floor up a fee chosen by the loop pays `feekb` for the virtual size of the very
      transaction returned. */
  method MakeTransaction(
      c: Crypto, b58: Base58, sources: seq<Source>, src: Text, dst: Text, amount: Option<nat>, feekb: nat, fee: nat)
    returns (r: Result<TxResult, WalletError>)
    ensures MadeFrom(c, b58, sources, src, dst, amount, feekb, fee, r)
    ensures r.Ok? ==> Settles(sources, amount, r.value)
    ensures r.Ok? && fee == 0 && feekb >= MIN_RELAY_TX_FEE ==> r.value.fee >= Rate(VSize(r.value.tx), feekb)
  {
    hide BuildSigned, SizeBound, VSize, Settles, Rate, Chosen, FirstRefusal, AllHeld;
    var inputs := MakeVin(c, sources);
    if inputs.Err? { return Err(inputs.error); }
    var plan := Plan(inputs.value, src, dst, amount);
    if fee > 0 {
      var built := BuildSigned(c, b58, plan, fee);
      if built.Err? { return Err(built.error); }
      BuiltSettles(c, b58, sources, src, dst, amount, fee);
      return Ok(ResultOf(fee, built.value.made));
    }
    CandidatesBounded(c, b58, plan);
    var build := Builds(c, b58, plan);
    var best := ChooseFee(build, feekb, SizeBound(b58, plan));
    if best.Err? { return Err(best.error); }
    var a := best.value;
    ChosenPays(build, feekb, a);
    BuiltSettles(c, b58, sources, src, dst, amount, a.fee);
    return Ok(ResultOf(a.fee, a.made));
  }
}
