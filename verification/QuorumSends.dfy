/** Starting a quorum spend: address, inputs, fee, container and the own signatures, in
    the order the wallet takes them. */
module QuorumSends {
  import opened Bytes
  import opened Wire
  import opened Transactions
  import opened Psbts
  import opened Base64
  import opened Scripts
  import opened Multisig
  import opened Sighashes
  import opened Signing
  import opened Finalizing
  import opened Confluence
  import opened Creating
  import opened Addresses
  import opened FeeLoop
  import opened Accounting
  import opened Scanning
  import opened PsbtObjects
  import opened QuorumFees
  import opened QuorumRuns
  import opened QuorumAcceptance
  import ScriptMachine
  import opened SigningWalk

  datatype SendError =
    | NotAParticipant | QuorumError(quorum: MsError) | VoutError(vout: WalletError) | ContainerError(error: Error) | RawTransaction

  /** An output of the quorum address, as the network lists it. */
  datatype Listed = Listed(utxo: Utxo, confirmations: nat)

  /** What is confirmed often enough, in the order of the listing. */
  function Affordable(listed: seq<Listed>, confirmations: nat): (r: seq<Utxo>)
    ensures forall u :: u in r <==> exists l :: l in listed && l.utxo == u && l.confirmations >= confirmations
  {
    if listed == [] then []
    else
      var rest := Affordable(listed[1..], confirmations);
      assert listed == [listed[0]] + listed[1..];
      if listed[0].confirmations >= confirmations then [listed[0].utxo] + rest else rest
  }

  datatype Outcome = Outcome(text: bytes, fee: nat, cashback: nat, amount: nat)

  /** The keys of the quorum script, in its order. */
  function ScriptKeys(keys: seq<PubKey>, form: MsForm): seq<bytes> {
    SortKeys(if form.MsP2tr? then XOnlyKeys(keys) else keys)
  }

  /** A plan whose script is that of an address the wallet made reads back as its quorum,
      unless a P2SH or P2WSH member key lacks the prefix of a compressed key. */
  lemma AddressIsPlanned(c: Crypto, b58: Base58, n: nat, m: nat, keys: seq<PubKey>, plan: QuorumPlan)
    requires CreateQuorumAddress(c, b58, n, m, keys, plan.form) == Ok(QuorumAddress(plan.quorumAddress, plan.redeem))
    requires plan.quorum == Quorum(m, ScriptKeys(SortedPubKeys(keys), plan.form))
    ensures Planned(plan) <==> plan.form.MsP2tr? || AllCompressed(SortedPubKeys(keys))
  {
    hide ExtractQuorum, ExtractTapscript, MakeRedeem, MakeTapscript, RedeemAddress, SortKeys, HasEqualNeighbours;
    var sorted := SortedPubKeys(keys);
    if plan.form.MsP2tr? { ExtractOfMakeTapscript(m, XOnlyKeys(sorted)); } else { ExtractOfMakeRedeem(m, sorted); }
  }

  // ------------------------------------------------------------- the own signatures

  /** The first `n` inputs signed with one key; the first refusal stops. */
  function OwnSigned(c: Crypto, p: Psbt, key: PubKey, n: nat): (r: Result<Psbt, Error>)
    requires Parallel(p) && n <= |p.inputs|
    ensures r.Ok? ==> Parallel(r.value) && |r.value.inputs| == |p.inputs|
  {
    if n == 0 then Ok(p)
    else
      var q :- OwnSigned(c, p, key, n - 1);
      var s :- SignInput(c, q, n - 1, key);
      Ok(s.psbt)
  }

  function OwnSteps(key: PubKey, n: nat): seq<Step> {
    if n == 0 then [] else OwnSteps(key, n - 1) + [Sign(0, n - 1, key)]
  }

  /** The container that is sent out is a state of the signing protocol, with the own key
      applied to every input: what holds of every run holds from there on. */
  lemma {:induction false} OwnSignedIsRun(c: Crypto, p: Psbt, key: PubKey, n: nat)
    requires Parallel(p) && n <= |p.inputs| && OwnSigned(c, p, key, n).Ok?
    ensures var r := Run(c, [Fresh(p)], OwnSteps(key, n));
      && r.Ok? && |r.value| == 1 && r.value[0].psbt == OwnSigned(c, p, key, n).value
      && |r.value[0].applied| == |p.inputs|
      && forall i :: 0 <= i < |p.inputs| ==> r.value[0].applied[i] == if i < n then {key} else {}
  {
    hide SignInput, Run;
    if n == 0 {
      RunNothing(c, p);
    } else {
      OwnSignedIsRun(c, p, key, n - 1);
      RunSnoc(c, [Fresh(p)], OwnSteps(key, n - 1), Sign(0, n - 1, key));
    }
  }

  lemma {:induction false} OwnSignedFails(c: Crypto, p: Psbt, key: PubKey, n: nat, all: nat)
    requires Parallel(p) && n <= all <= |p.inputs| && OwnSigned(c, p, key, n).Err?
    ensures OwnSigned(c, p, key, all) == OwnSigned(c, p, key, n)
    decreases all
  {
    hide SignInput;
    if n < all { OwnSignedFails(c, p, key, n, all - 1); }
  }

  lemma OwnSignedNone(c: Crypto, p: Psbt, key: PubKey)
    requires Parallel(p)
    ensures OwnSigned(c, p, key, 0) == Ok(p)
  {}

  lemma OwnSignedNext(c: Crypto, p: Psbt, q: Psbt, key: PubKey, n: nat)
    requires Parallel(p) && n < |p.inputs| && OwnSigned(c, p, key, n) == Ok(q)
    ensures Parallel(q)
    ensures match SignInput(c, q, n, key)
      case Ok(s) => OwnSigned(c, p, key, n + 1) == Ok(s.psbt)
      case Err(e) => OwnSigned(c, p, key, |p.inputs|) == Err(e)
  {
    hide SignInput;
    if SignInput(c, q, n, key).Err? { OwnSignedFails(c, p, key, n + 1, |p.inputs|); }
  }

  method SignOwn(c: Crypto, created: Psbt, key: PubKey) returns (res: Result<Psbt, Error>)
    requires Parallel(created)
    ensures res == OwnSigned(c, created, key, |created.inputs|)
  {
    hide SignInput, OwnSigned;
    var r := Open(created);
    OwnSignedNone(c, created, key);
    for i := 0 to |r.inputs|
      invariant OwnSigned(c, created, key, i) == Ok(Contents(r))
    {
      OwnSignedNext(c, created, Contents(r), key, i);
      var done := SignPsbtInput(c, r, i, key);
      if done.Err? { return Err(done.error); }
    }
    return Ok(Contents(r));
  }

  // -------------------------------------------------------------------- the whole

  method RawTransactions(plan: QuorumPlan, previous: Utxo -> Option<Tx>) returns (ok: bool)
    ensures ok <==> Fetched(plan, previous)
  {
    if !plan.form.MsP2sh? { return true; }
    for i := 0 to |plan.selected|
      invariant forall u :: u in plan.selected[..i] ==> previous(u).Some?
    {
      assert plan.selected[..i + 1] == plan.selected[..i] + [plan.selected[i]];
      if previous(plan.selected[i]).None? {
        assert plan.selected[i] in plan.selected;
        return false;
      }
    }
    assert plan.selected[..|plan.selected|] == plan.selected;
    return true;
  }

  /** The created container with the own signatures. */
  function SignedContainer(
      c: Crypto, plan: QuorumPlan, vout: seq<TxOut>, previous: Utxo -> Option<Tx>, own: PubKey): Result<Psbt, Error>
  {
    var p :- CreateQuorumSpend(c, plan, previous, vout);
    OwnSigned(c, p, own, |p.inputs|)
  }

  /** The plan of a spend: the quorum of all keys, and a prefix of what it can afford. */
  ghost predicate PlanFor(
      c: Crypto, b58: Base58, n: nat, m: nat, keys: seq<PubKey>, form: MsForm, affordable: seq<Utxo>, dst: Text,
      amount: nat, fee: nat, plan: QuorumPlan)
  {
    && CreateQuorumAddress(c, b58, n, m, keys, form) == Ok(QuorumAddress(plan.quorumAddress, plan.redeem))
    && plan.quorum == Quorum(m, ScriptKeys(SortedPubKeys(keys), form))
    && plan.form == form && plan.dst == dst && plan.amount == amount
    && Selected(affordable, Some(amount + fee), plan.selected)
  }

  predicate Fetched(plan: QuorumPlan, previous: Utxo -> Option<Tx>) {
    !plan.form.MsP2sh? || forall u :: u in plan.selected ==> previous(u).Some?
  }

  /** How a planned spend may end, error by error. */
  ghost predicate Sent(
      c: Crypto, b58: Base58, plan: QuorumPlan, previous: Utxo -> Option<Tx>, own: PubKey, feekb: nat, fee: nat,
      r: Result<Outcome, SendError>)
  {
    match r
    case Err(NotAParticipant) => false
    case Err(QuorumError(_)) => false
    case Err(VoutError(e)) => QuorumFee(c, b58, plan, feekb, fee, Err(e))
    case Err(RawTransaction) => !Fetched(plan, previous) && exists best :: QuorumFee(c, b58, plan, feekb, fee, Ok(best))
    case Err(ContainerError(e)) =>
      Fetched(plan, previous)
      && exists best ::
           QuorumFee(c, b58, plan, feekb, fee, Ok(best)) && SignedContainer(c, plan, best.made.vout, previous, own) == Err(e)
    case Ok(o) =>
      Fetched(plan, previous)
      && exists best ::
           && QuorumFee(c, b58, plan, feekb, fee, Ok(best)) && SignedContainer(c, plan, best.made.vout, previous, own).Ok?
           && o == Outcome(ToBase64(SignedContainer(c, plan, best.made.vout, previous, own).value), best.fee,
                           best.made.cashback, best.made.amount)
  }

  /** A quorum spend as it leaves the wallet: refused without an own key or with the
      error of the address, or planned and then sent or refused, stage by stage. */
  method CreateSend(
      c: Crypto, b58: Base58, n: nat, m: nat, cosigners: seq<PubKey>, own: Option<PubKey>, form: MsForm,
      listed: seq<Listed>, confirmations: nat, previous: Utxo -> Option<Tx>, dst: Text, amount: nat, feekb: nat, fee: nat)
    returns (r: Result<Outcome, SendError>)
    ensures own.None? ==> r == Err(NotAParticipant)
    ensures own.Some? ==>
      var keys := cosigners + [own.value];
      match CreateQuorumAddress(c, b58, n, m, keys, form)
      case Err(e) => r == Err(QuorumError(e))
      case Ok(_) => exists plan ::
        && PlanFor(c, b58, n, m, keys, form, Affordable(listed, confirmations), dst, amount, fee, plan)
        && Sent(c, b58, plan, previous, own.value, feekb, fee, r)
  {
    hide CreateQuorumAddress, QuorumFee, Create, OwnSigned, Selected, ToBase64, ScriptKeys, Affordable;
    if own.None? { return Err(NotAParticipant); }
    var keys := cosigners + [own.value];
    var made := CreateQuorumAddress(c, b58, n, m, keys, form);
    if made.Err? { return Err(QuorumError(made.error)); }
    var affordable := Affordable(listed, confirmations);
    var selected := SelectUtxos(affordable, Some(amount + fee));
    var quorum := Quorum(m, ScriptKeys(SortedPubKeys(keys), form));
    var plan := QuorumPlan(form, made.value.redeem, quorum, selected, made.value.address, dst, amount);
    r := SendPlanned(c, b58, plan, previous, own.value, feekb, fee);
    assert PlanFor(c, b58, n, m, keys, form, affordable, dst, amount, fee, plan);
  }

  method SendPlanned(
      c: Crypto, b58: Base58, plan: QuorumPlan, previous: Utxo -> Option<Tx>, own: PubKey, feekb: nat, fee: nat)
    returns (r: Result<Outcome, SendError>)
    ensures Sent(c, b58, plan, previous, own, feekb, fee, r)
  {
    hide QuorumFee, CreateQuorumSpend, OwnSigned, ToBase64;
    var choice := ChooseQuorumFee(c, b58, plan, feekb, fee);
    if choice.Err? { return Err(VoutError(choice.error)); }
    var made := choice.value.made;
    var fetched := RawTransactions(plan, previous);
    if !fetched { return Err(RawTransaction); }
    var p := CreateQuorumSpend(c, plan, previous, made.vout);
    if p.Err? { return Err(ContainerError(p.error)); }
    var signed := SignOwn(c, p.value, own);
    if signed.Err? { return Err(ContainerError(signed.error)); }
    return Ok(Outcome(ToBase64(signed.value), choice.value.fee, made.cashback, made.amount));
  }

  /** What was sent: the copy that its text carries is what the own key's signing steps
      make of the container created for the plan with this fee. */
  ghost predicate SentAs(
      c: Crypto, b58: Base58, plan: QuorumPlan, previous: Utxo -> Option<Tx>, own: PubKey, feekb: nat, fee: nat,
      o: Outcome, best: Attempt<Vout>, created: Psbt, sent: Copy)
  {
    && QuorumFee(c, b58, plan, feekb, fee, Ok(best)) && o.fee == best.fee
    && best.made.vout != [] && Total(best.made.vout) + o.fee == InAmount(plan)
    && CreateQuorumSpend(c, plan, previous, best.made.vout) == Ok(created) && o.text == ToBase64(sent.psbt)
    && Run(c, [Fresh(created)], OwnSteps(own, |created.inputs|)) == Ok([sent])
    && |sent.applied| == |created.inputs| && forall i :: 0 <= i < |sent.applied| ==> sent.applied[i] == {own}
  }

  /** What is sent out is a state of the signing protocol, from a container made for the
      plan with a chosen or given fee: the theorems about every run of a quorum spend
      apply to it. */
  lemma SentStartsRun(
      c: Crypto, b58: Base58, plan: QuorumPlan, previous: Utxo -> Option<Tx>, own: PubKey, feekb: nat, fee: nat, o: Outcome)
    returns (best: Attempt<Vout>, created: Psbt, sent: Copy)
    requires Sent(c, b58, plan, previous, own, feekb, fee, Ok(o))
    ensures SentAs(c, b58, plan, previous, own, feekb, fee, o, best, created, sent)
  {
    hide QuorumFee, CreateQuorumSpend, OwnSigned, ToBase64, Run;
    best :| QuorumFee(c, b58, plan, feekb, fee, Ok(best)) && SignedContainer(c, plan, best.made.vout, previous, own).Ok?
      && o == Outcome(ToBase64(SignedContainer(c, plan, best.made.vout, previous, own).value), best.fee,
                      best.made.cashback, best.made.amount);
    QuorumFeeConserves(c, b58, plan, feekb, fee, best);
    created := CreateQuorumSpend(c, plan, previous, best.made.vout).value;
    OwnSignedIsRun(c, created, own, |created.inputs|);
    var copies := Run(c, [Fresh(created)], OwnSteps(own, |created.inputs|)).value;
    sent := copies[0];
    assert copies == [sent];
  }

  // ------------------------------------------------------------ what comes of it

  lemma {:induction false} RunConcat(c: Crypto, copies: seq<Copy>, first: seq<Step>, later: seq<Step>)
    requires Run(c, copies, first).Ok?
    ensures Run(c, copies, first + later) == Run(c, Run(c, copies, first).value, later)
    decreases |later|
  {
    hide Take1;
    if later == [] {
      assert first + [] == first;
    } else {
      var front := later[..|later| - 1];
      RunConcat(c, copies, first, front);
      assert (first + later)[..|first + later| - 1] == first + front;
    }
  }

  /** The text of a copy reads back as that copy, unless it is too large to be read. */
  lemma SentReadsBack(c: Crypto, base: Psbt, x: Copy)
    requires Base(base) && Holds(c, base, x)
    ensures FromBase64(ToBase64(x.psbt)).Ok? ==> FromBase64(ToBase64(x.psbt)) == Ok(x.psbt)
  {
    hide Base, Holds, ToBase64, FromBase64;
    CarryKeeps(c, base, x);
  }

  /** A sent quorum spend, from its arguments to the chain. The cosigners read exactly the
      copy that was sent; whatever they do with it never conflicts; and any copy they
      arrive at gives a transaction exactly when each input has met M members, which then
      spends the selected outputs with their amounts in outputs and fee, and satisfies
      every lock script. */
  lemma SendCompletes(
      c: Crypto, b58: Base58, n: nat, m: nat, keys: seq<PubKey>, own: PubKey, form: MsForm, affordable: seq<Utxo>,
      previous: Utxo -> Option<Tx>, dst: Text, amount: nat, feekb: nat, fee: nat, plan: QuorumPlan, o: Outcome,
      best: Attempt<Vout>, created: Psbt, sent: Copy, later: seq<Step>, k: nat, checks: seq<ScriptMachine.Check>)
    requires PlanFor(c, b58, n, m, keys, form, affordable, dst, amount, fee, plan)
    requires SentAs(c, b58, plan, previous, own, feekb, fee, o, best, created, sent)
    requires form.MsP2tr? || AllCompressed(SortedPubKeys(keys))
    requires AllBacked(c, plan, previous) && TxFits(UnsignedQuorumTx(plan, best.made.vout))
    requires |checks| == |created.inputs| && forall i :: 0 <= i < |checks| ==> MembersSign(c, created, i, plan, checks[i])
    ensures FromBase64(o.text).Ok? ==> FromBase64(o.text) == Ok(sent.psbt)
    ensures Run(c, [sent], later).Ok?
    ensures k < |Run(c, [sent], later).value| ==>
      Completes(c, plan, best.made.vout, feekb, fee, o.fee, checks, Run(c, [sent], later).value[k])
  {
    hide PlanFor, Run, QuorumFee, CreateQuorumSpend, ToBase64, FromBase64, Base, Holds, AllBacked, TxFits, Planned,
         MembersSign, Completes;
    PlanForPlanned(c, b58, n, m, keys, form, affordable, dst, amount, fee, plan);
    CreatedQuorumIsBase(c, plan, previous, best.made.vout);
    var before := OwnSteps(own, |created.inputs|);
    RunKeeps(c, created, before);
    assert sent in [sent];
    SentReadsBack(c, created, sent);
    RunKeeps(c, created, before + later);
    RunConcat(c, [Fresh(created)], before, later);
    if k < |Run(c, [sent], later).value| {
      CopyCompletes(c, b58, plan, previous, feekb, fee, best, created, before + later, Run(c, [sent], later).value[k], checks);
    }
  }

  lemma PlanForPlanned(
      c: Crypto, b58: Base58, n: nat, m: nat, keys: seq<PubKey>, form: MsForm, affordable: seq<Utxo>, dst: Text,
      amount: nat, fee: nat, plan: QuorumPlan)
    requires PlanFor(c, b58, n, m, keys, form, affordable, dst, amount, fee, plan)
    requires form.MsP2tr? || AllCompressed(SortedPubKeys(keys))
    ensures Planned(plan)
  {
    hide CreateQuorumAddress, ScriptKeys, Selected, Planned;
    AddressIsPlanned(c, b58, n, m, keys, plan);
  }

  /** What a copy amounts to when it is finalized and extracted. */
  ghost predicate Completes(
      c: Crypto, plan: QuorumPlan, vout: seq<TxOut>, feekb: nat, fee: nat, paid: nat, checks: seq<ScriptMachine.Check>, x: Copy)
  {
    && |x.applied| == |plan.selected| && Parallel(x.psbt) && Parallel(Finalize(c, x.psbt).psbt)
    && var tx := Extract(Finalize(c, x.psbt).psbt);
       && (tx.Ok? <==> forall i :: 0 <= i < |plan.selected| ==> Enough(plan, x.applied[i]))
       && (tx.Ok? ==>
             && SameSkeleton(tx.value, UnsignedQuorumTx(plan, vout)) && Total(tx.value.vout) + paid == InAmount(plan)
             && |tx.value.vin| == |checks| && forall i :: 0 <= i < |checks| ==> Accepted(c, plan, checks[i], tx.value.vin[i]))
       && (tx.Ok? && !plan.form.MsP2sh? ==>
             && TxId(c, tx.value) == TxId(c, UnsignedQuorumTx(plan, vout))
             && (fee == 0 && feekb >= MIN_RELAY_TX_FEE ==> paid >= Rate(VSize(tx.value), feekb)))
  }

  lemma CopyCompletes(
      c: Crypto, b58: Base58, plan: QuorumPlan, previous: Utxo -> Option<Tx>, feekb: nat, fee: nat, best: Attempt<Vout>,
      p: Psbt, steps: seq<Step>, x: Copy, checks: seq<ScriptMachine.Check>)
    requires QuorumFee(c, b58, plan, feekb, fee, Ok(best)) && best.made.vout != []
    requires Planned(plan) && AllBacked(c, plan, previous) && TxFits(UnsignedQuorumTx(plan, best.made.vout))
    requires CreateQuorumSpend(c, plan, previous, best.made.vout) == Ok(p)
    requires |checks| == |p.inputs| && forall i :: 0 <= i < |checks| ==> MembersSign(c, p, i, plan, checks[i])
    requires Run(c, [Fresh(p)], steps).Ok? && x in Run(c, [Fresh(p)], steps).value
    ensures Completes(c, plan, best.made.vout, feekb, fee, best.fee, checks, x)
  {
    hide Run, QuorumFee, CreateQuorumSpend, AllBacked, TxFits, Planned, MembersSign, Accepted, Enough, Finalize, Extract,
         VSize, Rate, TxId;
    QuorumSpendCompletes(c, b58, plan, previous, feekb, fee, best, p, steps, x);
    QuorumSpendAccepted(c, plan, previous, best.made.vout, p, steps, x, checks);
  }
}
