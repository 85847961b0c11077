/** A finished quorum spend satisfies its lock scripts: when what each member's key
    signs verifies under that key, the interpreter accepts every input of the
    transaction that comes out, whoever signed and in whatever order. */
module QuorumAcceptance {
  import opened Bytes
  import opened KeyMaps
  import opened Transactions
  import opened Psbts
  import opened Scripts
  import opened Multisig
  import opened Sighashes
  import opened Signing
  import opened Finalizing
  import opened FinalizeFrame
  import opened Confluence
  import opened MultisigSpends
  import opened TapscriptSpends
  import opened Addresses
  import opened Accounting
  import opened QuorumFees
  import opened QuorumRuns
  import M = ScriptMachine

  /** What a member's key adds to an input verifies under the name the script has for
      the member. */
  ghost predicate MembersSign(c: Crypto, p: Psbt, i: nat, plan: QuorumPlan, check: M.Check)
    requires Parallel(p) && i < |p.inputs|
  {
    forall key, e :: Adds(c, p, i, plan.form.MsP2tr?, key, e) ==> check(e.value, MemberName(plan, key))
  }

  /** The stack ends with the leaf and its control block, M of its slots are filled, and
      the leaf's key checks consume every slot and leave M. */
  ghost predicate CountsMembers(c: Crypto, plan: QuorumPlan, check: M.Check, stack: seq<bytes>) {
    var n := |plan.quorum.keys|;
    && |plan.redeem| >= 2 && plan.quorum.m < 0x80 && |stack| == n + 2
    && stack[n..] == [plan.redeem, ControlBlock(c, LeafHash(c, plan.redeem))]
    && NonEmptyItems(stack[..n]) == plan.quorum.m
    && M.Run(check, true, plan.redeem[..|plan.redeem| - 2], stack[..n]) == Some([M.NumberBytes(plan.quorum.m)])
  }

  ghost predicate Accepted(c: Crypto, plan: QuorumPlan, check: M.Check, spend: TxIn) {
    var lock := QuorumLockScript(c, plan.redeem, plan.form);
    match plan.form
    case MsP2sh => M.AcceptsP2sh(c.hash160, check, lock, spend.script)
    case MsP2wsh => M.AcceptsP2wsh(c.sha256, check, lock, spend.stack)
    case MsP2tr => CountsMembers(c, plan, check, spend.stack)
  }

  // ------------------------------------------------------ the signatures of a copy

  /** A signature that a copy holds for a member verifies under the member's name. */
  lemma MemberVerifies(c: Crypto, p: Psbt, x: Copy, i: nat, plan: QuorumPlan, check: M.Check, name: bytes)
    requires Parallel(p) && Holds(c, p, x) && i < |p.inputs| && Unspent(c, p, i, plan) && SpendContext(p).Some?
    requires |x.applied| == |p.inputs| == |x.psbt.inputs| && name in plan.quorum.keys && MembersSign(c, p, i, plan, check)
    ensures var found := Lookup(SigsOf(plan, x.psbt.inputs[i]), EntryKey(c, plan, name));
      found.Some? ==> check(found.value, name) && GoodSignature(plan, found.value)
  {
    hide Holds, Adds, QuorumInput, GoodSignature, EntryKey, MemberName;
    var tap, ps, k := plan.form.MsP2tr?, SigsOf(plan, x.psbt.inputs[i]), EntryKey(c, plan, name);
    if Find(ps, k).Some? {
      var e := ps[Find(ps, k).value];
      HeldOnce(c, p, x, i, tap);
      assert e in SigList(x.psbt.inputs[i], tap) && Expected(c, p, i, tap, x.applied[i], e);
      var key :| key in x.applied[i] && Adds(c, p, i, tap, key, e);
      var sig := MemberAdds(c, p, i, plan, key);
      EntryKeyInjective(c, plan, name, MemberName(plan, key));
    }
  }

  lemma PartialSigsVerify(c: Crypto, p: Psbt, x: Copy, i: nat, plan: QuorumPlan, check: M.Check)
    requires Parallel(p) && Holds(c, p, x) && i < |p.inputs| && Unspent(c, p, i, plan) && SpendContext(p).Some?
    requires |x.applied| == |p.inputs| == |x.psbt.inputs| && MembersSign(c, p, i, plan, check) && !plan.form.MsP2tr?
    ensures MembersVerify(check, plan.quorum.keys, x.psbt.inputs[i].partialSigs)
  {
    hide Holds, MembersSign, Unspent, Lookup;
    forall k: bytes | k in plan.quorum.keys && Lookup(x.psbt.inputs[i].partialSigs, k).Some?
      ensures check(Lookup(x.psbt.inputs[i].partialSigs, k).value, k)
      ensures |Lookup(x.psbt.inputs[i].partialSigs, k).value| <= MAX_ELEMENT_SIZE
    {
      MemberVerifies(c, p, x, i, plan, check, k);
    }
  }

  lemma LeafSigsVerify(c: Crypto, p: Psbt, x: Copy, i: nat, plan: QuorumPlan, check: M.Check)
    requires Parallel(p) && Holds(c, p, x) && i < |p.inputs| && Unspent(c, p, i, plan) && SpendContext(p).Some?
    requires |x.applied| == |p.inputs| == |x.psbt.inputs| && MembersSign(c, p, i, plan, check) && plan.form.MsP2tr?
    ensures LeafVerifies(check, plan.quorum.keys, LeafHash(c, plan.redeem), x.psbt.inputs[i].tapScriptSigs)
  {
    hide Holds, MembersSign, Unspent, Lookup, LeafHash, GoodSignature;
    var hash := LeafHash(c, plan.redeem);
    forall k: bytes | k in plan.quorum.keys && Lookup(x.psbt.inputs[i].tapScriptSigs, k + hash).Some?
      ensures check(Lookup(x.psbt.inputs[i].tapScriptSigs, k + hash).value, k)
    {
      MemberVerifies(c, p, x, i, plan, check, k);
    }
  }

  // ------------------------------------------------------------- one input, extracted

  lemma ExtractedStack(p: Psbt, i: nat)
    requires Parallel(p) && i < |p.inputs| && ExtractIn(p, i).Ok? && SpendsWitness(p, i)
    ensures p.inputs[i].finalScriptWitness.Some?
    ensures DecodeWitnessStack(p.inputs[i].finalScriptWitness.value) == Ok(ExtractIn(p, i).value.stack)
  {
    hide DecodeWitnessStack, UtxoData;
    ShapesDisjoint(UtxoData(p, i).value.script);
  }

  lemma P2shAccepted(c: Crypto, p: Psbt, q: Psbt, i: nat, plan: QuorumPlan, check: M.Check)
    requires Parallel(p) && i < |p.inputs| && Parallel(q) && FinalizedAt(c, p, q, i) && ExtractIn(q, i).Ok?
    requires QuorumInput(c, p, i, plan) && plan.form.MsP2sh? && MembersVerify(check, plan.quorum.keys, p.inputs[i].partialSigs)
    ensures Accepted(c, plan, check, ExtractIn(q, i).value)
  {
    hide FinalInput, UtxoData, ExtractQuorum, ExtractIn, MembersVerify, M.AcceptsP2sh;
    ExtractedWasFinal(c, p, q, i);
    QuorumOutputShapes(c, plan.redeem, plan.form);
    P2shExtracts(c, p, q, i, plan);
    P2shSpendAccepted(c, check, p, i, UtxoData(p, i).value);
  }

  lemma P2wshAccepted(c: Crypto, p: Psbt, q: Psbt, i: nat, plan: QuorumPlan, check: M.Check)
    requires Parallel(p) && i < |p.inputs| && Parallel(q) && FinalizedAt(c, p, q, i) && ExtractIn(q, i).Ok?
    requires QuorumInput(c, p, i, plan) && plan.form.MsP2wsh? && MembersVerify(check, plan.quorum.keys, p.inputs[i].partialSigs)
    ensures Accepted(c, plan, check, ExtractIn(q, i).value)
  {
    hide FinalInput, UtxoData, ExtractQuorum, ExtractIn, MembersVerify, M.AcceptsP2wsh, DecodeWitnessStack;
    ExtractedWasFinal(c, p, q, i);
    QuorumOutputShapes(c, plan.redeem, plan.form);
    P2wshSpendAccepted(c, check, p, i, UtxoData(p, i).value);
    FinalInputKeeps(c, p, i);
    UtxoKept(p, q, i);
    ExtractedStack(q, i);
  }

  lemma TapAccepted(c: Crypto, p: Psbt, q: Psbt, i: nat, plan: QuorumPlan, check: M.Check)
    requires Parallel(p) && i < |p.inputs| && Parallel(q) && FinalizedAt(c, p, q, i) && ExtractIn(q, i).Ok?
    requires QuorumInput(c, p, i, plan) && plan.form.MsP2tr?
    requires LeafVerifies(check, plan.quorum.keys, LeafHash(c, plan.redeem), p.inputs[i].tapScriptSigs)
    ensures Accepted(c, plan, check, ExtractIn(q, i).value)
  {
    hide FinalInput, UtxoData, ExtractTapscript, ExtractIn, LeafVerifies, M.Run, DecodeWitnessStack, ReadLeaf, LeafHash,
         ControlBlock, NonEmptyItems;
    ExtractedWasFinal(c, p, q, i);
    QuorumOutputShapes(c, plan.redeem, plan.form);
    OwnLeaf(c, p, i, plan);
    TapscriptSpendCounts(c, check, p, i, UtxoData(p, i).value);
    FinalInputKeeps(c, p, i);
    UtxoKept(p, q, i);
    ExtractedStack(q, i);
  }

  lemma InputAccepted(c: Crypto, p: Psbt, x: Copy, q: Psbt, i: nat, plan: QuorumPlan, check: M.Check)
    requires Parallel(p) && Holds(c, p, x) && i < |p.inputs| && Unspent(c, p, i, plan) && SpendContext(p).Some?
    requires |x.applied| == |p.inputs| == |x.psbt.inputs| && Parallel(x.psbt) && MembersSign(c, p, i, plan, check)
    requires Parallel(q) && FinalizedAt(c, x.psbt, q, i) && ExtractIn(q, i).Ok?
    ensures Accepted(c, plan, check, ExtractIn(q, i).value)
  {
    hide Holds, MembersSign, Unspent, QuorumInput, Accepted, MembersVerify, LeafVerifies, ExtractIn, FinalizedInput;
    CopyIsQuorumInput(c, p, x, i, plan);
    match plan.form {
      case MsP2sh =>
        PartialSigsVerify(c, p, x, i, plan, check);
        P2shAccepted(c, x.psbt, q, i, plan, check);
      case MsP2wsh =>
        PartialSigsVerify(c, p, x, i, plan, check);
        P2wshAccepted(c, x.psbt, q, i, plan, check);
      case MsP2tr =>
        LeafSigsVerify(c, p, x, i, plan, check);
        TapAccepted(c, x.psbt, q, i, plan, check);
    }
  }

  // --------------------------------------------------------------------- the whole

  /** Whatever the run: every input of the transaction that a copy of a quorum spend
      gives is accepted, once members' keys sign what verifies under them. */
  lemma QuorumSpendAccepted(
      c: Crypto, plan: QuorumPlan, previous: Utxo -> Option<Tx>, vout: seq<TxOut>, p: Psbt, steps: seq<Step>, x: Copy,
      checks: seq<M.Check>)
    requires Planned(plan) && AllBacked(c, plan, previous) && vout != [] && TxFits(UnsignedQuorumTx(plan, vout))
    requires CreateQuorumSpend(c, plan, previous, vout) == Ok(p)
    requires |checks| == |p.inputs| && forall i :: 0 <= i < |p.inputs| ==> MembersSign(c, p, i, plan, checks[i])
    requires Run(c, [Fresh(p)], steps).Ok? && x in Run(c, [Fresh(p)], steps).value
    ensures Parallel(x.psbt) && Parallel(Finalize(c, x.psbt).psbt)
    ensures var tx := Extract(Finalize(c, x.psbt).psbt);
      tx.Ok? ==> |tx.value.vin| == |checks| && forall i :: 0 <= i < |checks| ==> Accepted(c, plan, checks[i], tx.value.vin[i])
  {
    hide Run, Holds, Base, Unspent, QuorumInput, Enough, FinalInput, ExtractIn, SpendContext, CreateQuorumSpend, TxFits,
         Planned, AllBacked, MembersSign, Accepted;
    QuorumSpendCreated(c, plan, previous, vout);
    CreatedQuorumIsBase(c, plan, previous, vout);
    RunKeeps(c, p, steps);
    KnownContext(c, p, plan);
    CopySizes(c, p, x);
    RunCompletes(c, plan, previous, vout, p, steps, x);
    FinalizeEach(c, x.psbt);
    var q := Finalize(c, x.psbt).psbt;
    if Extract(q).Ok? {
      forall i | 0 <= i < |checks|
        ensures Accepted(c, plan, checks[i], Extract(q).value.vin[i])
      {
        InputAccepted(c, p, x, q, i, plan, checks[i]);
      }
    }
  }
}
