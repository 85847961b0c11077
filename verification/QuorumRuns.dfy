/** A quorum spend from end to end: the container made for it, any run of the members
    over its copies, the transaction that comes out, and the fee chosen at the start. */
module QuorumRuns {
  import opened Bytes
  import opened Wire
  import opened KeyMaps
  import opened Transactions
  import opened Psbts
  import opened Scripts
  import opened Multisig
  import opened Sighashes
  import opened Signing
  import opened Finalizing
  import opened FinalizeFrame
  import opened Confluence
  import opened Creating
  import opened TapscriptSpends
  import opened Addresses
  import opened FeeLoop
  import opened Accounting
  import opened QuorumFees

  /** A plan whose script is that of its quorum. */
  predicate Planned(plan: QuorumPlan) {
    (if plan.form.MsP2tr? then ExtractTapscript(plan.redeem) else ExtractQuorum(plan.redeem)) == Some(plan.quorum)
  }

  /** The fetched transaction is the one spent from, pays the quorum where the listing
      says so, and is one the encoding can carry. */
  predicate Backed(c: Crypto, plan: QuorumPlan, u: Utxo, fetched: Option<Tx>) {
    match fetched
    case None => false
    case Some(t) =>
      && TxId(c, t) == u.txhash && u.n as nat < |t.vout|
      && t.vout[u.n].script == QuorumLockScript(c, plan.redeem, plan.form) && TxFits(t) && !Ambiguous(t)
  }

  /** Only P2SH needs the previous transactions. */
  predicate AllBacked(c: Crypto, plan: QuorumPlan, previous: Utxo -> Option<Tx>) {
    plan.form.MsP2sh? ==> forall u :: u in plan.selected ==> Backed(c, plan, u, previous(u))
  }

  /** What is known of a spent output. */
  function SpentOutput(c: Crypto, plan: QuorumPlan, previous: Utxo -> Option<Tx>, u: Utxo): Spent {
    var lock := QuorumLockScript(c, plan.redeem, plan.form);
    match plan.form
    case MsP2sh => Spent(u.amount, lock, previous(u), Some(plan.redeem), None, None)
    case MsP2wsh => Spent(u.amount, lock, None, None, Some(plan.redeem), None)
    case MsP2tr => Spent(u.amount, lock, None, None, None, Some(plan.redeem + [TAPSCRIPT_LEAF_VERSION]))
  }

  function SpentOutputs(c: Crypto, plan: QuorumPlan, previous: Utxo -> Option<Tx>): seq<Spent> {
    MapSeq(u => SpentOutput(c, plan, previous, u), plan.selected)
  }

  function CreateQuorumSpend(c: Crypto, plan: QuorumPlan, previous: Utxo -> Option<Tx>, vout: seq<TxOut>)
      : (r: Result<Psbt, Error>)
    ensures r.Ok? ==> Parallel(r.value)
  {
    Create(c, UnsignedQuorumTx(plan, vout), SpentOutputs(c, plan, previous))
  }

  // ------------------------------------------------------------- what is created

  /** An input of the created container, before anyone has signed. */
  predicate Unspent(c: Crypto, p: Psbt, i: nat, plan: QuorumPlan)
    requires Parallel(p) && i < |p.inputs|
  {
    && QuorumInput(c, p, i, plan) && p.inputs[i].partialSigs == [] && p.inputs[i].tapScriptSigs == []
    && p.inputs[i].sighashType.None? && p.inputs[i].tapMerkleRoot.None? && !PrevMismatch(c, p, i)
  }

  function CreatedQuorumInput(c: Crypto, plan: QuorumPlan, previous: Utxo -> Option<Tx>, u: Utxo): Input {
    var base := WitnessInput(SpentOutput(c, plan, previous, u));
    match plan.form
    case MsP2sh => EMPTY_INPUT.(nonWitnessUtxo := previous(u), redeemScript := Some(plan.redeem))
    case MsP2wsh => base.(witnessScript := Some(plan.redeem))
    case MsP2tr =>
      base.(tapLeafScripts := [Pair(ControlBlock(c, LeafHash(c, plan.redeem)), plan.redeem + [TAPSCRIPT_LEAF_VERSION])],
            tapInternalKey := Some(TAPSCRIPT_INTERNAL_KEY))
  }

  lemma CreatesInput(c: Crypto, plan: QuorumPlan, previous: Utxo -> Option<Tx>, vin: TxIn, u: Utxo, i: nat)
    requires Planned(plan) && vin.txhash == u.txhash
    requires plan.form.MsP2sh? ==> Backed(c, plan, u, previous(u))
    ensures CreateInput(c, vin, SpentOutput(c, plan, previous, u), i) == Ok(CreatedQuorumInput(c, plan, previous, u))
  {
    hide ExtractQuorum, ExtractTapscript, LeafHash, ControlBlock, TxId, TxFits;
    QuorumOutputShapes(c, plan.redeem, plan.form);
    ShapesDisjoint(QuorumLockScript(c, plan.redeem, plan.form));
    if plan.form.MsP2tr? {
      var value := plan.redeem + [TAPSCRIPT_LEAF_VERSION];
      assert value[..|value| - 1] == plan.redeem;
    }
  }

  lemma {:induction false} CreatesInputs(
      c: Crypto, plan: QuorumPlan, previous: Utxo -> Option<Tx>, vin: seq<TxIn>, n: nat)
    requires Planned(plan) && AllBacked(c, plan, previous) && n <= |vin| == |plan.selected|
    requires forall i :: 0 <= i < |vin| ==> vin[i].txhash == plan.selected[i].txhash
    ensures CreateInputs(c, vin, SpentOutputs(c, plan, previous), n).Ok?
    ensures forall i :: 0 <= i < n ==>
      CreateInputs(c, vin, SpentOutputs(c, plan, previous), n).value[i]
      == CreatedQuorumInput(c, plan, previous, plan.selected[i])
  {
    hide CreateInput, SpentOutput, CreatedQuorumInput, Planned, Backed;
    if n > 0 {
      CreatesInputs(c, plan, previous, vin, n - 1);
      assert plan.selected[n - 1] in plan.selected;
      CreatesInput(c, plan, previous, vin[n - 1], plan.selected[n - 1], n - 1);
    }
  }

  lemma CreatedIsUnspent(c: Crypto, p: Psbt, i: nat, plan: QuorumPlan, previous: Utxo -> Option<Tx>, u: Utxo)
    requires Parallel(p) && i < |p.inputs| && Planned(plan) && p.inputs[i] == CreatedQuorumInput(c, plan, previous, u)
    requires p.unsignedTx.vin[i].txhash == u.txhash && p.unsignedTx.vin[i].n == u.n
    requires plan.form.MsP2sh? ==> Backed(c, plan, u, previous(u))
    ensures Unspent(c, p, i, plan)
  {
    hide ExtractQuorum, ExtractTapscript, LeafHash, ControlBlock, QuorumLockScript, TxId, TxFits;
  }

  /** The Creator accepts every planned spend and sets up each input as one of the
      quorum's own. */
  lemma QuorumSpendCreated(c: Crypto, plan: QuorumPlan, previous: Utxo -> Option<Tx>, vout: seq<TxOut>)
    requires Planned(plan) && AllBacked(c, plan, previous) && vout != []
    ensures CreateQuorumSpend(c, plan, previous, vout).Ok?
    ensures var p := CreateQuorumSpend(c, plan, previous, vout).value;
      p.unsignedTx == UnsignedQuorumTx(plan, vout) && forall i :: 0 <= i < |p.inputs| ==> Unspent(c, p, i, plan)
  {
    hide CreateInputs, Planned, Unspent, CreatedQuorumInput, SpentOutput, Backed;
    var tx := UnsignedQuorumTx(plan, vout);
    CreatesInputs(c, plan, previous, tx.vin, |tx.vin|);
    var p := CreateQuorumSpend(c, plan, previous, vout).value;
    forall i | 0 <= i < |p.inputs|
      ensures Unspent(c, p, i, plan)
    {
      assert plan.selected[i] in plan.selected;
      CreatedIsUnspent(c, p, i, plan, previous, plan.selected[i]);
    }
  }

  lemma KnownFits(c: Crypto, plan: QuorumPlan, previous: Utxo -> Option<Tx>, u: Utxo)
    requires plan.form.MsP2sh? ==> Backed(c, plan, u, previous(u))
    ensures SpentFits(SpentOutput(c, plan, previous, u))
  {
    hide TxId, TxFits;
  }

  lemma CreatedQuorumIsBase(c: Crypto, plan: QuorumPlan, previous: Utxo -> Option<Tx>, vout: seq<TxOut>)
    requires Planned(plan) && AllBacked(c, plan, previous) && vout != [] && TxFits(UnsignedQuorumTx(plan, vout))
    ensures CreateQuorumSpend(c, plan, previous, vout).Ok? && Base(CreateQuorumSpend(c, plan, previous, vout).value)
  {
    hide Create, Planned, Base, TxFits, Backed, SpentOutput, SpentFits;
    QuorumSpendCreated(c, plan, previous, vout);
    forall i | 0 <= i < |plan.selected|
      ensures SpentFits(SpentOutputs(c, plan, previous)[i])
    {
      assert plan.selected[i] in plan.selected;
      KnownFits(c, plan, previous, plan.selected[i]);
    }
    CreatedIsBase(c, UnsignedQuorumTx(plan, vout), SpentOutputs(c, plan, previous));
  }

  // ------------------------------------------------------------ what a member adds

  /** The entry of a member, under the script's own name for it. */
  function MemberName(plan: QuorumPlan, key: PubKey): bytes { if plan.form.MsP2tr? then XOnly(key) else key }

  function MemberNames(plan: QuorumPlan, keys: set<PubKey>): set<bytes> { set k | k in keys :: MemberName(plan, k) }

  function EntryKey(c: Crypto, plan: QuorumPlan, name: bytes): bytes {
    if plan.form.MsP2tr? then name + LeafHash(c, plan.redeem) else name
  }

  predicate GoodSignature(plan: QuorumPlan, sig: bytes) {
    if plan.form.MsP2tr? then |sig| == 64 else |sig| <= MS_SIG_SIZE_ESTIMATE && EndsWith(sig, SIGHASH_ALL)
  }

  lemma KnownContext(c: Crypto, p: Psbt, plan: QuorumPlan)
    requires Parallel(p) && forall i :: 0 <= i < |p.inputs| ==> Unspent(c, p, i, plan)
    ensures SpendContext(p).Some?
  {
    hide QuorumLockScript, ExtractQuorum, ExtractTapscript, ControlBlock, LeafHash;
    forall i | 0 <= i < |p.inputs|
      ensures UtxoData(p, i).Some?
    {
      assert Unspent(c, p, i, plan);
    }
  }

  lemma P2shMemberAdds(c: Crypto, p: Psbt, i: nat, plan: QuorumPlan, key: PubKey)
    requires Parallel(p) && i < |p.inputs| && Unspent(c, p, i, plan) && plan.form.MsP2sh?
    ensures key !in plan.quorum.keys ==> OwnEntry(c, p, i, key) == Ok(None)
    ensures key in plan.quorum.keys ==>
      && OwnEntry(c, p, i, key).Ok? && OwnEntry(c, p, i, key).value.Some?
      && var e := OwnEntry(c, p, i, key).value.value;
         !e.tap && e.key == key && e.sig.Some? && GoodSignature(plan, e.sig.value)
  {
    hide ExtractQuorum, Bip143Digest, LegacyDigest, PrevMismatch, UtxoData;
    QuorumOutputShapes(c, plan.redeem, plan.form);
    ShapesDisjoint(UtxoData(p, i).value.script);
  }

  lemma P2wshMemberAdds(c: Crypto, p: Psbt, i: nat, plan: QuorumPlan, key: PubKey)
    requires Parallel(p) && i < |p.inputs| && Unspent(c, p, i, plan) && plan.form.MsP2wsh?
    ensures key !in plan.quorum.keys ==> OwnEntry(c, p, i, key) == Ok(None)
    ensures key in plan.quorum.keys ==>
      && OwnEntry(c, p, i, key).Ok? && OwnEntry(c, p, i, key).value.Some?
      && var e := OwnEntry(c, p, i, key).value.value;
         !e.tap && e.key == key && e.sig.Some? && GoodSignature(plan, e.sig.value)
  {
    hide ExtractQuorum, Bip143Digest, LegacyDigest, PrevMismatch;
    QuorumOutputShapes(c, plan.redeem, plan.form);
  }

  lemma TapMemberAdds(c: Crypto, p: Psbt, i: nat, plan: QuorumPlan, key: PubKey)
    requires Parallel(p) && i < |p.inputs| && Unspent(c, p, i, plan) && plan.form.MsP2tr? && SpendContext(p).Some?
    ensures XOnly(key) !in plan.quorum.keys ==> OwnEntry(c, p, i, key) == Ok(None)
    ensures XOnly(key) in plan.quorum.keys ==>
      && OwnEntry(c, p, i, key).Ok? && OwnEntry(c, p, i, key).value.Some?
      && var e := OwnEntry(c, p, i, key).value.value;
         e.tap && e.key == EntryKey(c, plan, XOnly(key)) && e.sig.Some? && GoodSignature(plan, e.sig.value)
  {
    hide ExtractTapscript, ScriptpathDigest, LeafHash, ControlBlock, SpendContext, PrevMismatch;
    QuorumOutputShapes(c, plan.redeem, plan.form);
    OwnLeaf(c, p, i, plan);
    ReadsOwnLeaf(c, p, i, plan);
    ShapesDisjoint(UtxoData(p, i).value.script);
    hide ReadLeaf;
  }

  lemma ReadsOwnLeaf(c: Crypto, p: Psbt, i: nat, plan: QuorumPlan)
    requires Parallel(p) && i < |p.inputs| && QuorumInput(c, p, i, plan) && plan.form.MsP2tr?
    requires p.inputs[i].tapMerkleRoot.None?
    ensures IsP2tr(UtxoData(p, i).value.script)
    ensures ReadLeaf(c, p.inputs[i], UtxoData(p, i).value)
         == Ok(Leaf(ControlBlock(c, LeafHash(c, plan.redeem)), plan.redeem, LeafHash(c, plan.redeem), plan.quorum))
  {
    hide ExtractTapscript, UtxoData;
    QuorumOutputShapes(c, plan.redeem, plan.form);
    var value := plan.redeem + [TAPSCRIPT_LEAF_VERSION];
    assert value[..|value| - 1] == plan.redeem;
    var hash := LeafHash(c, plan.redeem);
    hide LeafHash;
    assert OwnControlBlock(ControlBlock(c, hash));
    hide ControlBlock, OwnControlBlock;
  }

  function SigsOf(plan: QuorumPlan, i: Input): seq<Pair> { SigList(i, plan.form.MsP2tr?) }

  /** A member's key adds one good signature under its own name; no other key adds any. */
  lemma MemberAdds(c: Crypto, p: Psbt, i: nat, plan: QuorumPlan, key: PubKey) returns (sig: bytes)
    requires Parallel(p) && i < |p.inputs| && Unspent(c, p, i, plan) && SpendContext(p).Some?
    ensures MemberName(plan, key) in plan.quorum.keys ==> GoodSignature(plan, sig)
    ensures forall e ::
      Adds(c, p, i, plan.form.MsP2tr?, key, e) <==>
      MemberName(plan, key) in plan.quorum.keys && e == Pair(EntryKey(c, plan, MemberName(plan, key)), sig)
  {
    hide OwnEntry, GoodSignature, QuorumInput, EntryKey;
    sig := [];
    match plan.form {
      case MsP2sh => P2shMemberAdds(c, p, i, plan, key);
      case MsP2wsh => P2wshMemberAdds(c, p, i, plan, key);
      case MsP2tr => TapMemberAdds(c, p, i, plan, key);
    }
    if MemberName(plan, key) in plan.quorum.keys { sig := OwnEntry(c, p, i, key).value.value.sig.value; }
    EcdsaEntryKey(c, plan, key);
  }

  lemma EcdsaEntryKey(c: Crypto, plan: QuorumPlan, key: PubKey)
    ensures !plan.form.MsP2tr? ==> EntryKey(c, plan, key) == key
  {}

  lemma EntryKeyInjective(c: Crypto, plan: QuorumPlan, a: bytes, b: bytes)
    requires EntryKey(c, plan, a) == EntryKey(c, plan, b)
    ensures a == b
  {
    var hash := LeafHash(c, plan.redeem);
    hide LeafHash;
    assert plan.form.MsP2tr? ==> (a + hash)[..|a|] == a && (b + hash)[..|b|] == b;
  }

  // ------------------------------------------------------- what a copy has collected

  lemma HeldOnce(c: Crypto, p: Psbt, x: Copy, i: nat, tap: bool)
    requires Parallel(p) && Holds(c, p, x) && i < |p.inputs|
    ensures |x.applied| == |p.inputs| == |x.psbt.inputs|
    ensures ListHolds(c, p, i, tap, x.applied[i], SigList(x.psbt.inputs[i], tap))
  {}

  /** The entries of a copy: those of the applied keys that are members. */
  lemma CollectedEntry(c: Crypto, p: Psbt, x: Copy, i: nat, plan: QuorumPlan, e: Pair)
    requires Parallel(p) && Holds(c, p, x) && i < |p.inputs| && Unspent(c, p, i, plan) && SpendContext(p).Some?
    requires |x.applied| == |p.inputs| == |x.psbt.inputs| && e in SigsOf(plan, x.psbt.inputs[i])
    ensures GoodSignature(plan, e.value)
    ensures exists name :: name in MemberNames(plan, x.applied[i]) && name in plan.quorum.keys && e.key == EntryKey(c, plan, name)
  {
    hide Holds, Adds, QuorumInput, GoodSignature, EntryKey, MemberName;
    var tap := plan.form.MsP2tr?;
    HeldOnce(c, p, x, i, tap);
    var key :| key in x.applied[i] && Adds(c, p, i, tap, key, e);
    var sig := MemberAdds(c, p, i, plan, key);
    assert MemberName(plan, key) in MemberNames(plan, x.applied[i]);
  }

  lemma CollectsMember(c: Crypto, p: Psbt, x: Copy, i: nat, plan: QuorumPlan, name: bytes)
    requires Parallel(p) && Holds(c, p, x) && i < |p.inputs| && Unspent(c, p, i, plan) && SpendContext(p).Some?
    requires |x.applied| == |p.inputs| == |x.psbt.inputs|
    requires name in MemberNames(plan, x.applied[i]) && name in plan.quorum.keys
    ensures exists e :: e in SigsOf(plan, x.psbt.inputs[i]) && e.key == EntryKey(c, plan, name)
  {
    hide Holds, Adds, QuorumInput, GoodSignature, EntryKey, MemberName;
    var tap := plan.form.MsP2tr?;
    HeldOnce(c, p, x, i, tap);
    var key :| key in x.applied[i] && MemberName(plan, key) == name;
    var sig := MemberAdds(c, p, i, plan, key);
    var e := Pair(EntryKey(c, plan, name), sig);
    assert Adds(c, p, i, tap, key, e);
    assert Expected(c, p, i, tap, x.applied[i], e);
  }

  /** A member's signature is found in a copy exactly when its key was applied. */
  lemma LookupMember(c: Crypto, p: Psbt, x: Copy, i: nat, plan: QuorumPlan, name: bytes)
    requires Parallel(p) && Holds(c, p, x) && i < |p.inputs| && Unspent(c, p, i, plan) && SpendContext(p).Some?
    requires |x.applied| == |p.inputs| == |x.psbt.inputs| && name in plan.quorum.keys
    ensures var found := Lookup(SigsOf(plan, x.psbt.inputs[i]), EntryKey(c, plan, name));
      && (found.Some? <==> name in MemberNames(plan, x.applied[i]))
      && (found.Some? ==> GoodSignature(plan, found.value))
  {
    hide Holds, QuorumInput, GoodSignature, EntryKey, MemberNames, SigsOf, Unspent;
    var ps, k := SigsOf(plan, x.psbt.inputs[i]), EntryKey(c, plan, name);
    if name in MemberNames(plan, x.applied[i]) {
      CollectsMember(c, p, x, i, plan, name);
    }
    if Find(ps, k).Some? {
      var e := ps[Find(ps, k).value];
      CollectedEntry(c, p, x, i, plan, e);
      var other :| other in MemberNames(plan, x.applied[i]) && other in plan.quorum.keys && e.key == EntryKey(c, plan, other);
      EntryKeyInjective(c, plan, name, other);
    }
  }

  // ---------------------------------------------------------------- enough members

  /** How many of the script's keys are among `names`. */
  function CountIn(keys: seq<bytes>, names: set<bytes>): nat {
    if keys == [] then 0 else (if keys[0] in names then 1 else 0) + CountIn(keys[1..], names)
  }

  lemma {:induction false} MemberSigsCount(keys: seq<bytes>, ps: seq<Pair>, names: set<bytes>, index: nat)
    requires forall k :: k in keys ==> (Lookup(ps, k).Some? <==> k in names)
    requires forall k :: k in keys && Lookup(ps, k).Some? ==> EndsWith(Lookup(ps, k).value, SIGHASH_ALL)
    ensures MemberSigs(keys, ps, index).Ok? && |MemberSigs(keys, ps, index).value| == CountIn(keys, names)
  {
    hide Lookup, EndsWith;
    if keys != [] {
      assert keys[0] in keys && forall k :: k in keys[1..] ==> k in keys;
      MemberSigsCount(keys[1..], ps, names, index);
    }
  }

  lemma {:induction false} SlotsCount(keys: seq<bytes>, hash: Hash32, ps: seq<Pair>, names: set<bytes>, m: nat, index: nat)
    requires forall k: bytes :: k in keys ==> (Lookup(ps, k + hash).Some? <==> k in names)
    requires forall k: bytes :: k in keys && Lookup(ps, k + hash).Some? ==> |Lookup(ps, k + hash).value| == 64
    ensures SigSlots(keys, hash, ps, m, index).Ok?
    ensures Filled(SigSlots(keys, hash, ps, m, index).value) == if CountIn(keys, names) <= m then CountIn(keys, names) else m
  {
    hide Lookup;
    if keys != [] {
      assert keys[0] in keys && forall k :: k in keys[1..] ==> k in keys;
      var filled := Lookup(ps, keys[0] + hash).Some? && m > 0;
      SlotsCount(keys[1..], hash, ps, names, if filled then m - 1 else m, index);
      var rest := SigSlots(keys[1..], hash, ps, if filled then m - 1 else m, index).value;
      FilledCons(if filled then Lookup(ps, keys[0] + hash) else None, rest);
    }
  }

  lemma FilledCons(slot: Option<bytes>, rest: seq<Option<bytes>>)
    ensures Filled([slot] + rest) == (if slot.Some? then 1 else 0) + Filled(rest)
  {
    assert ([slot] + rest)[1..] == rest;
  }

  /** What signing left alone of a quorum input. */
  lemma CopyIsQuorumInput(c: Crypto, p: Psbt, x: Copy, i: nat, plan: QuorumPlan)
    requires Parallel(p) && Holds(c, p, x) && i < |p.inputs| && Unspent(c, p, i, plan) && SpendContext(p).Some?
    ensures Parallel(x.psbt) && i < |x.psbt.inputs| && QuorumInput(c, x.psbt, i, plan)
    ensures x.psbt.inputs[i].sighashType.None? && x.psbt.inputs[i].tapMerkleRoot.None?
    ensures UtxoData(x.psbt, i) == UtxoData(p, i) && x.psbt.unsignedTx == p.unsignedTx
  {
    hide ListHolds, ExtractQuorum, ExtractTapscript, LeafHash, ControlBlock, QuorumLockScript, UtxoData;
    SameUtxos(x.psbt, p);
    HeldOnce(c, p, x, i, false);
    assert SameButSigs(x.psbt.inputs[i], p.inputs[i]);
    if !plan.form.MsP2tr? {
      forall s | s in x.psbt.inputs[i].partialSigs
        ensures |s.value| <= MS_SIG_SIZE_ESTIMATE
      {
        CollectedEntry(c, p, x, i, plan, s);
      }
    }
  }

  predicate Enough(plan: QuorumPlan, applied: set<PubKey>) {
    CountIn(plan.quorum.keys, MemberNames(plan, applied)) >= plan.quorum.m
  }

  /** The members' signatures in a copy, where they are partial signatures. */
  lemma MemberSigsHeld(c: Crypto, p: Psbt, x: Copy, i: nat, plan: QuorumPlan)
    requires Parallel(p) && Holds(c, p, x) && i < |p.inputs| && Unspent(c, p, i, plan) && SpendContext(p).Some?
    requires |x.applied| == |p.inputs| == |x.psbt.inputs| && !plan.form.MsP2tr?
    ensures var sigs := MemberSigs(plan.quorum.keys, x.psbt.inputs[i].partialSigs, i);
      sigs.Ok? && (|sigs.value| >= plan.quorum.m <==> Enough(plan, x.applied[i]))
  {
    hide Holds, MemberSigs, MemberNames, CountIn, Unspent;
    forall k: bytes | k in plan.quorum.keys
      ensures Lookup(x.psbt.inputs[i].partialSigs, k).Some? <==> k in MemberNames(plan, x.applied[i])
      ensures Lookup(x.psbt.inputs[i].partialSigs, k).Some? ==>
        EndsWith(Lookup(x.psbt.inputs[i].partialSigs, k).value, SIGHASH_ALL)
    {
      LookupMember(c, p, x, i, plan, k);
    }
    hide Lookup, EndsWith;
    MemberSigsCount(plan.quorum.keys, x.psbt.inputs[i].partialSigs, MemberNames(plan, x.applied[i]), i);
  }

  lemma P2shEnough(c: Crypto, p: Psbt, x: Copy, i: nat, plan: QuorumPlan)
    requires Parallel(p) && Holds(c, p, x) && i < |p.inputs| && Unspent(c, p, i, plan) && SpendContext(p).Some?
    requires |x.applied| == |p.inputs| && plan.form.MsP2sh? && Parallel(x.psbt)
    ensures FinalInput(c, x.psbt, i).Ok? <==> Enough(plan, x.applied[i])
  {
    hide Holds, UtxoData, ExtractQuorum, MultisigScriptSig, MemberSigs, Enough, Unspent;
    CopyIsQuorumInput(c, p, x, i, plan);
    MemberSigsHeld(c, p, x, i, plan);
    QuorumOutputShapes(c, plan.redeem, plan.form);
    QuorumInputNeverStops(c, x.psbt, i, plan);
    var input, lock := x.psbt.inputs[i], UtxoData(x.psbt, i).value.script;
    assert FinalInput(c, x.psbt, i) == P2shFinal(c, input, i, lock);
    P2shFinalOk(c, input, i, lock);
    assert lock[2..22] == c.hash160(plan.redeem);
  }

  lemma P2wshEnough(c: Crypto, p: Psbt, x: Copy, i: nat, plan: QuorumPlan)
    requires Parallel(p) && Holds(c, p, x) && i < |p.inputs| && Unspent(c, p, i, plan) && SpendContext(p).Some?
    requires |x.applied| == |p.inputs| && plan.form.MsP2wsh? && Parallel(x.psbt)
    ensures FinalInput(c, x.psbt, i).Ok? <==> Enough(plan, x.applied[i])
  {
    hide Holds, UtxoData, ExtractQuorum, MultisigWitness, StackBytes, MemberSigs, Enough;
    CopyIsQuorumInput(c, p, x, i, plan);
    MemberSigsHeld(c, p, x, i, plan);
    QuorumOutputShapes(c, plan.redeem, plan.form);
  }

  lemma TapEnough(c: Crypto, p: Psbt, x: Copy, i: nat, plan: QuorumPlan)
    requires Parallel(p) && Holds(c, p, x) && i < |p.inputs| && Unspent(c, p, i, plan) && SpendContext(p).Some?
    requires |x.applied| == |p.inputs| && plan.form.MsP2tr? && Parallel(x.psbt)
    ensures FinalInput(c, x.psbt, i).Ok? <==> Enough(plan, x.applied[i])
  {
    hide Holds, UtxoData, ExtractTapscript, TapscriptWitness, StackBytes, SigSlots, MemberNames, CountIn, LeafHash,
         ControlBlock, FinalInput;
    CopyIsQuorumInput(c, p, x, i, plan);
    var hash := LeafHash(c, plan.redeem);
    QuorumOutputShapes(c, plan.redeem, plan.form);
    ReadsOwnLeaf(c, x.psbt, i, plan);
    TapFinalApplies(c, x.psbt, i);
    hide Unspent, ReadLeaf;
    forall k: bytes | k in plan.quorum.keys
      ensures Lookup(x.psbt.inputs[i].tapScriptSigs, k + hash).Some? <==> k in MemberNames(plan, x.applied[i])
      ensures Lookup(x.psbt.inputs[i].tapScriptSigs, k + hash).Some? ==>
        |Lookup(x.psbt.inputs[i].tapScriptSigs, k + hash).value| == 64
    {
      LookupMember(c, p, x, i, plan, k);
    }
    hide Lookup;
    SlotsCount(plan.quorum.keys, hash, x.psbt.inputs[i].tapScriptSigs, MemberNames(plan, x.applied[i]), plan.quorum.m, i);
  }

  /** An input of a copy can be finalized exactly when M members' keys were applied to
      it, whatever the run. */
  lemma FinalizableIffEnough(c: Crypto, p: Psbt, x: Copy, i: nat, plan: QuorumPlan)
    requires Parallel(p) && Holds(c, p, x) && i < |p.inputs| && Unspent(c, p, i, plan) && SpendContext(p).Some?
    ensures Parallel(x.psbt) && |x.applied| == |p.inputs|
    ensures FinalInput(c, x.psbt, i).Ok? <==> Enough(plan, x.applied[i])
  {
    hide FinalInput, Holds, Enough, QuorumInput;
    HeldOnce(c, p, x, i, false);
    CopyIsQuorumInput(c, p, x, i, plan);
    match plan.form {
      case MsP2sh => P2shEnough(c, p, x, i, plan);
      case MsP2wsh => P2wshEnough(c, p, x, i, plan);
      case MsP2tr => TapEnough(c, p, x, i, plan);
    }
  }

  // ------------------------------------------------------------------ the transaction

  lemma P2shExtracts(c: Crypto, p: Psbt, q: Psbt, i: nat, plan: QuorumPlan)
    requires Parallel(p) && i < |p.inputs| && Parallel(q) && FinalizedAt(c, p, q, i)
    requires QuorumInput(c, p, i, plan) && plan.form.MsP2sh? && FinalInput(c, p, i).Ok?
    ensures ExtractIn(q, i).Ok?
    ensures ExtractIn(q, i).value.script == FinalInput(c, p, i).value.finalScriptSig.value
  {
    hide UtxoData, FormOfScript, ExtractQuorum, QuorumSigs, MultisigScriptSig;
    FinalInputKeeps(c, p, i);
    UtxoKept(p, q, i);
    QuorumOutputShapes(c, plan.redeem, plan.form);
    ShapesDisjoint(UtxoData(p, i).value.script);
    assert FinalInput(c, p, i) == P2shFinal(c, p.inputs[i], i, UtxoData(p, i).value.script);
    assert FinalInput(c, p, i).value.finalScriptSig.Some? && FinalInput(c, p, i).value.finalScriptWitness.None?;
  }

  lemma P2wshExtracts(c: Crypto, p: Psbt, q: Psbt, i: nat, plan: QuorumPlan)
    requires Parallel(p) && i < |p.inputs| && Parallel(q) && FinalizedAt(c, p, q, i)
    requires QuorumInput(c, p, i, plan) && plan.form.MsP2wsh? && FinalInput(c, p, i).Ok?
    ensures ExtractIn(q, i).Ok?
  {
    hide FinalInput, UtxoData, StackBytes, DecodeWitnessStack, MultisigWitness, FormOfScript, ExtractQuorum;
    FinalInputKeeps(c, p, i);
    UtxoKept(p, q, i);
    QuorumOutputShapes(c, plan.redeem, plan.form);
    var sigs := P2wshFinalStack(c, p, i, plan);
    SigsStackFits(plan, sigs);
    DecodeWitnessStackOfBytes(MultisigWitness(plan.redeem, sigs));
  }

  lemma TapFinalClears(c: Crypto, i: Input, index: nat, utxo: TxOut)
    requires i.tapLeafScripts != [] && IsP2tr(utxo.script) && TapFinal(c, i, index, utxo).Ok?
    ensures TapFinal(c, i, index, utxo).value.tapLeafScripts == []
  {
    hide ReadLeaf, SigSlots, StackBytes, TapscriptWitness;
  }

  lemma TapExtracts(c: Crypto, p: Psbt, q: Psbt, i: nat, plan: QuorumPlan)
    requires Parallel(p) && i < |p.inputs| && Parallel(q) && FinalizedAt(c, p, q, i)
    requires QuorumInput(c, p, i, plan) && plan.form.MsP2tr? && FinalInput(c, p, i).Ok?
    ensures ExtractIn(q, i).Ok?
  {
    hide FinalInput, UtxoData, StackBytes, DecodeWitnessStack, TapscriptWitness, FormOfScript, ReadLeaf, TapFinal,
         SigSlots, LeafHash, ControlBlock, Filled, StackFits, ExtractTapscript;
    FinalInputKeeps(c, p, i);
    UtxoKept(p, q, i);
    QuorumOutputShapes(c, plan.redeem, plan.form);
    OwnLeaf(c, p, i, plan);
    var input, utxo := p.inputs[i], UtxoData(p, i).value;
    TapFinalApplies(c, p, i);
    TapFinalOf(c, input, i, utxo);
    TapFinalClears(c, input, i, utxo);
    var leaf := ReadLeaf(c, input, utxo).value;
    var slots := SigSlots(leaf.quorum.keys, leaf.hash, input.tapScriptSigs, leaf.quorum.m, i).value;
    SlotsOfFinalizer((_, _) => true, leaf.quorum.keys, leaf.hash, input.tapScriptSigs, leaf.quorum.m, i);
    TapscriptFacts(leaf.script);
    WitnessFits(leaf.script, leaf.controlBlock, slots);
    DecodeWitnessStackOfBytes(TapscriptWitness(leaf.script, leaf.controlBlock, slots));
  }

  lemma ExtractsIffFinal(c: Crypto, p: Psbt, q: Psbt, i: nat, plan: QuorumPlan)
    requires Parallel(p) && i < |p.inputs| && Parallel(q) && FinalizedAt(c, p, q, i) && QuorumInput(c, p, i, plan)
    ensures ExtractIn(q, i).Ok? <==> FinalInput(c, p, i).Ok?
  {
    hide FinalInput, ExtractIn, UtxoData, ExtractQuorum, ExtractTapscript, LeafHash, ControlBlock;
    if ExtractIn(q, i).Ok? { ExtractedWasFinal(c, p, q, i); }
    if FinalInput(c, p, i).Ok? {
      match plan.form {
        case MsP2sh => P2shExtracts(c, p, q, i, plan);
        case MsP2wsh => P2wshExtracts(c, p, q, i, plan);
        case MsP2tr => TapExtracts(c, p, q, i, plan);
      }
    }
  }

  /** From the container made for a quorum spend, whatever the run: a copy finalizes to
      a transaction exactly when each input has met M members' keys. */
  lemma RunCompletes(
      c: Crypto, plan: QuorumPlan, previous: Utxo -> Option<Tx>, vout: seq<TxOut>, p: Psbt, steps: seq<Step>, x: Copy)
    requires Planned(plan) && AllBacked(c, plan, previous) && vout != [] && TxFits(UnsignedQuorumTx(plan, vout))
    requires CreateQuorumSpend(c, plan, previous, vout) == Ok(p)
    requires Run(c, [Fresh(p)], steps).Ok? && x in Run(c, [Fresh(p)], steps).value
    ensures |x.applied| == |plan.selected| && Parallel(x.psbt) && x.psbt.unsignedTx == UnsignedQuorumTx(plan, vout)
    ensures forall i :: 0 <= i < |x.psbt.inputs| ==> QuorumInput(c, x.psbt, i, plan)
    ensures !Finalize(c, x.psbt).stopped && Parallel(Finalize(c, x.psbt).psbt)
    ensures Extract(Finalize(c, x.psbt).psbt).Ok?
       <==> forall i :: 0 <= i < |plan.selected| ==> Enough(plan, x.applied[i])
  {
    hide Run, Holds, Base, Unspent, QuorumInput, Enough, FinalInput, ExtractIn, SpendContext, Create, TxFits, Planned;
    QuorumSpendCreated(c, plan, previous, vout);
    CreatedQuorumIsBase(c, plan, previous, vout);
    RunKeeps(c, p, steps);
    KnownContext(c, p, plan);
    CopySizes(c, p, x);
    forall i | 0 <= i < |p.inputs|
      ensures QuorumInput(c, x.psbt, i, plan) && x.psbt.unsignedTx == p.unsignedTx
      ensures FinalInput(c, x.psbt, i).Ok? <==> Enough(plan, x.applied[i])
      ensures FinalInput(c, x.psbt, i) != Err(PushTooLong)
    {
      CopyIsQuorumInput(c, p, x, i, plan);
      FinalizableIffEnough(c, p, x, i, plan);
      QuorumInputNeverStops(c, x.psbt, i, plan);
    }
    FinalizeEach(c, x.psbt);
    var q := Finalize(c, x.psbt).psbt;
    forall i | 0 <= i < |p.inputs|
      ensures ExtractIn(q, i).Ok? <==> FinalInput(c, x.psbt, i).Ok?
    {
      ExtractsIffFinal(c, x.psbt, q, i, plan);
    }
    ExtractInsEach(q, |q.inputs|);
  }

  lemma CopySizes(c: Crypto, p: Psbt, x: Copy)
    requires Parallel(p) && Holds(c, p, x)
    ensures |x.applied| == |p.inputs| == |x.psbt.inputs| && Parallel(x.psbt) && x.psbt.unsignedTx == p.unsignedTx
  {}

  lemma ExtractedAsPlanned(c: Crypto, plan: QuorumPlan, vout: seq<TxOut>, p: Psbt)
    requires Parallel(p) && p.unsignedTx == UnsignedQuorumTx(plan, vout) && vout != []
    requires forall i :: 0 <= i < |p.inputs| ==> QuorumInput(c, p, i, plan)
    requires Parallel(Finalize(c, p).psbt) && Extract(Finalize(c, p).psbt).Ok?
    ensures var tx := Extract(Finalize(c, p).psbt).value;
      && SameSkeleton(tx, UnsignedQuorumTx(plan, vout))
      && (!plan.form.MsP2sh? ==> TxId(c, tx) == TxId(c, UnsignedQuorumTx(plan, vout)))
  {
    hide FinalInput, Extract, Finalize, QuorumInput;
    var q := Finalize(c, p).psbt;
    FinalizeEach(c, p);
    forall i | 0 <= i < |q.inputs|
      ensures !plan.form.MsP2sh? ==> SpendsWitness(q, i)
    {
      UtxoKept(p, q, i);
      if !plan.form.MsP2sh? { QuorumSpendsWitness(c, p, i, plan); }
    }
    QuorumUnsigned(plan, vout);
    ExtractKeepsTransaction(c, q);
  }

  /** A quorum spend from end to end. Whatever members sign, in whatever order and over
      whatever copies: exactly when each input has met M of them the copy gives a
      transaction; it is the planned one with its scripts and witnesses, and inputs equal
      outputs plus fee. For the witness forms it keeps the planned id, and a fee chosen
      before anyone had signed pays its rate. */
  lemma QuorumSpendCompletes(
      c: Crypto, b58: Base58, plan: QuorumPlan, previous: Utxo -> Option<Tx>, feekb: nat, fee: nat, best: Attempt<Vout>,
      p: Psbt, steps: seq<Step>, x: Copy)
    requires QuorumFee(c, b58, plan, feekb, fee, Ok(best))
    requires Planned(plan) && AllBacked(c, plan, previous) && TxFits(UnsignedQuorumTx(plan, best.made.vout))
    requires CreateQuorumSpend(c, plan, previous, best.made.vout) == Ok(p)
    requires Run(c, [Fresh(p)], steps).Ok? && x in Run(c, [Fresh(p)], steps).value
    ensures |x.applied| == |plan.selected| && Parallel(x.psbt) && Parallel(Finalize(c, x.psbt).psbt)
    ensures var tx := Extract(Finalize(c, x.psbt).psbt);
      && (tx.Ok? <==> forall i :: 0 <= i < |plan.selected| ==> Enough(plan, x.applied[i]))
      && (tx.Ok? ==>
            && SameSkeleton(tx.value, UnsignedQuorumTx(plan, best.made.vout))
            && Total(tx.value.vout) + best.fee == InAmount(plan))
      && (tx.Ok? && !plan.form.MsP2sh? ==>
            && TxId(c, tx.value) == TxId(c, UnsignedQuorumTx(plan, best.made.vout))
            && (fee == 0 && feekb >= MIN_RELAY_TX_FEE ==> best.fee >= Rate(VSize(tx.value), feekb)))
  {
    hide Run, Enough, FinalInput, Extract, Finalize, QuorumInput, Chosen, TxFits, Create, Planned, AllBacked, BuildSized,
         SizedTx, VSize, Rate, SpendsWitness, UtxoData, KeepsUtxo, FinalizedInput, Stops, Stripped, TxId;
    QuorumFeeConserves(c, b58, plan, feekb, fee, best);
    RunCompletes(c, plan, previous, best.made.vout, p, steps, x);
    if Extract(Finalize(c, x.psbt).psbt).Ok? { ExtractedAsPlanned(c, plan, best.made.vout, x.psbt); }
    if fee == 0 && feekb >= MIN_RELAY_TX_FEE && !plan.form.MsP2sh? { FeeCoversSpend(c, b58, plan, feekb, best, x.psbt); }
  }

  lemma QuorumSpendsWitness(c: Crypto, p: Psbt, i: nat, plan: QuorumPlan)
    requires Parallel(p) && i < |p.inputs| && QuorumInput(c, p, i, plan) && !plan.form.MsP2sh?
    ensures SpendsWitness(p, i)
  {
    hide UtxoData, ExtractQuorum, ExtractTapscript, LeafHash, ControlBlock;
    QuorumOutputShapes(c, plan.redeem, plan.form);
  }

  lemma QuorumUnsigned(plan: QuorumPlan, vout: seq<TxOut>)
    ensures vout != [] ==> Unsigned(UnsignedQuorumTx(plan, vout))
  {}
}
