/** What the Finalizer assembles for a quorum is accepted by the reference
    interpreter, in P2SH and in P2WSH. */
module MultisigSpends {
  import opened Bytes
  import opened KeyMaps
  import opened Transactions
  import opened Psbts
  import opened Scripts
  import opened Multisig
  import opened Sighashes
  import opened Signing
  import opened Finalizing
  import opened FinalizeFrame
  import opened ScriptMachine

  // --------------------------------------------------------------- running pushes

  lemma NoStack(x: bytes)
    ensures [] + [x] == [x]
  {}

  lemma Drop1(x: byte, rest: bytes)
    ensures ([x] + rest)[0] == x && ([x] + rest)[1..] == rest
  {}

  lemma ReadItemOf(d: bytes, rest: bytes)
    requires |d| <= MAX_ELEMENT_SIZE
    ensures ReadItem(d + rest, |d|) == Some(Pushed(d, rest))
  {}

  /** The interpreter reads back what the wallet pushes. */
  lemma ReadPushOfPushData(d: bytes, rest: bytes)
    requires |d| <= MAX_ELEMENT_SIZE
    ensures PushData(d).Ok? && PushData(d).value != []
    ensures ReadPush(PushData(d).value + rest) == Some(Pushed(d, rest))
    ensures PushData(d).value[0] <= OP_PUSHDATA4
  {
    var b := PushData(d).value + rest;
    ReadItemOf(d, rest);
    if |d| <= 0x4b {
      Assoc([|d|], d, rest);
      Drop1(|d|, d + rest);
    } else if |d| <= 0xff {
      assert b == [OP_PUSHDATA1, |d|] + (d + rest);
      assert b[1..2] == [|d|] && b[2..] == d + rest;
      assert FromLE([|d|]) == |d| by { assert [|d|][1..] == []; }
    } else {
      Pow256Values();
      FromLEOfLE(|d|, 2);
      assert b == [OP_PUSHDATA2] + LE(|d|, 2) + (d + rest);
      assert b[1..3] == LE(|d|, 2) && b[3..] == d + rest;
    }
  }

  lemma {:induction false} RunPushesOfAll(items: seq<bytes>, rest: bytes, stack: Stack)
    requires forall x :: x in items ==> |x| <= MAX_ELEMENT_SIZE
    ensures PushAll(items).Ok?
    ensures RunPushes(PushAll(items).value + rest, stack) == RunPushes(rest, stack + items)
    decreases |items|
  {
    hide ReadPush, PushData;
    if items == [] {
      assert [] + rest == rest && stack + [] == stack;
    } else {
      var head, tail := items[0], items[1..];
      assert head in items;
      RunPushesOfAll(tail, rest, stack + [head]);
      ReadPushOfPushData(head, PushAll(tail).value + rest);
      Assoc(PushData(head).value, PushAll(tail).value, rest);
      Assoc(stack, [head], tail);
      assert items == [head] + tail;
    }
  }

  lemma RunDummy(rest: bytes)
    ensures RunPushes([0x00] + rest, []) == RunPushes(rest, [[]])
  {
    Drop1(0x00, rest);
    NoStack([]);
    assert rest[0..] == rest;
  }

  lemma RunLast(redeem: bytes, stack: Stack)
    requires |redeem| <= MAX_ELEMENT_SIZE
    ensures PushData(redeem).Ok? && RunPushes(PushData(redeem).value, stack) == Some(stack + [redeem])
  {
    ReadPushOfPushData(redeem, []);
    assert PushData(redeem).value + [] == PushData(redeem).value;
  }

  /** A scriptSig leaves the empty dummy, the signatures and the redeem script. */
  lemma RunScriptSig(redeem: bytes, sigs: seq<bytes>)
    requires |redeem| <= MAX_ELEMENT_SIZE && forall x :: x in sigs ==> |x| <= MAX_ELEMENT_SIZE
    ensures MultisigScriptSig(redeem, sigs).Ok?
    ensures RunPushes(MultisigScriptSig(redeem, sigs).value, []) == Some([[]] + sigs + [redeem])
  {
    hide RunPushes, PushData, PushAll;
    RunLast(redeem, [[]] + sigs);
    RunPushesOfAll(sigs, PushData(redeem).value, [[]]);
    RunDummy(PushAll(sigs).value + PushData(redeem).value);
    Assoc([0x00], PushAll(sigs).value, PushData(redeem).value);
  }

  // ------------------------------------------------------------- CHECKMULTISIG

  /** The key pushes of a redeem script go onto the stack in order. */
  lemma {:induction false} RunKeyPushes(check: Check, keys: seq<bytes>, rest: bytes, stack: Stack)
    requires HasLength(keys, 33)
    ensures Run(check, false, Flat(KeyPush, keys) + rest, stack) == Run(check, false, rest, stack + keys)
    decreases |keys|
  {
    hide Operate;
    if keys == [] {
      assert [] + rest == rest && stack + [] == stack;
    } else {
      var key, tail := keys[0], keys[1..];
      assert key in keys && forall k :: k in tail ==> k in keys;
      var after := Flat(KeyPush, tail) + rest;
      Assoc(KeyPush(key), Flat(KeyPush, tail), rest);
      Assoc([0x21], key, after);
      Drop1(0x21, key + after);
      ReadItemOf(key, after);
      RunKeyPushes(check, tail, rest, stack + [key]);
      Assoc(stack, [key], tail);
      assert keys == [key] + tail;
    }
  }

  lemma CheckMultisigOf(check: Check, q: Quorum, sigs: seq<bytes>)
    requires InBounds(q.m, |q.keys|) && |sigs| == q.m
    ensures CheckMultisig(check, [[]] + sigs + [NumberBytes(q.m)] + q.keys + [NumberBytes(|q.keys|)])
         == Some([NumberBytes(if Greedy(check, sigs, q.keys) then 1 else 0)])
  {
    hide Greedy;
    var n, below := |q.keys|, [[]] + sigs + [NumberBytes(q.m)];
    SplitTail(below, q.keys, NumberBytes(n));
    SplitTail([[]], sigs, NumberBytes(q.m));
    NoStack(NumberBytes(if Greedy(check, sigs, q.keys) then 1 else 0));
  }

  lemma SplitTail(a: Stack, b: Stack, x: bytes)
    ensures var s := a + b + [x];
      && s[|s| - 1] == x && s[|s| - 1 - |b|..|s| - 1] == b && s[..|s| - 1 - |b|] == a
      && (|a| > 0 ==> s[|s| - 2 - |b|] == a[|a| - 1] && s[..|s| - 2 - |b|] == a[..|a| - 1])
  {}

  /** The redeem script, run on a dummy and M signatures, decides by the matching. */
  lemma RunRedeem(check: Check, q: Quorum, sigs: seq<bytes>)
    requires InBounds(q.m, |q.keys|) && HasLength(q.keys, 33) && |sigs| == q.m
    ensures Run(check, false, RedeemLayout(q), [[]] + sigs)
         == Some([NumberBytes(if Greedy(check, sigs, q.keys) then 1 else 0)])
  {
    hide Greedy, CheckMultisig;
    var s0 := [[]] + sigs;
    var s1 := s0 + [NumberBytes(q.m)];
    var s2 := s1 + q.keys;
    var s3 := s2 + [NumberBytes(|q.keys|)];
    var body := Flat(KeyPush, q.keys) + RedeemTail(|q.keys|);
    Drop1(OpN(q.m), body);
    assert Run(check, false, RedeemLayout(q), s0) == Run(check, false, body, s1);
    RunKeyPushes(check, q.keys, RedeemTail(|q.keys|), s1);
    assert RedeemTail(|q.keys|)[1..] == [OP_CHECKMULTISIG] && [OP_CHECKMULTISIG][1..] == [];
    assert Run(check, false, RedeemTail(|q.keys|), s2) == Run(check, false, [OP_CHECKMULTISIG], s3);
    CheckMultisigOf(check, q, sigs);
  }

  // ---------------------------------------------------- the Finalizer's signatures

  /** The positions of the keys that have a signature. */
  function SignerPositions(keys: seq<bytes>, ps: seq<Pair>): seq<nat> {
    if keys == [] then []
    else
      var rest := MapSeq((i: nat) => i + 1, SignerPositions(keys[1..], ps));
      if Lookup(ps, keys[0]).None? then rest else [0] + rest
  }

  /** Every signature a member has in the container verifies under its own key. */
  ghost predicate MembersVerify(check: Check, keys: seq<bytes>, ps: seq<Pair>) {
    forall k :: k in keys && Lookup(ps, k).Some? ==>
      check(Lookup(ps, k).value, k) && |Lookup(ps, k).value| <= MAX_ELEMENT_SIZE
  }

  ghost predicate QuorumVerifies(check: Check, script: Option<bytes>, ps: seq<Pair>) {
    script.Some? && ExtractQuorum(script.value).Some? ==>
      MembersVerify(check, ExtractQuorum(script.value).value.keys, ps)
  }

  lemma AssignsShifted(check: Check, sigs: seq<bytes>, keys: seq<bytes>, f: seq<nat>)
    requires keys != [] && Assigns(check, sigs, keys[1..], f)
    ensures Assigns(check, sigs, keys, MapSeq((i: nat) => i + 1, f))
    ensures forall sig :: check(sig, keys[0]) ==> Assigns(check, [sig] + sigs, keys, [0] + MapSeq((i: nat) => i + 1, f))
  {}

  lemma {:induction false} MemberSigsAssigned(check: Check, keys: seq<bytes>, ps: seq<Pair>, index: nat)
    requires MemberSigs(keys, ps, index).Ok? && MembersVerify(check, keys, ps)
    ensures Assigns(check, MemberSigs(keys, ps, index).value, keys, SignerPositions(keys, ps))
  {
    hide Assigns;
    if keys == [] {
      NothingAssigned(check, keys);
    } else {
      assert keys[0] in keys && forall k :: k in keys[1..] ==> k in keys;
      MemberSigsAssigned(check, keys[1..], ps, index);
      AssignsShifted(check, MemberSigs(keys[1..], ps, index).value, keys, SignerPositions(keys[1..], ps));
    }
  }

  lemma NothingAssigned(check: Check, keys: seq<bytes>)
    ensures Assigns(check, [], keys, [])
  {}

  lemma AssignsPrefix(check: Check, sigs: seq<bytes>, keys: seq<bytes>, f: seq<nat>, m: nat)
    requires Assigns(check, sigs, keys, f) && m <= |sigs|
    ensures Assigns(check, sigs[..m], keys, f[..m])
  {}

  /** The first M members' signatures are ones that the matching accepts. */
  lemma FinalSigsMatch(check: Check, q: Quorum, ps: seq<Pair>, index: nat)
    requires MemberSigs(q.keys, ps, index).Ok? && |MemberSigs(q.keys, ps, index).value| >= q.m
    requires MembersVerify(check, q.keys, ps)
    ensures var sigs := MemberSigs(q.keys, ps, index).value[..q.m];
      Greedy(check, sigs, q.keys) && forall x :: x in sigs ==> 0 < |x| <= MAX_ELEMENT_SIZE
  {
    var all := MemberSigs(q.keys, ps, index).value;
    MemberSigsAssigned(check, q.keys, ps, index);
    AssignsPrefix(check, all, q.keys, SignerPositions(q.keys, ps), q.m);
    GreedyFinds(check, all[..q.m], q.keys, SignerPositions(q.keys, ps)[..q.m]);
    MemberSigsBounded(check, q.keys, ps, index);
    forall x | x in all[..q.m]
      ensures 0 < |x| <= MAX_ELEMENT_SIZE
    {
      assert x in all;
    }
  }

  lemma {:induction false} MemberSigsBounded(check: Check, keys: seq<bytes>, ps: seq<Pair>, index: nat)
    requires MemberSigs(keys, ps, index).Ok? && MembersVerify(check, keys, ps)
    ensures forall x :: x in MemberSigs(keys, ps, index).value ==> 0 < |x| <= MAX_ELEMENT_SIZE
  {
    if keys != [] {
      assert keys[0] in keys && forall k :: k in keys[1..] ==> k in keys;
      MemberSigsBounded(check, keys[1..], ps, index);
    }
  }

  lemma QuorumFacts(script: bytes)
    requires ExtractQuorum(script).Some?
    ensures var q := ExtractQuorum(script).value;
      && InBounds(q.m, |q.keys|) && HasLength(q.keys, 33) && script == RedeemLayout(q)
      && |script| <= MAX_ELEMENT_SIZE
  {
    ExtractedRedeem(script);
    assert HasLength(ExtractQuorum(script).value.keys, 33);
    SplitRedeem(ExtractQuorum(script).value);
  }

  /** The signatures a quorum input is finalized with satisfy its script. */
  lemma QuorumSigsSatisfy(check: Check, i: Input, index: nat, script: Option<bytes>, committed: bool)
    requires QuorumSigs(i, index, script, committed).Ok? && QuorumVerifies(check, script, i.partialSigs)
    ensures committed && script.Some? && |script.value| <= MAX_ELEMENT_SIZE
    ensures var sigs := QuorumSigs(i, index, script, committed).value;
      && (forall x :: x in sigs ==> 0 < |x| <= MAX_ELEMENT_SIZE) && |sigs| <= MS_MAX_PUBKEYS
      && Succeeded(Run(check, false, script.value, [[]] + sigs))
  {
    hide MembersVerify, Greedy, ExtractQuorum, Run, QuorumSigs;
    QuorumSigsOk(i, index, script, committed);
    var q := ExtractQuorum(script.value).value;
    FinalSigsMatch(check, q, i.partialSigs, index);
    QuorumFacts(script.value);
    RunRedeem(check, q, QuorumSigs(i, index, script, committed).value);
  }

  lemma AcceptScriptSig(hash160: bytes -> Hash20, check: Check, lock: bytes, redeem: bytes, sigs: seq<bytes>)
    requires IsP2sh(lock) && hash160(redeem) == lock[2..22] && |redeem| <= MAX_ELEMENT_SIZE
    requires forall x :: x in sigs ==> 0 < |x| <= MAX_ELEMENT_SIZE
    requires Succeeded(Run(check, false, redeem, [[]] + sigs))
    ensures MultisigScriptSig(redeem, sigs).Ok?
    ensures AcceptsP2sh(hash160, check, lock, MultisigScriptSig(redeem, sigs).value)
  {
    hide Run, RunPushes, MultisigScriptSig;
    RunScriptSig(redeem, sigs);
    var stack := [[]] + sigs + [redeem];
    assert stack[|stack| - 1] == redeem && stack[..|stack| - 1] == [[]] + sigs;
  }

  lemma AcceptWitness(sha256: bytes -> Hash32, check: Check, lock: bytes, redeem: bytes, sigs: seq<bytes>)
    requires IsP2wsh(lock) && sha256(redeem) == lock[2..34] && |redeem| <= MAX_ELEMENT_SIZE
    requires (forall x :: x in sigs ==> 0 < |x| <= MAX_ELEMENT_SIZE) && |sigs| <= MS_MAX_PUBKEYS
    requires Succeeded(Run(check, false, redeem, [[]] + sigs))
    ensures AcceptsP2wsh(sha256, check, lock, MultisigWitness(redeem, sigs))
    ensures StackFits(MultisigWitness(redeem, sigs))
  {
    hide Run;
    var stack := MultisigWitness(redeem, sigs);
    assert stack[|stack| - 1] == redeem && stack[..|stack| - 1] == [[]] + sigs;
    assert forall x :: x in [[]] + sigs ==> x == [] || x in sigs;
    assert forall i :: 0 <= i < |stack| ==> stack[i] == [] || stack[i] in sigs || stack[i] == redeem;
  }

  /** A finalized P2SH quorum input is accepted whenever the members' signatures in
      it verify, whichever members signed and in whatever order they did. */
  lemma P2shSpendAccepted(c: Crypto, check: Check, p: Psbt, index: nat, utxo: TxOut)
    requires Parallel(p) && UtxoData(p, index) == Some(utxo) && IsP2sh(utxo.script) && index < |p.inputs|
    requires !IsFinal(p.inputs[index]) && FinalInput(c, p, index).Ok?
    requires QuorumVerifies(check, p.inputs[index].redeemScript, p.inputs[index].partialSigs)
    ensures FinalInput(c, p, index).value.finalScriptSig.Some?
    ensures AcceptsP2sh(c.hash160, check, utxo.script, FinalInput(c, p, index).value.finalScriptSig.value)
  {
    hide QuorumVerifies, MultisigScriptSig, Run, AcceptsP2sh, QuorumSigs, UtxoData;
    var i := p.inputs[index];
    var script := i.redeemScript;
    var committed := script.Some? && c.hash160(script.value) == utxo.script[2..22];
    assert FinalInput(c, p, index) == P2shFinal(c, i, index, utxo.script);
    QuorumSigsSatisfy(check, i, index, script, committed);
    AcceptScriptSig(c.hash160, check, utxo.script, script.value, QuorumSigs(i, index, script, committed).value);
  }

  /** The same for P2WSH, on the witness stack that the final field decodes to. */
  lemma P2wshSpendAccepted(c: Crypto, check: Check, p: Psbt, index: nat, utxo: TxOut)
    requires Parallel(p) && UtxoData(p, index) == Some(utxo) && IsP2wsh(utxo.script) && index < |p.inputs|
    requires !IsFinal(p.inputs[index]) && FinalInput(c, p, index).Ok?
    requires QuorumVerifies(check, p.inputs[index].witnessScript, p.inputs[index].partialSigs)
    ensures FinalInput(c, p, index).value.finalScriptWitness.Some?
    ensures var stack := DecodeWitnessStack(FinalInput(c, p, index).value.finalScriptWitness.value);
      stack.Ok? && AcceptsP2wsh(c.sha256, check, utxo.script, stack.value)
  {
    hide QuorumVerifies, Run, AcceptsP2wsh, QuorumSigs, UtxoData, DecodeWitnessStack, StackBytes, StackFits, MultisigWitness;
    var i := p.inputs[index];
    var script := i.witnessScript;
    var committed := script.Some? && c.sha256(script.value) == utxo.script[2..34];
    ShapesDisjoint(utxo.script);
    assert FinalInput(c, p, index) == P2wshFinal(c, i, index, utxo.script);
    QuorumSigsSatisfy(check, i, index, script, committed);
    var sigs := QuorumSigs(i, index, script, committed).value;
    AcceptWitness(c.sha256, check, utxo.script, script.value, sigs);
    DecodeWitnessStackOfBytes(MultisigWitness(script.value, sigs));
  }
}
