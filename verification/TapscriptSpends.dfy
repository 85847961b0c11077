/** The script-path spend of a tapscript quorum: the witness has one slot a key,
    exactly M of them filled, and running the leaf on it counts to M. */
module TapscriptSpends {
  import opened Bytes
  import opened KeyMaps
  import opened Transactions
  import opened Psbts
  import opened Scripts
  import opened Multisig
  import opened Sighashes
  import opened Signing
  import opened Finalizing
  import opened ScriptMachine
  import opened MultisigSpends

  /** A filled slot holds a signature that verifies under its key. */
  ghost predicate SlotsVerify(check: Check, keys: seq<bytes>, slots: seq<Option<bytes>>) {
    |keys| == |slots|
    && forall i :: 0 <= i < |keys| && slots[i].Some? ==> slots[i].value != [] && check(slots[i].value, keys[i])
  }

  function SlotItems(slots: seq<Option<bytes>>): seq<bytes> { MapSeq(SlotItem, slots) }

  lemma ReversedCons(items: seq<bytes>)
    requires items != []
    ensures Reversed(items) == Reversed(items[1..]) + [items[0]]
  {}

  lemma SlotsTail(check: Check, keys: seq<bytes>, slots: seq<Option<bytes>>)
    requires keys != [] && SlotsVerify(check, keys, slots)
    ensures SlotsVerify(check, keys[1..], slots[1..]) && SlotItems(slots)[1..] == SlotItems(slots[1..])
    ensures Filled(slots) == Filled(slots[1..]) + (if slots[0].Some? then 1 else 0)
  {}

  /** The push and the opcode of one slot. */
  lemma RunTapSlot(check: Check, key: bytes, first: bool, rest: bytes, stack: Stack)
    requires |key| == 32
    ensures Run(check, true, TapSlot(key, first) + rest, stack) ==
      match (if first then CheckSig(check, stack + [key]) else CheckSigAdd(check, stack + [key]))
      case None => None
      case Some(s) => Run(check, true, rest, s)
  {
    hide CheckSig, CheckSigAdd;
    var op := if first then OP_CHECKSIG else OP_CHECKSIGADD;
    var after := [op] + rest;
    assert TapSlot(key, first) + rest == [0x20] + (key + after);
    Drop1(0x20, key + after);
    ReadItemOf(key, after);
    Drop1(op, rest);
    assert Run(check, true, TapSlot(key, first) + rest, stack) == Run(check, true, after, stack + [key]);
  }

  /** CHECKSIGADD consumes the slot and raises the counter if the slot is filled. */
  lemma CountSlot(check: Check, below: Stack, slot: Option<bytes>, count: nat, key: bytes)
    requires count < 0x7f && (slot.Some? ==> slot.value != [] && check(slot.value, key))
    ensures CheckSigAdd(check, below + [SlotItem(slot)] + [NumberBytes(count)] + [key])
         == Some(below + [NumberBytes(count + (if slot.Some? then 1 else 0))])
    ensures CheckSig(check, below + [SlotItem(slot)] + [key])
         == Some(below + [NumberBytes(if slot.Some? then 1 else 0)])
  {
    var s := below + [SlotItem(slot)] + [NumberBytes(count)] + [key];
    assert s[..|s| - 3] == below;
    var t := below + [SlotItem(slot)] + [key];
    assert t[..|t| - 2] == below;
  }

  function One(slot: Option<bytes>): nat { if slot.Some? then 1 else 0 }

  lemma CountedSlot(check: Check, below: Stack, slot: Option<bytes>, count: nat, key: bytes, rest: bytes)
    requires |key| == 32 && count < 0x7f && (slot.Some? ==> slot.value != [] && check(slot.value, key))
    ensures Run(check, true, TapSlot(key, false) + rest, below + [SlotItem(slot)] + [NumberBytes(count)])
         == Run(check, true, rest, below + [NumberBytes(count + One(slot))])
    ensures Run(check, true, TapSlot(key, true) + rest, below + [SlotItem(slot)])
         == Run(check, true, rest, below + [NumberBytes(One(slot))])
  {
    hide CheckSig, CheckSigAdd, Run;
    RunTapSlot(check, key, false, rest, below + [SlotItem(slot)] + [NumberBytes(count)]);
    RunTapSlot(check, key, true, rest, below + [SlotItem(slot)]);
    CountSlot(check, below, slot, count, key);
  }

  lemma NothingLeft(check: Check, slots: seq<Option<bytes>>, count: nat)
    requires slots == [] && count < 0x80
    ensures Run(check, true, [], Reversed(SlotItems(slots)) + [NumberBytes(count)]) == Some([NumberBytes(count)])
  {
    assert Reversed(SlotItems(slots)) + [NumberBytes(count)] == [NumberBytes(count)];
  }

  lemma {:induction false} RunFurtherSlots(check: Check, keys: seq<bytes>, slots: seq<Option<bytes>>, count: nat)
    requires HasLength(keys, 32) && SlotsVerify(check, keys, slots) && count + |keys| < 0x7f
    ensures count + Filled(slots) < 0x7f
    ensures Run(check, true, TapSlots(keys, false), Reversed(SlotItems(slots)) + [NumberBytes(count)])
         == Some([NumberBytes(count + Filled(slots))])
    decreases |keys|
  {
    hide Run, NumberBytes, TapSlot, SlotItem, SlotItems;
    if keys == [] {
      NothingLeft(check, slots, count);
    } else {
      assert keys[0] in keys && forall k :: k in keys[1..] ==> k in keys;
      SlotsTail(check, keys, slots);
      SlotsTop(slots);
      CountedSlot(check, Reversed(SlotItems(slots[1..])), slots[0], count, keys[0], TapSlots(keys[1..], false));
      RunFurtherSlots(check, keys[1..], slots[1..], count + One(slots[0]));
    }
  }

  lemma SlotsTop(slots: seq<Option<bytes>>)
    requires slots != []
    ensures Reversed(SlotItems(slots)) == Reversed(SlotItems(slots[1..])) + [SlotItem(slots[0])]
  {
    ReversedCons(SlotItems(slots));
    assert SlotItems(slots)[1..] == SlotItems(slots[1..]);
  }

  /** The whole body of a leaf consumes every slot and leaves the number of filled
      ones. */
  lemma RunTapBody(check: Check, keys: seq<bytes>, slots: seq<Option<bytes>>)
    requires keys != [] && HasLength(keys, 32) && SlotsVerify(check, keys, slots) && |keys| <= MS_MAX_PUBKEYS
    ensures Filled(slots) < 0x7f
    ensures Run(check, true, TapSlots(keys, true), Reversed(SlotItems(slots))) == Some([NumberBytes(Filled(slots))])
  {
    hide Run, NumberBytes, TapSlot, SlotItem, SlotItems;
    assert keys[0] in keys && forall k :: k in keys[1..] ==> k in keys;
    SlotsTail(check, keys, slots);
    SlotsTop(slots);
    CountedSlot(check, Reversed(SlotItems(slots[1..])), slots[0], 0, keys[0], TapSlots(keys[1..], false));
    RunFurtherSlots(check, keys[1..], slots[1..], One(slots[0]));
  }

  // ------------------------------------------------------- the Finalizer's slots

  /** Every signature a key has for this leaf verifies under that key. */
  ghost predicate LeafVerifies(check: Check, keys: seq<bytes>, hash: Hash32, ps: seq<Pair>) {
    forall k :: k in keys && Lookup(ps, k + hash).Some? ==> check(Lookup(ps, k + hash).value, k)
  }

  lemma {:induction false} SlotsOfFinalizer(check: Check, keys: seq<bytes>, hash: Hash32, ps: seq<Pair>, m: nat, index: nat)
    requires SigSlots(keys, hash, ps, m, index).Ok? && LeafVerifies(check, keys, hash, ps)
    ensures var slots := SigSlots(keys, hash, ps, m, index).value;
      SlotsVerify(check, keys, slots) && Filled(slots) <= m
      && forall s :: s in slots && s.Some? ==> |s.value| == 64
  {
    if keys != [] {
      assert keys[0] in keys && forall k :: k in keys[1..] ==> k in keys;
      var sig := Lookup(ps, keys[0] + hash);
      var slots := SigSlots(keys, hash, ps, m, index).value;
      SlotsOfFinalizer(check, keys[1..], hash, ps, if sig.Some? && m > 0 then m - 1 else m, index);
      assert slots == [slots[0]] + slots[1..];
    }
  }

  /** The number of non-empty items. */
  function NonEmptyItems(items: seq<bytes>): nat {
    if items == [] then 0
    else NonEmptyItems(items[..|items| - 1]) + (if items[|items| - 1] != [] then 1 else 0)
  }

  lemma {:induction false} FilledItems(check: Check, keys: seq<bytes>, slots: seq<Option<bytes>>)
    requires SlotsVerify(check, keys, slots)
    ensures NonEmptyItems(Reversed(SlotItems(slots))) == Filled(slots)
    decreases |keys|
  {
    if keys != [] {
      SlotsTail(check, keys, slots);
      FilledItems(check, keys[1..], slots[1..]);
      ReversedCons(SlotItems(slots));
      var items := Reversed(SlotItems(slots));
      assert items[..|items| - 1] == Reversed(SlotItems(slots[1..]));
    }
  }

  lemma TapscriptFacts(script: bytes)
    requires ExtractTapscript(script).Some?
    ensures var q := ExtractTapscript(script).value;
      && InBounds(q.m, |q.keys|) && HasLength(q.keys, 32) && |script| == 34 * |q.keys| + 2
      && script[..|script| - 2] == TapSlots(q.keys, true)
  {
    var q := ExtractTapscript(script).value;
    ExtractedTapscript(script);
    ReadTapSlotsOfSlots(q.keys, true);
    assert TapLayout(q)[..|TapLayout(q)| - 2] == TapSlots(q.keys, true);
    hide ExtractTapscript, TapSlots;
  }

  lemma WitnessFits(script: bytes, controlBlock: bytes, slots: seq<Option<bytes>>)
    requires |script| <= MAX_ELEMENT_SIZE && |controlBlock| == 33 && |slots| <= MS_MAX_PUBKEYS
    requires forall s :: s in slots && s.Some? ==> |s.value| == 64
    ensures var stack := TapscriptWitness(script, controlBlock, slots);
      StackFits(stack) && |stack| == |slots| + 2 && stack[..|slots|] == Reversed(SlotItems(slots))
  {
    var stack := TapscriptWitness(script, controlBlock, slots);
    forall i | 0 <= i < |stack|
      ensures Fits(stack[i])
    {
      if i < |slots| { assert slots[|slots| - 1 - i] in slots; }
    }
  }

  lemma TapFinalOf(c: Crypto, i: Input, index: nat, utxo: TxOut)
    requires i.tapLeafScripts != [] && IsP2tr(utxo.script) && TapFinal(c, i, index, utxo).Ok?
    ensures ReadLeaf(c, i, utxo).Ok?
    ensures var leaf := ReadLeaf(c, i, utxo).value;
      var slots := SigSlots(leaf.quorum.keys, leaf.hash, i.tapScriptSigs, leaf.quorum.m, index);
      && slots.Ok? && Filled(slots.value) >= leaf.quorum.m
      && ExtractTapscript(leaf.script) == Some(leaf.quorum) && |leaf.controlBlock| == 33
      && TapFinal(c, i, index, utxo).value.finalScriptWitness
         == Some(StackBytes(TapscriptWitness(leaf.script, leaf.controlBlock, slots.value)))
  {
    hide ExtractTapscript, SigSlots, Filled, StackBytes, TapscriptWitness;
  }

  /** A finalized script-path input has N + 2 witness items with exactly M non-empty
      slots, ends with the leaf and its control block, and the leaf's body run on the
      slots consumes all of them and leaves the counter at M. */
  lemma TapscriptSpendCounts(c: Crypto, check: Check, p: Psbt, index: nat, utxo: TxOut)
    requires Parallel(p) && UtxoData(p, index) == Some(utxo) && IsP2tr(utxo.script) && index < |p.inputs|
    requires !IsFinal(p.inputs[index]) && p.inputs[index].tapLeafScripts != [] && FinalInput(c, p, index).Ok?
    requires ReadLeaf(c, p.inputs[index], utxo).Ok? ==>
      var leaf := ReadLeaf(c, p.inputs[index], utxo).value;
      LeafVerifies(check, leaf.quorum.keys, leaf.hash, p.inputs[index].tapScriptSigs)
    ensures ReadLeaf(c, p.inputs[index], utxo).Ok? && FinalInput(c, p, index).value.finalScriptWitness.Some?
    ensures DecodeWitnessStack(FinalInput(c, p, index).value.finalScriptWitness.value).Ok?
    ensures var leaf := ReadLeaf(c, p.inputs[index], utxo).value;
      var stack := DecodeWitnessStack(FinalInput(c, p, index).value.finalScriptWitness.value).value;
      var n := |leaf.quorum.keys|;
      && |leaf.script| >= 2 && leaf.quorum.m < 0x80
      && |stack| == n + 2 && stack[n..] == [leaf.script, leaf.controlBlock]
      && NonEmptyItems(stack[..n]) == leaf.quorum.m
      && Run(check, true, leaf.script[..|leaf.script| - 2], stack[..n]) == Some([NumberBytes(leaf.quorum.m)])
  {
    hide ReadLeaf, SigSlots, UtxoData, LeafVerifies, Run, DecodeWitnessStack, StackBytes, StackFits, ExtractTapscript;
    var i := p.inputs[index];
    assert FinalInput(c, p, index) == TapFinal(c, i, index, utxo) by { ShapesDisjoint(utxo.script); }
    TapFinalOf(c, i, index, utxo);
    var leaf := ReadLeaf(c, i, utxo).value;
    var slots := SigSlots(leaf.quorum.keys, leaf.hash, i.tapScriptSigs, leaf.quorum.m, index).value;
    SlotsOfFinalizer(check, leaf.quorum.keys, leaf.hash, i.tapScriptSigs, leaf.quorum.m, index);
    TapscriptFacts(leaf.script);
    WitnessFits(leaf.script, leaf.controlBlock, slots);
    DecodeWitnessStackOfBytes(TapscriptWitness(leaf.script, leaf.controlBlock, slots));
    RunTapBody(check, leaf.quorum.keys, slots);
    FilledItems(check, leaf.quorum.keys, slots);
  }
}
