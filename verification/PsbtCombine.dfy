/** The Combiner: merging two containers of one transaction is the union of
    their wire maps. */
module PsbtCombine {
  import opened Bytes
  import opened Wire
  import opened KeyMaps
  import opened Transactions
  import opened Psbts
  import opened PsbtCodec
  import opened PsbtRoundTrip

  // ------------------------------------------------------------------- merging

  function MergeField<T(==)>(a: Option<T>, b: Option<T>): Result<Option<T>, Error> {
    if a.None? then Ok(b)
    else if b.None? then Ok(a)
    else if a == b then Ok(a)
    else Err(ConflictingField)
  }

  function MergeUnknown(a: seq<Pair>, b: seq<Pair>): Result<seq<Pair>, Error> {
    match Merge(a, b)
    case Some(m) => Ok(m)
    case None => Err(ConflictingField)
  }

  function MergeKeyed(a: seq<Pair>, b: seq<Pair>): Result<seq<Pair>, Error> {
    var m :- MergeUnknown(a, b);
    Ok(Sort(m))
  }

  function MergeInput(a: Input, b: Input): Result<Input, Error> {
    var partialSigs :- MergeKeyed(a.partialSigs, b.partialSigs);
    var tapScriptSigs :- MergeKeyed(a.tapScriptSigs, b.tapScriptSigs);
    var tapLeafScripts :- MergeKeyed(a.tapLeafScripts, b.tapLeafScripts);
    var nonWitnessUtxo :- MergeField(a.nonWitnessUtxo, b.nonWitnessUtxo);
    var witnessUtxo :- MergeField(a.witnessUtxo, b.witnessUtxo);
    var sighashType :- MergeField(a.sighashType, b.sighashType);
    var redeemScript :- MergeField(a.redeemScript, b.redeemScript);
    var witnessScript :- MergeField(a.witnessScript, b.witnessScript);
    var finalScriptSig :- MergeField(a.finalScriptSig, b.finalScriptSig);
    var finalScriptWitness :- MergeField(a.finalScriptWitness, b.finalScriptWitness);
    var tapInternalKey :- MergeField(a.tapInternalKey, b.tapInternalKey);
    var tapMerkleRoot :- MergeField(a.tapMerkleRoot, b.tapMerkleRoot);
    var unknown :- MergeUnknown(a.unknown, b.unknown);
    Ok(Input(nonWitnessUtxo, witnessUtxo, partialSigs, sighashType, redeemScript, witnessScript,
             finalScriptSig, finalScriptWitness, tapScriptSigs, tapLeafScripts, tapInternalKey, tapMerkleRoot,
             unknown))
  }

  /** Merge item by item; the shorter list decides the length. */
  function MergeAll<T>(merge: (T, T) -> Result<T, Error>, a: seq<T>, b: seq<T>): Result<seq<T>, Error> {
    if a == [] || b == [] then Ok([])
    else
      var x :- merge(a[0], b[0]);
      var xs :- MergeAll(merge, a[1..], b[1..]);
      Ok([x] + xs)
  }

  function Combine(p: Psbt, q: Psbt): Result<Psbt, Error> {
    if Stripped(p.unsignedTx) != Stripped(q.unsignedTx) then Err(ForeignTransaction)
    else
      var unknownGlobal :- MergeUnknown(p.unknownGlobal, q.unknownGlobal);
      var inputs :- MergeAll(MergeInput, p.inputs, q.inputs);
      var outputs :- MergeAll(MergeUnknown, p.outputs, q.outputs);
      Ok(Psbt(p.version, p.unsignedTx, inputs, outputs, unknownGlobal))
  }

  // ----------------------------------------------------- one field type at a time

  function FieldMap(i: Input, t: byte): map<bytes, bytes> { ToMap(ListOf(i, t)) }

  function InputMap(i: Input): map<bytes, bytes> { ToMap(InputPairs(i)) }

  function MergedSingle<T>(r: Result<Option<T>, Error>, value: Option<T> -> Option<bytes>): Option<seq<Pair>> {
    match r
    case Ok(v) => Some(Single(value(v)))
    case Err(_) => None
  }

  function MergedKeyed(a: seq<Pair>, b: seq<Pair>): Option<seq<Pair>> {
    match MergeKeyed(a, b)
    case Ok(m) => Some(m)
    case Err(_) => None
  }

  function Raw(v: Option<bytes>): Option<bytes> { v }

  /** What merging makes of the entries of type `t`. */
  function MergedList(a: Input, b: Input, t: byte): Option<seq<Pair>> {
    if t == T_NON_WITNESS_UTXO then MergedSingle(MergeField(a.nonWitnessUtxo, b.nonWitnessUtxo), TxValue)
    else if t == T_WITNESS_UTXO then MergedSingle(MergeField(a.witnessUtxo, b.witnessUtxo), OutValue)
    else if t == T_PARTIAL_SIG then MergedKeyed(a.partialSigs, b.partialSigs)
    else if t == T_SIGHASH_TYPE then MergedSingle(MergeField(a.sighashType, b.sighashType), NumberValue)
    else if t == T_REDEEM_SCRIPT then MergedSingle(MergeField(a.redeemScript, b.redeemScript), Raw)
    else if t == T_WITNESS_SCRIPT then MergedSingle(MergeField(a.witnessScript, b.witnessScript), Raw)
    else if t == T_TAP_SCRIPT_SIG then MergedKeyed(a.tapScriptSigs, b.tapScriptSigs)
    else if t == T_TAP_LEAF_SCRIPT then MergedKeyed(a.tapLeafScripts, b.tapLeafScripts)
    else if t == T_TAP_INTERNAL_KEY then MergedSingle(MergeField(a.tapInternalKey, b.tapInternalKey), Raw)
    else if t == T_TAP_MERKLE_ROOT then MergedSingle(MergeField(a.tapMerkleRoot, b.tapMerkleRoot), Raw)
    else if t == T_FINAL_SCRIPTSIG then MergedSingle(MergeField(a.finalScriptSig, b.finalScriptSig), NonEmpty)
    else if t == T_FINAL_SCRIPTWITNESS then
      MergedSingle(MergeField(a.finalScriptWitness, b.finalScriptWitness), NonEmpty)
    else Some([])
  }

  ghost predicate MergesAsUnion(m: Option<seq<Pair>>, a: seq<Pair>, b: seq<Pair>) {
    && (m.Some? <==> Compatible(ToMap(a), ToMap(b)))
    && (m.Some? ==> Distinct(m.value) && ToMap(m.value) == ToMap(a) + ToMap(b))
  }

  lemma KeyedMergesAsUnion(a: seq<Pair>, b: seq<Pair>)
    requires Distinct(a) && Distinct(b)
    ensures MergesAsUnion(MergedKeyed(a, b), a, b)
  {
    MergeIsUnion(a, b);
    if Merge(a, b).Some? { SortCorrect(Merge(a, b).value); }
  }

  lemma ToMapOfSingle(v: Option<bytes>)
    ensures ToMap(Single(v)) == if v.None? then map[] else map[[] := v.value]
  {
    if v.Some? { assert Single(v)[..0] == []; }
  }

  /** Not both present with different values. */
  predicate Agree<T(==)>(a: Option<T>, b: Option<T>) { a.Some? && b.Some? ==> a == b }

  lemma SingleMergesAsUnion<T>(a: Option<T>, b: Option<T>, value: Option<T> -> Option<bytes>)
    requires value(a).None? <==> a.None?
    requires value(b).None? <==> b.None?
    requires value(a) == value(b) ==> a == b
    ensures MergesAsUnion(MergedSingle(MergeField(a, b), value), Single(value(a)), Single(value(b)))
  {
    ToMapOfSingle(value(a));
    ToMapOfSingle(value(b));
    var ma, mb := ToMap(Single(value(a))), ToMap(Single(value(b)));
    if a.None? {
      assert ma + mb == mb;
    } else if b.None? {
      assert ma + mb == ma;
    } else {
      assert [] in ma && [] in mb;
      assert Compatible(ma, mb) <==> ma[[]] == mb[[]];
      if a == b { assert ma + mb == ma; }
    }
  }

  lemma FinalMergesAsUnion(a: Option<bytes>, b: Option<bytes>)
    requires Agree(a, b)
    ensures MergesAsUnion(MergedSingle(MergeField(a, b), NonEmpty), Single(NonEmpty(a)), Single(NonEmpty(b)))
  {
    ToMapOfSingle(NonEmpty(a));
    ToMapOfSingle(NonEmpty(b));
    var ma, mb := ToMap(Single(NonEmpty(a))), ToMap(Single(NonEmpty(b)));
    if NonEmpty(a).None? { assert ma + mb == mb; } else { assert ma + mb == ma; }
  }

  lemma PlainValuesInjective(a: Input, b: Input)
    requires InputWellFormed(a) && InputWellFormed(b)
    ensures OutValue(a.witnessUtxo) == OutValue(b.witnessUtxo) ==> a.witnessUtxo == b.witnessUtxo
    ensures NumberValue(a.sighashType) == NumberValue(b.sighashType) ==> a.sighashType == b.sighashType
  {
    EncodedFields(a);
    EncodedFields(b);
  }

  // --------------------------------------------------- what the wire does not show

  /** The three fields whose wire form may hide a difference: a final field that is
      present but empty is left out, and two previous transactions may share their
      bytes when one has the ambiguous shape. */
  datatype Hidden = Hidden(prev: Option<Tx>, scriptSig: Option<bytes>, stack: Option<bytes>)

  function HiddenOf(i: Input): Hidden { Hidden(i.nonWitnessUtxo, i.finalScriptSig, i.finalScriptWitness) }

  predicate AgreeHidden(a: Hidden, b: Hidden) {
    Agree(a.prev, b.prev) && Agree(a.scriptSig, b.scriptSig) && Agree(a.stack, b.stack)
  }

  function Or<T>(a: Option<T>, b: Option<T>): Option<T> { if a.None? then b else a }

  function JoinHidden(a: Hidden, b: Hidden): Hidden {
    Hidden(Or(a.prev, b.prev), Or(a.scriptSig, b.scriptSig), Or(a.stack, b.stack))
  }

  lemma MergedHidden(a: Input, b: Input)
    ensures MergeInput(a, b).Ok? ==>
      AgreeHidden(HiddenOf(a), HiddenOf(b)) && HiddenOf(MergeInput(a, b).value) == JoinHidden(HiddenOf(a), HiddenOf(b))
  {
    hide Merge, Sort;
  }

  lemma ListMergesAsUnion(a: Input, b: Input, t: byte)
    requires InputWellFormed(a) && InputWellFormed(b) && AgreeHidden(HiddenOf(a), HiddenOf(b))
    requires t in TYPED
    ensures MergesAsUnion(MergedList(a, b, t), ListOf(a, t), ListOf(b, t))
  {
    hide MergesAsUnion, MergeField, MergedSingle, MergedKeyed, WireBytes, OutBytes, Single;
    PlainValuesInjective(a, b);
    if t == T_NON_WITNESS_UTXO {
      SingleMergesAsUnion(a.nonWitnessUtxo, b.nonWitnessUtxo, TxValue);
    } else if t == T_WITNESS_UTXO {
      SingleMergesAsUnion(a.witnessUtxo, b.witnessUtxo, OutValue);
    } else if t == T_PARTIAL_SIG {
      KeyedMergesAsUnion(a.partialSigs, b.partialSigs);
    } else if t == T_SIGHASH_TYPE {
      SingleMergesAsUnion(a.sighashType, b.sighashType, NumberValue);
    } else if t == T_REDEEM_SCRIPT {
      SingleMergesAsUnion(a.redeemScript, b.redeemScript, Raw);
    } else if t == T_WITNESS_SCRIPT {
      SingleMergesAsUnion(a.witnessScript, b.witnessScript, Raw);
    } else if t == T_TAP_SCRIPT_SIG {
      KeyedMergesAsUnion(a.tapScriptSigs, b.tapScriptSigs);
    } else if t == T_TAP_LEAF_SCRIPT {
      KeyedMergesAsUnion(a.tapLeafScripts, b.tapLeafScripts);
    } else if t == T_TAP_INTERNAL_KEY {
      SingleMergesAsUnion(a.tapInternalKey, b.tapInternalKey, Raw);
    } else if t == T_TAP_MERKLE_ROOT {
      SingleMergesAsUnion(a.tapMerkleRoot, b.tapMerkleRoot, Raw);
    } else if t == T_FINAL_SCRIPTSIG {
      FinalMergesAsUnion(a.finalScriptSig, b.finalScriptSig);
    } else {
      FinalMergesAsUnion(a.finalScriptWitness, b.finalScriptWitness);
    }
  }

  lemma MergedInputLists(a: Input, b: Input)
    requires MergeInput(a, b).Ok?
    ensures forall t :: t in TYPED ==> MergedList(a, b, t) == Some(ListOf(MergeInput(a, b).value, t))
    ensures Some(MergeInput(a, b).value.unknown) == Merge(a.unknown, b.unknown)
  {
    hide MergeField, MergeKeyed, WireBytes, OutBytes, Single;
  }

  /** A conflict in an input is a conflict in one of its fields. */
  lemma InputMergesByType(a: Input, b: Input)
    requires forall t :: t in TYPED ==> MergedList(a, b, t).Some?
    requires Merge(a.unknown, b.unknown).Some?
    ensures MergeInput(a, b).Ok?
  {
    KeyedMergesByType(a, b);
    SingleMergesByType(a, b);
    TapMergesByType(a, b);
    ScriptMergesByType(a, b);
    hide MergeField, MergeKeyed, MergedList;
  }

  lemma KeyedMergesByType(a: Input, b: Input)
    requires forall t :: t in TYPED ==> MergedList(a, b, t).Some?
    ensures MergeKeyed(a.partialSigs, b.partialSigs).Ok? && MergeKeyed(a.tapScriptSigs, b.tapScriptSigs).Ok?
    ensures MergeKeyed(a.tapLeafScripts, b.tapLeafScripts).Ok?
  {
    hide MergeField, MergeKeyed;
    assert MergedList(a, b, T_PARTIAL_SIG).Some? && MergedList(a, b, T_TAP_SCRIPT_SIG).Some?;
    assert MergedList(a, b, T_TAP_LEAF_SCRIPT).Some?;
  }

  lemma SingleMergesByType(a: Input, b: Input)
    requires forall t :: t in TYPED ==> MergedList(a, b, t).Some?
    ensures MergeField(a.nonWitnessUtxo, b.nonWitnessUtxo).Ok? && MergeField(a.witnessUtxo, b.witnessUtxo).Ok?
    ensures MergeField(a.sighashType, b.sighashType).Ok?
  {
    hide MergeField, MergeKeyed;
    assert MergedList(a, b, T_NON_WITNESS_UTXO).Some? && MergedList(a, b, T_WITNESS_UTXO).Some?;
    assert MergedList(a, b, T_SIGHASH_TYPE).Some?;
  }

  lemma TapMergesByType(a: Input, b: Input)
    requires forall t :: t in TYPED ==> MergedList(a, b, t).Some?
    ensures MergeField(a.tapInternalKey, b.tapInternalKey).Ok? && MergeField(a.tapMerkleRoot, b.tapMerkleRoot).Ok?
  {
    hide MergeField, MergeKeyed;
    assert MergedList(a, b, T_TAP_INTERNAL_KEY).Some? && MergedList(a, b, T_TAP_MERKLE_ROOT).Some?;
  }

  lemma ScriptMergesByType(a: Input, b: Input)
    requires forall t :: t in TYPED ==> MergedList(a, b, t).Some?
    ensures MergeField(a.redeemScript, b.redeemScript).Ok? && MergeField(a.witnessScript, b.witnessScript).Ok?
    ensures MergeField(a.finalScriptSig, b.finalScriptSig).Ok?
    ensures MergeField(a.finalScriptWitness, b.finalScriptWitness).Ok?
  {
    hide MergeField, MergeKeyed;
    assert MergedList(a, b, T_REDEEM_SCRIPT).Some? && MergedList(a, b, T_WITNESS_SCRIPT).Some?;
    assert MergedList(a, b, T_FINAL_SCRIPTSIG).Some? && MergedList(a, b, T_FINAL_SCRIPTWITNESS).Some?;
  }

  // ------------------------------------------------------------- whole input maps

  predicate TypedKey(k: bytes) { k != [] && k[0] in TYPED }

  lemma InputMapEntry(i: Input, k: bytes)
    requires InputWellFormed(i)
    ensures TypedKey(k) ==> (k in InputMap(i) <==> k[1..] in FieldMap(i, k[0]))
    ensures TypedKey(k) && k in InputMap(i) ==> InputMap(i)[k] == FieldMap(i, k[0])[k[1..]]
    ensures !TypedKey(k) ==> (k in InputMap(i) <==> k in ToMap(i.unknown))
    ensures !TypedKey(k) && k in InputMap(i) ==> InputMap(i)[k] == ToMap(i.unknown)[k]
  {
    hide ListOf, TypedPairs;
    InputPairsDistinct(i);
    var typed := TypedPairs(i, TYPED);
    ToMapConcat(typed, i.unknown);
    ToMapMember(typed);
    ToMapMember(i.unknown);
    if TypedKey(k) {
      ListsDistinct(i);
      ToMapMember(ListOf(i, k[0]));
      if k in ToMap(i.unknown) { UnknownKeyUntyped(i, k); }
      if k in ToMap(typed) {
        TypedPairsMember(i, TYPED, Pair(k, ToMap(typed)[k]));
      }
      if k[1..] in FieldMap(i, k[0]) {
        TypedPairsMember(i, TYPED, Pair(k, FieldMap(i, k[0])[k[1..]]));
      }
    } else if k in ToMap(typed) {
      TypedPairsMember(i, TYPED, Pair(k, ToMap(typed)[k]));
    }
  }

  ghost predicate FieldsCompatible(a: Input, b: Input) {
    && (forall t :: t in TYPED ==> Compatible(FieldMap(a, t), FieldMap(b, t)))
    && Compatible(ToMap(a.unknown), ToMap(b.unknown))
  }

  lemma CompatibleByType(a: Input, b: Input)
    requires InputWellFormed(a) && InputWellFormed(b)
    ensures Compatible(InputMap(a), InputMap(b)) <==> FieldsCompatible(a, b)
  {
    hide InputMap, FieldMap;
    if Compatible(InputMap(a), InputMap(b)) {
      forall t, k | t in TYPED && k in FieldMap(a, t) && k in FieldMap(b, t)
        ensures FieldMap(a, t)[k] == FieldMap(b, t)[k]
      {
        assert ([t] + k)[1..] == k;
        InputMapEntry(a, [t] + k);
        InputMapEntry(b, [t] + k);
      }
      forall k | k in ToMap(a.unknown) && k in ToMap(b.unknown)
        ensures ToMap(a.unknown)[k] == ToMap(b.unknown)[k]
      {
        UnknownKeyUntyped(a, k);
        InputMapEntry(a, k);
        InputMapEntry(b, k);
      }
    }
    if FieldsCompatible(a, b) {
      forall k | k in InputMap(a) && k in InputMap(b)
        ensures InputMap(a)[k] == InputMap(b)[k]
      {
        InputMapEntry(a, k);
        InputMapEntry(b, k);
      }
    }
  }

  lemma UnknownKeyUntyped(i: Input, k: bytes)
    requires InputWellFormed(i) && k in ToMap(i.unknown)
    ensures !TypedKey(k)
  {
    ToMapMember(i.unknown);
    assert UnknownOk(Pair(k, ToMap(i.unknown)[k]));
  }

  lemma UnionByType(a: Input, b: Input, c: Input)
    requires InputWellFormed(a) && InputWellFormed(b) && InputWellFormed(c)
    requires forall t :: t in TYPED ==> FieldMap(c, t) == FieldMap(a, t) + FieldMap(b, t)
    requires ToMap(c.unknown) == ToMap(a.unknown) + ToMap(b.unknown)
    ensures InputMap(c) == InputMap(a) + InputMap(b)
  {
    hide InputMap, FieldMap;
    forall k
      ensures k in InputMap(c) <==> k in InputMap(a) || k in InputMap(b)
      ensures k in InputMap(c) ==> InputMap(c)[k] == (InputMap(a) + InputMap(b))[k]
    {
      InputMapEntry(a, k);
      InputMapEntry(b, k);
      InputMapEntry(c, k);
      if TypedKey(k) {
        assert FieldMap(c, k[0]) == FieldMap(a, k[0]) + FieldMap(b, k[0]);
      }
    }
  }

  // ------------------------------------------------- merged inputs stay well formed

  /** A merged list holds only entries of the two lists. */
  lemma {:induction false} MergeEntries(a: seq<Pair>, b: seq<Pair>, p: Pair)
    requires Merge(a, b).Some? && p in Merge(a, b).value
    ensures p in a || p in b
    decreases |b|
  {
    if b != [] {
      assert b == [b[0]] + b[1..];
      MergeEntries(if Find(a, b[0].key).None? then a + [b[0]] else a, b[1..], p);
    }
  }

  lemma KeyedMergeEntries(a: seq<Pair>, b: seq<Pair>)
    requires Distinct(a) && Distinct(b) && MergeKeyed(a, b).Ok?
    ensures Distinct(MergeKeyed(a, b).value) && Sorted(MergeKeyed(a, b).value)
    ensures forall p :: p in MergeKeyed(a, b).value ==> p in a || p in b
  {
    var m := Merge(a, b).value;
    MergeIsUnion(a, b);
    SortCorrect(m);
    forall p | p in m
      ensures p in a || p in b
    {
      MergeEntries(a, b, p);
    }
  }

  /** Every single field of a merged input is that of one of the two. */
  predicate SinglesFromEither(a: Input, b: Input, m: Input) {
    && (m.nonWitnessUtxo == a.nonWitnessUtxo || m.nonWitnessUtxo == b.nonWitnessUtxo)
    && (m.witnessUtxo == a.witnessUtxo || m.witnessUtxo == b.witnessUtxo)
    && (m.sighashType == a.sighashType || m.sighashType == b.sighashType)
    && (m.redeemScript == a.redeemScript || m.redeemScript == b.redeemScript)
    && (m.witnessScript == a.witnessScript || m.witnessScript == b.witnessScript)
    && (m.tapInternalKey == a.tapInternalKey || m.tapInternalKey == b.tapInternalKey)
    && (m.tapMerkleRoot == a.tapMerkleRoot || m.tapMerkleRoot == b.tapMerkleRoot)
    && (m.finalScriptSig == a.finalScriptSig || m.finalScriptSig == b.finalScriptSig)
    && (m.finalScriptWitness == a.finalScriptWitness || m.finalScriptWitness == b.finalScriptWitness)
  }

  lemma MergedSingles(a: Input, b: Input)
    requires MergeInput(a, b).Ok?
    ensures SinglesFromEither(a, b, MergeInput(a, b).value)
  {
    hide Merge, Sort;
  }

  lemma MergedLists(a: Input, b: Input)
    requires MergeInput(a, b).Ok?
    ensures var m := MergeInput(a, b).value;
      && MergeKeyed(a.partialSigs, b.partialSigs) == Ok(m.partialSigs)
      && MergeKeyed(a.tapScriptSigs, b.tapScriptSigs) == Ok(m.tapScriptSigs)
      && MergeKeyed(a.tapLeafScripts, b.tapLeafScripts) == Ok(m.tapLeafScripts)
      && Merge(a.unknown, b.unknown) == Some(m.unknown)
  {
    hide Merge, Sort, MergeField;
  }

  lemma MergedInputWellFormed(a: Input, b: Input)
    requires InputWellFormed(a) && InputWellFormed(b) && MergeInput(a, b).Ok?
    ensures InputWellFormed(MergeInput(a, b).value)
    ensures Faithful(a) && Faithful(b) ==> Faithful(MergeInput(a, b).value)
  {
    hide Merge, Sort, MergeKeyed, MergeInput, TxFits, OutFits, UnknownOk, Sorted;
    MergedSingles(a, b);
    MergedLists(a, b);
    KeyedMergeEntries(a.partialSigs, b.partialSigs);
    KeyedMergeEntries(a.tapScriptSigs, b.tapScriptSigs);
    KeyedMergeEntries(a.tapLeafScripts, b.tapLeafScripts);
    MergeIsUnion(a.unknown, b.unknown);
    forall p | p in Merge(a.unknown, b.unknown).value
      ensures UnknownOk(p)
    {
      MergeEntries(a.unknown, b.unknown, p);
    }
  }

  /** Merging two inputs succeeds exactly when no key of their wire maps has two values
      and nothing the wire does not show differs; the wire map of the result is then the
      union. */
  lemma MergeInputIsUnion(a: Input, b: Input)
    requires InputWellFormed(a) && InputWellFormed(b)
    ensures MergeInput(a, b).Ok? <==> Compatible(InputMap(a), InputMap(b)) && AgreeHidden(HiddenOf(a), HiddenOf(b))
    ensures MergeInput(a, b).Ok? ==>
      && InputWellFormed(MergeInput(a, b).value) && InputMap(MergeInput(a, b).value) == InputMap(a) + InputMap(b)
      && HiddenOf(MergeInput(a, b).value) == JoinHidden(HiddenOf(a), HiddenOf(b))
      && (Faithful(a) && Faithful(b) ==> Faithful(MergeInput(a, b).value))
  {
    MergedHidden(a, b);
    hide MergedList, MergeInput, InputMap, ListOf, ToMap, InputWellFormed, Faithful, AgreeHidden, JoinHidden, HiddenOf;
    if AgreeHidden(HiddenOf(a), HiddenOf(b)) {
      forall t | t in TYPED
        ensures MergesAsUnion(MergedList(a, b, t), ListOf(a, t), ListOf(b, t))
      {
        ListMergesAsUnion(a, b, t);
      }
      UnknownMerges(a, b);
      CompatibleByType(a, b);
      if MergeInput(a, b).Ok? {
        MergedInputLists(a, b);
        MergedInputWellFormed(a, b);
        UnionByType(a, b, MergeInput(a, b).value);
      } else if FieldsCompatible(a, b) {
        InputMergesByType(a, b);
      }
    }
  }

  lemma SinglesDecide(a: Option<bytes>, b: Option<bytes>)
    requires Compatible(ToMap(Single(a)), ToMap(Single(b)))
    ensures Agree(a, b)
  {
    ToMapOfSingle(a);
    ToMapOfSingle(b);
    assert a.Some? && b.Some? ==> [] in ToMap(Single(a)) && [] in ToMap(Single(b));
  }

  lemma HiddenFieldMaps(i: Input)
    ensures FieldMap(i, T_NON_WITNESS_UTXO) == ToMap(Single(TxValue(i.nonWitnessUtxo)))
    ensures FieldMap(i, T_FINAL_SCRIPTSIG) == ToMap(Single(NonEmpty(i.finalScriptSig)))
    ensures FieldMap(i, T_FINAL_SCRIPTWITNESS) == ToMap(Single(NonEmpty(i.finalScriptWitness)))
  {}

  lemma CarriedTxInjective(a: Input, b: Input)
    requires InputWellFormed(a) && InputWellFormed(b) && Faithful(a) && Faithful(b)
    ensures TxValue(a.nonWitnessUtxo) == TxValue(b.nonWitnessUtxo) ==> a.nonWitnessUtxo == b.nonWitnessUtxo
  {
    EncodedFields(a);
    EncodedFields(b);
    hide DecodeTx, WireBytes;
  }

  /** For inputs the encoding can carry the wire shows everything. */
  lemma CarriedShowsAll(a: Input, b: Input)
    requires InputWellFormed(a) && InputWellFormed(b) && Faithful(a) && Faithful(b)
    requires Compatible(InputMap(a), InputMap(b))
    ensures AgreeHidden(HiddenOf(a), HiddenOf(b))
  {
    hide InputMap, FieldMap, ListOf, InputWellFormed, ToMap, Compatible, WireBytes;
    CompatibleByType(a, b);
    HiddenFieldMaps(a);
    HiddenFieldMaps(b);
    CarriedTxInjective(a, b);
    SinglesDecide(TxValue(a.nonWitnessUtxo), TxValue(b.nonWitnessUtxo));
    SinglesDecide(NonEmpty(a.finalScriptSig), NonEmpty(b.finalScriptSig));
    SinglesDecide(NonEmpty(a.finalScriptWitness), NonEmpty(b.finalScriptWitness));
  }

  /** The wire maps do not decide for inputs the encoding cannot carry: a present but
      empty final field is on no wire map and still conflicts. */
  lemma EmptyFinalFieldConflicts(script: bytes)
    requires script != []
    ensures var a, b := EMPTY_INPUT.(finalScriptSig := Some([])), EMPTY_INPUT.(finalScriptSig := Some(script));
      Compatible(InputMap(a), InputMap(b)) && MergeInput(a, b).Err?
  {
    var a := EMPTY_INPUT.(finalScriptSig := Some([]));
    forall t | t in TYPED
      ensures ListOf(a, t) == []
    {}
    NoTypedPairs(a, TYPED);
    assert InputPairs(a) == [];
    assert ToMap([]) == map[];
  }

  lemma UnknownMerges(a: Input, b: Input)
    requires InputWellFormed(a) && InputWellFormed(b)
    ensures MergesAsUnion(Merge(a.unknown, b.unknown), a.unknown, b.unknown)
  {
    MergeIsUnion(a.unknown, b.unknown);
  }

  // ---------------------------------------------------------- whole containers

  /** A container as it is on the wire: the transaction and one map after another. */
  datatype WireMaps = WireMaps(
    tx: bytes, global: map<bytes, bytes>, inputs: seq<map<bytes, bytes>>, outputs: seq<map<bytes, bytes>>)

  function MapsOf(p: Psbt): WireMaps {
    WireMaps(Stripped(p.unsignedTx), ToMap(p.unknownGlobal), MapSeq(InputMap, p.inputs), MapSeq(ToMap, p.outputs))
  }

  ghost predicate CompatibleSeq(a: seq<map<bytes, bytes>>, b: seq<map<bytes, bytes>>) {
    |a| == |b| && forall i :: 0 <= i < |a| ==> Compatible(a[i], b[i])
  }

  function UnionSeq(a: seq<map<bytes, bytes>>, b: seq<map<bytes, bytes>>): (r: seq<map<bytes, bytes>>)
    requires |a| == |b|
    ensures |r| == |a| && forall i :: 0 <= i < |a| ==> r[i] == a[i] + b[i]
  {
    seq(|a|, i requires 0 <= i < |a| => a[i] + b[i])
  }

  /** Nothing that the wire does not show differs. */
  predicate HiddenAgree(p: Psbt, q: Psbt) {
    |p.inputs| == |q.inputs|
    && forall i :: 0 <= i < |p.inputs| ==> AgreeHidden(HiddenOf(p.inputs[i]), HiddenOf(q.inputs[i]))
  }

  /** The same transaction, and no key anywhere with two values. */
  ghost predicate CompatibleMaps(a: WireMaps, b: WireMaps) {
    && a.tx == b.tx && Compatible(a.global, b.global)
    && CompatibleSeq(a.inputs, b.inputs) && CompatibleSeq(a.outputs, b.outputs)
  }

  ghost function UnionMaps(a: WireMaps, b: WireMaps): WireMaps
    requires CompatibleMaps(a, b)
  {
    WireMaps(a.tx, a.global + b.global, UnionSeq(a.inputs, b.inputs), UnionSeq(a.outputs, b.outputs))
  }

  /** Containers the codec can carry. */
  ghost predicate Carried(p: Psbt) { WellFormed(p) && AllFaithful(p) }

  lemma SameTransaction(p: Psbt, q: Psbt)
    requires WellFormed(p) && WellFormed(q)
    requires Stripped(p.unsignedTx) == Stripped(q.unsignedTx)
    ensures p.unsignedTx == q.unsignedTx
    ensures |p.inputs| == |q.inputs| && |p.outputs| == |q.outputs|
  {
    ParseOfUnsigned(p.unsignedTx);
    ParseOfUnsigned(q.unsignedTx);
  }

  /** Merging lists item by item. */
  lemma {:induction false} MergeAllEach<T>(merge: (T, T) -> Result<T, Error>, a: seq<T>, b: seq<T>)
    requires |a| == |b|
    ensures MergeAll(merge, a, b).Ok? <==> forall i :: 0 <= i < |a| ==> merge(a[i], b[i]).Ok?
    ensures MergeAll(merge, a, b).Ok? ==>
      var c := MergeAll(merge, a, b).value; |c| == |a| && forall i :: 0 <= i < |a| ==> merge(a[i], b[i]) == Ok(c[i])
  {
    if a != [] {
      MergeAllEach(merge, a[1..], b[1..]);
      assert forall i :: 0 < i < |a| ==> a[i] == a[1..][i - 1] && b[i] == b[1..][i - 1];
      if forall i :: 0 <= i < |a| ==> merge(a[i], b[i]).Ok? {
        assert forall i :: 0 <= i < |a| - 1 ==> merge(a[1..][i], b[1..][i]).Ok?;
      }
    }
  }
}
