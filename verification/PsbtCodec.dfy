/** The PSBT codec: what an input map decodes to, and the round trip of parsing
    and serializing. */
module PsbtCodec {
  import opened Bytes
  import opened KeyMaps
  import opened Transactions
  import opened Psbts

  // -------------------------------------------------------- what a map decodes to

  /** The entries of type `t`, without the type, in map order. */
  function TypeList(ps: seq<Pair>, t: byte): seq<Pair> {
    if ps == [] then []
    else
      var last := ps[|ps| - 1];
      TypeList(ps[..|ps| - 1], t) + (if HasType(t, last) then [Pair(last.key[1..], last.value)] else [])
  }

  function LastValue(ps: seq<Pair>): Option<bytes> {
    if ps == [] then None else Some(ps[|ps| - 1].value)
  }

  function DecodeTx(v: Option<bytes>): Option<Tx> {
    if v.None? then None
    else match ParseTx(v.value, true)
      case Ok(tx) => Some(tx)
      case Err(_) => None
  }

  function DecodeOut(v: Option<bytes>): Option<TxOut> {
    if v.None? then None
    else match ParseWitnessUtxo(v.value)
      case Ok(o) => Some(o)
      case Err(_) => None
  }

  function DecodeNumber(v: Option<bytes>): Option<u32> {
    if v.None? || |v.value| != 4 then None else Some(Number32(v.value))
  }

  /** An input from the entries of each field type. */
  function FromLists(lists: byte -> seq<Pair>, unknown: seq<Pair>): Input {
    Input(
      DecodeTx(LastValue(lists(T_NON_WITNESS_UTXO))),
      DecodeOut(LastValue(lists(T_WITNESS_UTXO))),
      lists(T_PARTIAL_SIG),
      DecodeNumber(LastValue(lists(T_SIGHASH_TYPE))),
      LastValue(lists(T_REDEEM_SCRIPT)),
      LastValue(lists(T_WITNESS_SCRIPT)),
      LastValue(lists(T_FINAL_SCRIPTSIG)),
      LastValue(lists(T_FINAL_SCRIPTWITNESS)),
      lists(T_TAP_SCRIPT_SIG),
      lists(T_TAP_LEAF_SCRIPT),
      LastValue(lists(T_TAP_INTERNAL_KEY)),
      LastValue(lists(T_TAP_MERKLE_ROOT)),
      unknown)
  }

  function TypeLists(ps: seq<Pair>): byte -> seq<Pair> { (t: byte) => TypeList(ps, t) }

  function Decoded(ps: seq<Pair>): Input { FromLists(TypeLists(ps), Filter(IsUntyped, ps)) }

  lemma TypeListSnoc(front: seq<Pair>, p: Pair)
    ensures forall t ::
      TypeList(front + [p], t) == TypeList(front, t) + if HasType(t, p) then [Pair(p.key[1..], p.value)] else []
    ensures Filter(IsUntyped, front + [p]) == Filter(IsUntyped, front) + if IsUntyped(p) then [p] else []
  {
    assert (front + [p])[..|front + [p]| - 1] == front;
  }

  lemma ReadFieldType(p: Pair)
    requires ReadField(p).Ok?
    ensures p.key != []
    ensures IsUntyped(p) <==> ReadField(p).value == Unknown(p)
    ensures IsTyped(p) ==> ReadField(p) == ReadTypedField(p.key[0], p.key[1..], p)
  {
    SplitKeyFirst(p.key);
    if p.key[0] <= 0xfc {
      TypedFieldKind(p.key[0], p.key[1..], p);
      hide ReadTypedField;
    }
  }

  lemma TypedFieldKind(t: byte, keydata: bytes, p: Pair)
    requires ReadTypedField(t, keydata, p).Ok?
    ensures ReadTypedField(t, keydata, p).value == Unknown(p) <==> t !in TYPED
  {
    hide ParseTx, ParseWitnessUtxo, Number32, PubKeyLength;
  }

  /** Adding one entry to what the entries before it decode to. */
  lemma PutDecodes(front: seq<Pair>, p: Pair)
    requires ReadField(p).Ok?
    ensures Put(Decoded(front), ReadField(p).value) == Decoded(front + [p])
  {
    TypeListSnoc(front, p);
    ReadFieldType(p);
    var before, after := TypeLists(front), TypeLists(front + [p]);
    var unknown := Filter(IsUntyped, front);
    forall t
      ensures after(t) == before(t) + if HasType(t, p) then [Pair(p.key[1..], p.value)] else []
    {}
    if IsUntyped(p) {
      PutUntyped(before, after, unknown, p);
    } else {
      PutTyped(before, after, unknown, p);
      assert Filter(IsUntyped, front + [p]) == unknown;
    }
  }

  lemma PutUntyped(before: byte -> seq<Pair>, after: byte -> seq<Pair>, unknown: seq<Pair>, p: Pair)
    requires forall t :: after(t) == before(t) + if HasType(t, p) then [Pair(p.key[1..], p.value)] else []
    requires IsUntyped(p)
    ensures Put(FromLists(before, unknown), Unknown(p)) == FromLists(after, unknown + [p])
  {
    hide DecodeTx, DecodeOut, DecodeNumber, LastValue;
    forall t | t in TYPED
      ensures after(t) == before(t)
    {
      assert !HasType(t, p) && before(t) + [] == before(t);
    }
    SameTypedLists(before, after, unknown + [p]);
  }

  lemma SameTypedLists(a: byte -> seq<Pair>, b: byte -> seq<Pair>, unknown: seq<Pair>)
    requires forall t :: t in TYPED ==> a(t) == b(t)
    ensures FromLists(a, unknown) == FromLists(b, unknown)
  {
    hide DecodeTx, DecodeOut, DecodeNumber, LastValue;
  }

  /** One more entry in the list of type `t`, the other lists unchanged. */
  ghost predicate OneMore(before: byte -> seq<Pair>, after: byte -> seq<Pair>, t: byte, q: Pair) {
    after(t) == before(t) + [q] && forall u :: u != t ==> after(u) == before(u)
  }

  /** `e` is what an entry of type `t` decodes to. */
  predicate Carries(e: Entry, t: byte, q: Pair) {
    match e
    case NonWitnessUtxo(tx) => t == T_NON_WITNESS_UTXO && ParseTx(q.value, true) == Ok(tx)
    case WitnessUtxo(o) => t == T_WITNESS_UTXO && ParseWitnessUtxo(q.value) == Ok(o)
    case PartialSig(p) => t == T_PARTIAL_SIG && p == q
    case SighashType(n) => t == T_SIGHASH_TYPE && |q.value| == 4 && n == Number32(q.value)
    case RedeemScript(s) => t == T_REDEEM_SCRIPT && s == q.value
    case WitnessScript(s) => t == T_WITNESS_SCRIPT && s == q.value
    case FinalScriptSig(s) => t == T_FINAL_SCRIPTSIG && s == q.value
    case FinalScriptWitness(s) => t == T_FINAL_SCRIPTWITNESS && s == q.value
    case TapScriptSig(p) => t == T_TAP_SCRIPT_SIG && p == q
    case TapLeafScript(p) => t == T_TAP_LEAF_SCRIPT && p == q
    case TapInternalKey(k) => t == T_TAP_INTERNAL_KEY && k == q.value
    case TapMerkleRoot(r) => t == T_TAP_MERKLE_ROOT && r == q.value
    case Unknown(_) => false
  }

  lemma ReadCarries(p: Pair)
    requires IsTyped(p) && ReadTypedField(p.key[0], p.key[1..], p).Ok?
    ensures Carries(ReadTypedField(p.key[0], p.key[1..], p).value, p.key[0], Pair(p.key[1..], p.value))
  {}

  lemma PutCarried(before: byte -> seq<Pair>, after: byte -> seq<Pair>, unknown: seq<Pair>, e: Entry, t: byte, q: Pair)
    requires OneMore(before, after, t, q) && Carries(e, t, q)
    ensures Put(FromLists(before, unknown), e) == FromLists(after, unknown)
  {
    assert LastValue(after(t)) == Some(q.value);
  }

  lemma PutTyped(before: byte -> seq<Pair>, after: byte -> seq<Pair>, unknown: seq<Pair>, p: Pair)
    requires forall t :: after(t) == before(t) + if HasType(t, p) then [Pair(p.key[1..], p.value)] else []
    requires IsTyped(p) && ReadTypedField(p.key[0], p.key[1..], p).Ok?
    ensures Put(FromLists(before, unknown), ReadTypedField(p.key[0], p.key[1..], p).value)
         == FromLists(after, unknown)
  {
    var t, q := p.key[0], Pair(p.key[1..], p.value);
    assert OneMore(before, after, t, q);
    ReadCarries(p);
    PutCarried(before, after, unknown, ReadTypedField(t, q.key, p).value, t, q);
  }

  lemma DecodedNothing()
    ensures Decoded([]) == EMPTY_INPUT
  {}

  /** An input map is accepted iff each entry is, and then decodes to its entries
      grouped by type. */
  lemma {:induction false} ParseInputMapDecodes(ps: seq<Pair>)
    ensures ParseInputMap(ps).Ok? <==> forall p :: p in ps ==> ReadField(p).Ok?
    ensures ParseInputMap(ps).Ok? ==> ParseInputMap(ps).value == Decoded(ps)
  {
    hide ReadField, Put, FromLists, TypeList, Filter;
    if ps == [] {
      DecodedNothing();
    } else {
      var front, p := ps[..|ps| - 1], ps[|ps| - 1];
      assert ps == front + [p];
      ParseInputMapDecodes(front);
      if ReadField(p).Ok? { PutDecodes(front, p); }
    }
  }

  // ------------------------------------------------------ the entries of an input

  lemma {:induction false} TypedPairsMember(i: Input, types: seq<byte>, p: Pair)
    ensures p in TypedPairs(i, types)
       <==> p.key != [] && p.key[0] in types && Pair(p.key[1..], p.value) in ListOf(i, p.key[0])
  {
    if types != [] {
      TypedPairsMember(i, types[1..], p);
      WithTypeMember(types[0], ListOf(i, types[0]), p);
      assert types == [types[0]] + types[1..];
    }
  }

  lemma {:induction false} NoTypedPairs(i: Input, types: seq<byte>)
    requires forall t :: t in types ==> ListOf(i, t) == []
    ensures TypedPairs(i, types) == []
  {
    hide ListOf;
    if types != [] {
      assert types[0] in types && forall t :: t in types[1..] ==> t in types;
      NoTypedPairs(i, types[1..]);
      assert WithType(types[0], []) == [];
    }
  }

  predicate NoRepeats(types: seq<byte>) {
    forall i, j :: 0 <= i < j < |types| ==> types[i] != types[j]
  }

  lemma TypedNoRepeats()
    ensures NoRepeats(TYPED)
  {}

  lemma NoRepeatsTail(types: seq<byte>)
    requires NoRepeats(types) && types != []
    ensures NoRepeats(types[1..]) && types[0] !in types[1..]
  {}

  lemma DistinctConcat(a: seq<Pair>, b: seq<Pair>)
    requires Distinct(a) && Distinct(b)
    requires forall p, q :: p in a && q in b ==> p.key != q.key
    ensures Distinct(a + b)
  {
    forall i, j | 0 <= i < |a| && 0 <= j < |b|
      ensures a[i].key != b[j].key
    {
      assert a[i] in a && b[j] in b;
    }
  }

  lemma {:induction false} TypedPairsDistinct(i: Input, types: seq<byte>)
    requires NoRepeats(types)
    requires forall t :: t in types ==> Distinct(ListOf(i, t))
    ensures Distinct(TypedPairs(i, types))
  {
    if types != [] {
      NoRepeatsTail(types);
      var a, b := WithType(types[0], ListOf(i, types[0])), TypedPairs(i, types[1..]);
      TypedPairsDistinct(i, types[1..]);
      WithTypeDistinct(types[0], ListOf(i, types[0]));
      forall p, q | p in a && q in b
        ensures p.key != q.key
      {
        WithTypeMember(types[0], ListOf(i, types[0]), p);
        TypedPairsMember(i, types[1..], q);
      }
      DistinctConcat(a, b);
    }
  }

  /** An entry under a key that is not one of the typed fields. */
  predicate UnknownOk(p: Pair) {
    && SplitKey(p.key).Ok? && IsUntyped(p)
    && (p.key[0] == T_BIP32_DERIVATION ==> PubKeyLength(p.key[1..]))
  }

  /** Unique keys, field widths in range, and no typed key among the unknown. */
  ghost predicate InputWellFormed(i: Input) {
    && Distinct(i.partialSigs) && Distinct(i.tapScriptSigs) && Distinct(i.tapLeafScripts) && Distinct(i.unknown)
    && (forall p :: p in i.partialSigs ==> PubKeyLength(p.key))
    && (forall p :: p in i.tapScriptSigs ==> |p.key| == 64)
    && (forall p :: p in i.tapLeafScripts ==> |p.key| == 33 && p.value != [])
    && (i.tapInternalKey.Some? ==> |i.tapInternalKey.value| == 32)
    && (i.tapMerkleRoot.Some? ==> |i.tapMerkleRoot.value| == 32)
    && (i.nonWitnessUtxo.Some? ==> TxFits(i.nonWitnessUtxo.value))
    && (i.witnessUtxo.Some? ==> OutFits(i.witnessUtxo.value))
    && (forall p :: p in i.unknown ==> UnknownOk(p))
  }

  /** The two kinds of value the encoding cannot carry: a final field that is
      present but empty, and a previous transaction that starts like a marker. */
  predicate Faithful(i: Input) {
    && i.finalScriptSig != Some([]) && i.finalScriptWitness != Some([])
    && (i.nonWitnessUtxo.Some? ==> !Ambiguous(i.nonWitnessUtxo.value))
  }

  lemma ListsDistinct(i: Input)
    requires InputWellFormed(i)
    ensures forall t :: Distinct(ListOf(i, t))
  {}

  lemma InputPairsDistinct(i: Input)
    requires InputWellFormed(i)
    ensures Distinct(InputPairs(i))
  {
    ListsDistinct(i);
    TypedNoRepeats();
    TypedPairsDistinct(i, TYPED);
    forall p, q | p in TypedPairs(i, TYPED) && q in i.unknown
      ensures p.key != q.key
    {
      TypedPairsMember(i, TYPED, p);
      assert UnknownOk(q);
    }
    DistinctConcat(TypedPairs(i, TYPED), i.unknown);
  }

  // --------------------------------------------------- grouping undoes flattening

  lemma {:induction false} TypeListOfFilter(ps: seq<Pair>, t: byte)
    ensures forall p :: p in Filter(x => HasType(t, x), ps) ==> p.key != []
    ensures TypeList(ps, t) == StripType(Filter(x => HasType(t, x), ps))
  {
    FilterMembers(x => HasType(t, x), ps);
    if ps != [] {
      var front, last := ps[..|ps| - 1], ps[|ps| - 1];
      TypeListOfFilter(front, t);
      var f := x => HasType(t, x);
      assert Filter(f, ps) == Filter(f, front) + (if HasType(t, last) then [last] else []);
    }
  }

  lemma NothingFiltered(f: Pair -> bool)
    ensures Filter(f, []) == []
  {}

  lemma {:induction false} FilterTypedPairs(i: Input, types: seq<byte>, t: byte)
    requires NoRepeats(types)
    ensures Filter(x => HasType(t, x), TypedPairs(i, types))
         == if t in types then WithType(t, ListOf(i, t)) else []
  {
    hide ListOf, Filter, WithType;
    var f := x => HasType(t, x);
    if types == [] {
      NothingFiltered(f);
    } else {
      NoRepeatsTail(types);
      var a, b := WithType(types[0], ListOf(i, types[0])), TypedPairs(i, types[1..]);
      FilterConcat(f, a, b);
      FilterTypedPairs(i, types[1..], t);
      forall p | p in a
        ensures HasType(types[0], p)
      {
        WithTypeMember(types[0], ListOf(i, types[0]), p);
      }
      if t == types[0] { FilterAll(f, a); } else { FilterNone(f, a); }
      assert types == [types[0]] + types[1..];
      assert a + [] == a;
    }
  }

  lemma FilterInputPairs(i: Input, t: byte)
    requires InputWellFormed(i) && t in TYPED
    ensures Filter(x => HasType(t, x), InputPairs(i)) == WithType(t, ListOf(i, t))
  {
    var f := x => HasType(t, x);
    var typed := TypedPairs(i, TYPED);
    TypedNoRepeats();
    FilterTypedPairs(i, TYPED, t);
    FilterConcat(f, typed, i.unknown);
    FilterNone(f, i.unknown) by {
      forall p | p in i.unknown
        ensures !f(p)
      {
        assert UnknownOk(p);
      }
    }
    assert WithType(t, ListOf(i, t)) + [] == WithType(t, ListOf(i, t));
  }

  /** Sorting all entries and grouping them by type sorts each field's list. */
  lemma TypeListOfSorted(i: Input, t: byte)
    requires InputWellFormed(i) && t in TYPED
    ensures TypeList(Sort(InputPairs(i)), t) == Sort(ListOf(i, t))
  {
    var ps, f := InputPairs(i), x => HasType(t, x);
    InputPairsDistinct(i);
    ListsDistinct(i);
    TypeListOfFilter(Sort(ps), t);
    FilterSort(f, ps);
    FilterInputPairs(i, t);
    SortWithType(t, ListOf(i, t));
    StripWithType(t, Sort(ListOf(i, t)));
  }

  lemma UntypedOfSorted(i: Input)
    requires InputWellFormed(i)
    ensures Filter(IsUntyped, Sort(InputPairs(i))) == Sort(i.unknown)
  {
    hide TypedPairs, ListOf, Filter, Sort;
    InputPairsDistinct(i);
    FilterSort(IsUntyped, InputPairs(i));
    forall p | p in TypedPairs(i, TYPED)
      ensures !IsUntyped(p)
    {
      TypedPairsMember(i, TYPED, p);
    }
    assert forall p :: p in i.unknown ==> UnknownOk(p);
    FilterSecond(IsUntyped, TypedPairs(i, TYPED), i.unknown);
  }

  // ------------------------------------------------------- the input round trip

  /** The same input with each list in key order. */
  function Canonical(i: Input): Input {
    i.(partialSigs := Sort(i.partialSigs), tapScriptSigs := Sort(i.tapScriptSigs),
       tapLeafScripts := Sort(i.tapLeafScripts), unknown := Sort(i.unknown))
  }

  lemma SingleWithType(t: byte, v: bytes)
    ensures WithType(t, Single(Some(v))) == [Pair([t], v)]
  {
    assert [t] + [] == [t];
  }

  lemma SortSingle(v: Option<bytes>)
    ensures LastValue(Sort(Single(v))) == v
  {
    if v.Some? {
      assert Single(v)[..0] == [];
      assert Sort(Single(v)) == Insert(Pair([], v.value), []);
    }
  }

  lemma DecodeOutOfBytes(o: TxOut)
    requires OutFits(o)
    ensures DecodeOut(Some(OutBytes(o))) == Some(o)
    ensures ParseWitnessUtxo(OutBytes(o)) == Ok(o)
  {
    ReadOutOfBytes(o, []);
    assert OutBytes(o) + [] == OutBytes(o);
  }

  lemma DecodeNumberOfLE(n: u32)
    ensures DecodeNumber(Some(LE(n, 4))) == Some(n)
  {
    Pow256Values();
    FromLEOfLE(n, 4);
  }

  /** The lists of an input, each in key order. */
  ghost predicate SortsListsOf(i: Input, lists: byte -> seq<Pair>) {
    forall t :: t in TYPED ==> lists(t) == Sort(ListOf(i, t))
  }

  lemma SingleField(i: Input, lists: byte -> seq<Pair>, t: byte, v: Option<bytes>)
    requires SortsListsOf(i, lists) && t in TYPED && ListOf(i, t) == Single(v)
    ensures LastValue(lists(t)) == v
  {
    SortSingle(v);
  }

  lemma EncodedSingleFields(i: Input, lists: byte -> seq<Pair>, unknown: seq<Pair>)
    requires SortsListsOf(i, lists)
    ensures FromLists(lists, unknown).nonWitnessUtxo == DecodeTx(TxValue(i.nonWitnessUtxo))
    ensures FromLists(lists, unknown).witnessUtxo == DecodeOut(OutValue(i.witnessUtxo))
    ensures FromLists(lists, unknown).sighashType == DecodeNumber(NumberValue(i.sighashType))
  {
    SingleField(i, lists, T_NON_WITNESS_UTXO, TxValue(i.nonWitnessUtxo));
    SingleField(i, lists, T_WITNESS_UTXO, OutValue(i.witnessUtxo));
    SingleField(i, lists, T_SIGHASH_TYPE, NumberValue(i.sighashType));
  }

  lemma RawSingleFields(i: Input, lists: byte -> seq<Pair>)
    requires SortsListsOf(i, lists)
    ensures LastValue(lists(T_REDEEM_SCRIPT)) == i.redeemScript
    ensures LastValue(lists(T_WITNESS_SCRIPT)) == i.witnessScript
    ensures LastValue(lists(T_TAP_INTERNAL_KEY)) == i.tapInternalKey
    ensures LastValue(lists(T_TAP_MERKLE_ROOT)) == i.tapMerkleRoot
    ensures LastValue(lists(T_FINAL_SCRIPTSIG)) == NonEmpty(i.finalScriptSig)
    ensures LastValue(lists(T_FINAL_SCRIPTWITNESS)) == NonEmpty(i.finalScriptWitness)
  {
    SingleField(i, lists, T_REDEEM_SCRIPT, i.redeemScript);
    SingleField(i, lists, T_WITNESS_SCRIPT, i.witnessScript);
    SingleField(i, lists, T_TAP_INTERNAL_KEY, i.tapInternalKey);
    SingleField(i, lists, T_TAP_MERKLE_ROOT, i.tapMerkleRoot);
    SingleField(i, lists, T_FINAL_SCRIPTSIG, NonEmpty(i.finalScriptSig));
    SingleField(i, lists, T_FINAL_SCRIPTWITNESS, NonEmpty(i.finalScriptWitness));
  }

  lemma ListOfKeyed(i: Input)
    ensures ListOf(i, T_PARTIAL_SIG) == i.partialSigs
    ensures ListOf(i, T_TAP_SCRIPT_SIG) == i.tapScriptSigs
    ensures ListOf(i, T_TAP_LEAF_SCRIPT) == i.tapLeafScripts
  {}

  lemma KeyedFields(i: Input, lists: byte -> seq<Pair>)
    requires SortsListsOf(i, lists)
    ensures lists(T_PARTIAL_SIG) == Sort(i.partialSigs)
    ensures lists(T_TAP_SCRIPT_SIG) == Sort(i.tapScriptSigs)
    ensures lists(T_TAP_LEAF_SCRIPT) == Sort(i.tapLeafScripts)
  {
    ListOfKeyed(i);
    var a, b, c := T_PARTIAL_SIG, T_TAP_SCRIPT_SIG, T_TAP_LEAF_SCRIPT;
    assert lists(a) == Sort(ListOf(i, a)) && lists(b) == Sort(ListOf(i, b)) && lists(c) == Sort(ListOf(i, c));
  }

  lemma EncodedFields(i: Input)
    requires InputWellFormed(i)
    ensures DecodeTx(TxValue(i.nonWitnessUtxo)) == i.nonWitnessUtxo
       <==> (i.nonWitnessUtxo.Some? ==> !Ambiguous(i.nonWitnessUtxo.value))
    ensures DecodeOut(OutValue(i.witnessUtxo)) == i.witnessUtxo
    ensures DecodeNumber(NumberValue(i.sighashType)) == i.sighashType
  {
    if i.nonWitnessUtxo.Some? { ParseOfWire(i.nonWitnessUtxo.value); }
    if i.witnessUtxo.Some? { DecodeOutOfBytes(i.witnessUtxo.value); }
    if i.sighashType.Some? { DecodeNumberOfLE(i.sighashType.value); }
  }

  /** The written entries decode to the canonical input, unless the input holds a
      value the encoding cannot carry. */
  lemma DecodedOfSorted(i: Input)
    requires InputWellFormed(i)
    ensures Decoded(Sort(InputPairs(i))) == Canonical(i) <==> Faithful(i)
  {
    var ps := Sort(InputPairs(i));
    forall t | t in TYPED
      ensures TypeLists(ps)(t) == Sort(ListOf(i, t))
    {
      TypeListOfSorted(i, t);
    }
    UntypedOfSorted(i);
    FromSortedLists(i, TypeLists(ps));
  }

  lemma FromSortedLists(i: Input, lists: byte -> seq<Pair>)
    requires InputWellFormed(i) && SortsListsOf(i, lists)
    ensures FromLists(lists, Sort(i.unknown)) == Canonical(i) <==> Faithful(i)
  {
    EncodedSingleFields(i, lists, Sort(i.unknown));
    RawSingleFields(i, lists);
    KeyedFields(i, lists);
    EncodedFields(i);
    SameFields(FromLists(lists, Sort(i.unknown)), Canonical(i));
  }

  lemma SameFields(a: Input, b: Input)
    ensures a == b <==>
      && a.nonWitnessUtxo == b.nonWitnessUtxo && a.witnessUtxo == b.witnessUtxo && a.partialSigs == b.partialSigs
      && a.sighashType == b.sighashType && a.redeemScript == b.redeemScript && a.witnessScript == b.witnessScript
      && a.finalScriptSig == b.finalScriptSig && a.finalScriptWitness == b.finalScriptWitness
      && a.tapScriptSigs == b.tapScriptSigs && a.tapLeafScripts == b.tapLeafScripts
      && a.tapInternalKey == b.tapInternalKey && a.tapMerkleRoot == b.tapMerkleRoot && a.unknown == b.unknown
  {}

  /** What the parser demands of an entry of type `t`. */
  predicate EntryOk(t: byte, keydata: bytes, value: bytes) {
    && (if t == T_PARTIAL_SIG then PubKeyLength(keydata)
        else if t == T_TAP_SCRIPT_SIG then |keydata| == 64
        else if t == T_TAP_LEAF_SCRIPT then |keydata| == 33 && value != []
        else keydata == [])
    && (t == T_NON_WITNESS_UTXO ==> ParseTx(value, true).Ok?)
    && (t == T_WITNESS_UTXO ==> ParseWitnessUtxo(value).Ok?)
    && (t == T_SIGHASH_TYPE ==> |value| == 4)
    && (t == T_TAP_INTERNAL_KEY || t == T_TAP_MERKLE_ROOT ==> |value| == 32)
  }

  lemma TypedFieldOk(p: Pair)
    requires IsTyped(p)
    ensures ReadField(p).Ok? <==> EntryOk(p.key[0], p.key[1..], p.value)
  {
    hide ParseTx, ParseWitnessUtxo, Number32, PubKeyLength;
  }

  lemma ListOfOk(i: Input, t: byte, q: Pair)
    requires InputWellFormed(i) && Faithful(i) && q in ListOf(i, t)
    ensures EntryOk(t, q.key, q.value)
  {
    if t == T_NON_WITNESS_UTXO {
      ParseOfWire(i.nonWitnessUtxo.value);
    } else if t == T_WITNESS_UTXO {
      DecodeOutOfBytes(i.witnessUtxo.value);
    }
  }

  lemma InputFieldsOk(i: Input, p: Pair)
    requires InputWellFormed(i) && Faithful(i) && p in InputPairs(i)
    ensures ReadField(p).Ok?
  {
    if p in i.unknown {
      assert UnknownOk(p);
      SplitKeyFirst(p.key);
    } else {
      TypedPairsMember(i, TYPED, p);
      ListOfOk(i, p.key[0], Pair(p.key[1..], p.value));
      TypedFieldOk(p);
    }
  }

  /** Writing an input map and interpreting it again returns the input with its
      lists sorted, exactly for the inputs the encoding can carry. */
  lemma InputRoundTrip(i: Input)
    requires InputWellFormed(i)
    ensures ParseInputMap(Sort(InputPairs(i))) == Ok(Canonical(i)) <==> Faithful(i)
  {
    var ps := Sort(InputPairs(i));
    ParseInputMapDecodes(ps);
    DecodedOfSorted(i);
    if Faithful(i) {
      SortCorrect(InputPairs(i));
      forall p | p in ps
        ensures ReadField(p).Ok?
      {
        InputFieldsOk(i, p);
      }
    }
  }
}
