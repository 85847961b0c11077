/** What one pass through the parser and the writer does to a container's bytes: it
    never makes them longer, and leaves them as they are exactly when they were in
    canonical form. */
module PsbtExact {
  import opened Bytes
  import opened Wire
  import opened KeyMaps
  import opened PsbtMaps
  import opened Transactions
  import opened Psbts
  import opened PsbtCodec
  import opened PsbtRoundTrip
  import opened PsbtStability
  import opened Exactness

  // ------------------------------------------------------------------ weighing pairs

  function PairsSize(ps: seq<Pair>): nat { |Flat(PairBytes, ps)| }

  lemma WeightConcat(a: seq<Pair>, b: seq<Pair>)
    ensures PairsSize(a + b) == PairsSize(a) + PairsSize(b)
  {
    FlatConcat(PairBytes, a, b);
  }

  lemma WeightSnoc(a: seq<Pair>, p: Pair)
    ensures PairsSize(a + [p]) == PairsSize(a) + |PairBytes(p)|
  {
    FlatSnoc(PairBytes, a, p);
  }

  lemma {:induction false} WeightInsert(x: Pair, ps: seq<Pair>)
    ensures PairsSize(Insert(x, ps)) == |PairBytes(x)| + PairsSize(ps)
  {
    hide PairBytes;
    if ps != [] && LexLe(ps[0].key, x.key) {
      WeightInsert(x, ps[1..]);
      assert Insert(x, ps)[1..] == Insert(x, ps[1..]);
    } else {
      assert ([x] + ps)[1..] == ps;
    }
  }

  lemma {:induction false} WeightSort(ps: seq<Pair>)
    ensures PairsSize(Sort(ps)) == PairsSize(ps)
  {
    hide PairBytes;
    if ps != [] {
      var front, last := ps[..|ps| - 1], ps[|ps| - 1];
      WeightSort(front);
      WeightInsert(last, Sort(front));
      WeightSnoc(front, last);
      assert ps == front + [last];
    }
  }

  /** The weight of the entries of some types, type by type. */
  function TypesWeight(ps: seq<Pair>, types: seq<byte>): nat {
    if types == [] then 0
    else PairsSize(WithType(types[0], TypeList(ps, types[0]))) + TypesWeight(ps, types[1..])
  }

  predicate OfTypes(p: Pair, types: seq<byte>) { p.key != [] && p.key[0] in types }

  lemma TypeListStep(front: seq<Pair>, p: Pair, t: byte)
    ensures PairsSize(WithType(t, TypeList(front + [p], t)))
         == PairsSize(WithType(t, TypeList(front, t))) + (if HasType(t, p) then |PairBytes(p)| else 0)
  {
    hide PairBytes;
    TypeListSnoc(front, p);
    var l := TypeList(front, t);
    if HasType(t, p) {
      var q := Pair(p.key[1..], p.value);
      assert [t] + q.key == p.key;
      assert WithType(t, l + [q]) == WithType(t, l) + [p];
      WeightSnoc(WithType(t, l), p);
    } else {
      assert l + [] == l;
    }
  }

  lemma {:induction false} TypesWeightStep(front: seq<Pair>, p: Pair, types: seq<byte>)
    requires NoRepeats(types)
    ensures TypesWeight(front + [p], types)
         == TypesWeight(front, types) + (if OfTypes(p, types) then |PairBytes(p)| else 0)
  {
    hide PairBytes, TypeList;
    if types != [] {
      TypeListStep(front, p, types[0]);
      NoRepeatsTail(types);
      TypesWeightStep(front, p, types[1..]);
      assert types == [types[0]] + types[1..];
    }
  }

  lemma {:induction false} EmptyTypesWeight(types: seq<byte>)
    ensures TypesWeight([], types) == 0
  {
    if types != [] {
      assert WithType(types[0], []) == [];
      EmptyTypesWeight(types[1..]);
    }
  }

  /** A list weighs what its typed entries and the others weigh together. */
  lemma {:induction false} WeightByType(ps: seq<Pair>, types: seq<byte>, others: Pair -> bool)
    requires NoRepeats(types) && forall p :: others(p) <==> !OfTypes(p, types)
    ensures TypesWeight(ps, types) + PairsSize(Filter(others, ps)) == PairsSize(ps)
  {
    hide PairBytes, OfTypes;
    if ps == [] {
      EmptyTypesWeight(types);
    } else {
      var front, p := ps[..|ps| - 1], ps[|ps| - 1];
      assert ps == front + [p];
      WeightByType(front, types, others);
      TypesWeightStep(front, p, types);
      WeightSnoc(front, p);
      WeightSnoc(Filter(others, front), p);
      assert Filter(others, front) + [] == Filter(others, front);
    }
  }

  function ListsWeight(i: Input, types: seq<byte>): nat {
    if types == [] then 0 else PairsSize(WithType(types[0], ListOf(i, types[0]))) + ListsWeight(i, types[1..])
  }

  lemma {:induction false} TypedPairsWeight(i: Input, types: seq<byte>)
    ensures PairsSize(TypedPairs(i, types)) == ListsWeight(i, types)
  {
    hide ListOf;
    if types != [] {
      TypedPairsWeight(i, types[1..]);
      WeightConcat(WithType(types[0], ListOf(i, types[0])), TypedPairs(i, types[1..]));
    }
  }

  // -------------------------------------------------------- entries written again

  predicate IsKeyed(t: byte) { t == T_PARTIAL_SIG || t == T_TAP_SCRIPT_SIG || t == T_TAP_LEAF_SCRIPT }

  /** Written back unchanged: narrow transactions and outputs, no empty final field. */
  predicate Kept(t: byte, value: bytes) {
    && (t == T_NON_WITNESS_UTXO ==> NarrowTx(value, true))
    && (t == T_WITNESS_UTXO ==> NarrowOut(value))
    && (t == T_FINAL_SCRIPTSIG || t == T_FINAL_SCRIPTWITNESS ==> value != [])
  }

  predicate KeptEntry(p: Pair) { p.key != [] ==> Kept(p.key[0], p.value) }

  /** What a single field of type `t` is written back as. */
  function Rewritten(t: byte, value: bytes): Option<bytes> {
    if t == T_NON_WITNESS_UTXO then TxValue(DecodeTx(Some(value)))
    else if t == T_WITNESS_UTXO then OutValue(DecodeOut(Some(value)))
    else if t == T_SIGHASH_TYPE then NumberValue(DecodeNumber(Some(value)))
    else if t == T_FINAL_SCRIPTSIG || t == T_FINAL_SCRIPTWITNESS then NonEmpty(Some(value))
    else Some(value)
  }

  /** A single field comes back no longer, and the same exactly if it is kept. */
  lemma RewrittenShrinks(t: byte, value: bytes)
    requires EntryOk(t, [], value)
    ensures Rewritten(t, value).Some? ==> |Rewritten(t, value).value| <= |value|
    ensures Rewritten(t, value) == Some(value) <==> Kept(t, value)
  {
    hide WireBytes, OutBytes, ParseTx, NarrowTx, NarrowOut;
    if t == T_NON_WITNESS_UTXO {
      ExactTx(value);
    } else if t == T_WITNESS_UTXO {
      RewrittenOutput(value);
    } else if t == T_SIGHASH_TYPE {
      LEOfFromLE(value);
    }
  }

  lemma RewrittenOutput(value: bytes)
    requires ParseWitnessUtxo(value).Ok?
    ensures |OutBytes(ParseWitnessUtxo(value).value)| <= |value|
    ensures OutBytes(ParseWitnessUtxo(value).value) == value <==> NarrowOut(value)
  {
    hide OutBytes, NarrowOut, ReadOut;
    ExactOut(value);
    var o := ParseWitnessUtxo(value).value;
    assert OutBytes(o) + [] == OutBytes(o);
  }

  lemma FirstTwoDiffer(l: seq<Pair>)
    requires Distinct(l)
    ensures |l| <= 1 || l[0].key != l[1].key
  {}

  /** A single field type has at most one entry, without key data. */
  lemma SingleTypeList(ps: seq<Pair>, t: byte)
    requires ParseInputMap(ps).Ok? && Distinct(ps) && t in TYPED && !IsKeyed(t)
    ensures var l := TypeList(ps, t); l == [] || (|l| == 1 && l[0].key == [] && EntryOk(t, [], l[0].value))
  {
    var l := TypeList(ps, t);
    TypeListDistinct(ps, t);
    forall q | q in l
      ensures q.key == [] && EntryOk(t, [], q.value)
    {
      TypeListEntriesOk(ps, t, q);
      SingleHasNoKeyData(t, q.key, q.value);
    }
    assert forall i :: 0 <= i < |l| ==> l[i] in l && l[i].key == [];
    FirstTwoDiffer(l);
    hide TypeList;
  }

  lemma SingleHasNoKeyData(t: byte, keydata: bytes, value: bytes)
    requires EntryOk(t, keydata, value) && t in TYPED && !IsKeyed(t)
    ensures keydata == []
  {}

  function RewrittenList(t: byte, l: seq<Pair>): seq<Pair> {
    if IsKeyed(t) || l == [] then l else Single(Rewritten(t, l[|l| - 1].value))
  }

  lemma EncodedLists(lists: byte -> seq<Pair>, unknown: seq<Pair>, t: byte)
    requires t == T_NON_WITNESS_UTXO || t == T_WITNESS_UTXO || t == T_SIGHASH_TYPE
    ensures ListOf(FromLists(lists, unknown), t) == RewrittenList(t, lists(t))
  {
    hide WireBytes, OutBytes, ParseTx, ParseWitnessUtxo, Number32;
  }

  lemma RawLists(lists: byte -> seq<Pair>, unknown: seq<Pair>, t: byte)
    requires t == T_REDEEM_SCRIPT || t == T_WITNESS_SCRIPT || t == T_TAP_INTERNAL_KEY || t == T_TAP_MERKLE_ROOT
    ensures ListOf(FromLists(lists, unknown), t) == RewrittenList(t, lists(t))
  {
    hide TxValue, OutValue, NumberValue, DecodeTx, DecodeOut, DecodeNumber;
  }

  lemma FinalLists(lists: byte -> seq<Pair>, unknown: seq<Pair>, t: byte)
    requires IsKeyed(t) || t == T_FINAL_SCRIPTSIG || t == T_FINAL_SCRIPTWITNESS
    ensures ListOf(FromLists(lists, unknown), t) == RewrittenList(t, lists(t))
  {
    hide TxValue, OutValue, NumberValue, DecodeTx, DecodeOut, DecodeNumber;
  }

  /** The entries of a type after decoding a map and writing it again. */
  lemma ListOfDecoded(ps: seq<Pair>, t: byte)
    requires t in TYPED
    ensures ListOf(Decoded(ps), t) == RewrittenList(t, TypeList(ps, t))
  {
    hide ListOf, RewrittenList, FromLists, Filter, TypeList;
    var lists, unknown := TypeLists(ps), Filter(IsUntyped, ps);
    if t == T_NON_WITNESS_UTXO || t == T_WITNESS_UTXO || t == T_SIGHASH_TYPE {
      EncodedLists(lists, unknown, t);
    } else if t == T_REDEEM_SCRIPT || t == T_WITNESS_SCRIPT || t == T_TAP_INTERNAL_KEY || t == T_TAP_MERKLE_ROOT {
      RawLists(lists, unknown, t);
    } else {
      FinalLists(lists, unknown, t);
    }
  }

  lemma RewrittenListShrinks(ps: seq<Pair>, t: byte)
    requires ParseInputMap(ps).Ok? && Distinct(ps) && t in TYPED
    ensures var l := TypeList(ps, t); var r := RewrittenList(t, l);
      && PairsSize(WithType(t, r)) <= PairsSize(WithType(t, l))
      && (r == l <==> forall q :: q in l ==> Kept(t, q.value))
      && forall q :: q in r ==> exists p :: p in l && p.key == q.key && |q.value| <= |p.value|
  {
    hide Rewritten, Kept, TypeList, EntryOk;
    var l := TypeList(ps, t);
    if IsKeyed(t) {
      KeyedKept(t);
    } else {
      SingleTypeList(ps, t);
      if l != [] {
        RewrittenShrinks(t, l[0].value);
        SingleWeight(t, Rewritten(t, l[0].value), l[0].value);
        assert l == [Pair([], l[0].value)];
        assert l[0] in l;
      }
    }
  }

  lemma KeyedKept(t: byte)
    requires IsKeyed(t)
    ensures forall value :: Kept(t, value)
  {}

  lemma SingleWeight(t: byte, shorter: Option<bytes>, value: bytes)
    requires shorter.Some? ==> |shorter.value| <= |value|
    ensures PairsSize(WithType(t, Single(shorter))) <= PairsSize(WithType(t, [Pair([], value)]))
  {
    SingleWithType(t, value);
    if shorter.Some? {
      SingleWithType(t, shorter.value);
      VarBytesMonotone(shorter.value, value);
      assert Flat(PairBytes, [Pair([t], value)]) == PairBytes(Pair([t], value)) + [];
      assert Flat(PairBytes, [Pair([t], shorter.value)]) == PairBytes(Pair([t], shorter.value)) + [];
    } else {
      assert WithType(t, []) == [];
    }
  }

  // -------------------------------------------------------------------- input maps

  lemma {:induction false} ListsShrink(ps: seq<Pair>, types: seq<byte>)
    requires ParseInputMap(ps).Ok? && Distinct(ps) && forall t :: t in types ==> t in TYPED
    ensures ListsWeight(Decoded(ps), types) <= TypesWeight(ps, types)
  {
    hide ListOf, TypeList, Decoded, RewrittenList, PairsSize, ParseInputMap, Distinct;
    if types != [] {
      assert types[0] in types && forall t :: t in types[1..] ==> t in types;
      ListOfDecoded(ps, types[0]);
      RewrittenListShrinks(ps, types[0]);
      ListsShrink(ps, types[1..]);
    }
  }

  lemma InputShrinks(ps: seq<Pair>)
    requires ParseInputMap(ps).Ok? && Distinct(ps)
    ensures PairsSize(InputPairs(Decoded(ps))) <= PairsSize(ps)
  {
    hide ListsWeight, TypesWeight, TypedPairs, ParseInputMap, Distinct, Filter, PairsSize;
    TypedNoRepeats();
    ListsShrink(ps, TYPED);
    TypedPairsWeight(Decoded(ps), TYPED);
    WeightConcat(TypedPairs(Decoded(ps), TYPED), Decoded(ps).unknown);
    WeightByType(ps, TYPED, IsUntyped);
    DecodedUnknown(ps);
  }

  lemma DecodedUnknown(ps: seq<Pair>)
    ensures Decoded(ps).unknown == Filter(IsUntyped, ps)
  {}

  function WithoutType(p: Pair): Pair
    requires p.key != []
  {
    Pair(p.key[1..], p.value)
  }

  /** Where the entries of a decoded map come from. */
  lemma EntryOrigin(ps: seq<Pair>, p: Pair)
    requires ParseInputMap(ps).Ok?
    ensures OfTypes(p, TYPED) ==>
      && (p in ps <==> WithoutType(p) in TypeList(ps, p.key[0]))
      && (p in InputPairs(Decoded(ps)) <==> WithoutType(p) in RewrittenList(p.key[0], TypeList(ps, p.key[0])))
    ensures !OfTypes(p, TYPED) ==> (p in InputPairs(Decoded(ps)) <==> p in ps)
  {
    hide TypedPairs, ListOf, TypeList, RewrittenList, Filter, ParseInputMap;
    DecodedUnknown(ps);
    FilterMembers(IsUntyped, ps);
    TypedPairsMember(Decoded(ps), TYPED, p);
    if OfTypes(p, TYPED) {
      assert [p.key[0]] + p.key[1..] == p.key;
      ListOfDecoded(ps, p.key[0]);
      TypeListMember(ps, p.key[0], WithoutType(p));
    }
  }

  predicate AllKept(ps: seq<Pair>) { forall q :: q in ps ==> KeptEntry(q) }

  lemma TypeKept(ps: seq<Pair>, t: byte)
    requires AllKept(ps)
    ensures forall q :: q in TypeList(ps, t) ==> Kept(t, q.value)
  {
    hide Kept, TypeList;
    forall q | q in TypeList(ps, t)
      ensures Kept(t, q.value)
    {
      TypeListMember(ps, t, q);
      assert KeptEntry(Pair([t] + q.key, q.value));
    }
  }

  /** Entries come back under their keys and no longer, and unchanged if all are kept. */
  lemma InputEntry(ps: seq<Pair>, p: Pair)
    requires ParseInputMap(ps).Ok? && Distinct(ps)
    ensures p in InputPairs(Decoded(ps)) ==> exists q :: q in ps && q.key == p.key && |p.value| <= |q.value|
    ensures AllKept(ps) ==> (p in InputPairs(Decoded(ps)) <==> p in ps)
  {
    hide TypeList, RewrittenList, Kept, ParseInputMap, InputPairs, Decoded, Distinct, AllKept;
    EntryOrigin(ps, p);
    if OfTypes(p, TYPED) {
      var t := p.key[0];
      RewrittenListShrinks(ps, t);
      if AllKept(ps) { TypeKept(ps, t); }
      if WithoutType(p) in RewrittenList(t, TypeList(ps, t)) { TypedOrigin(ps, p); }
    }
  }

  lemma TypedOrigin(ps: seq<Pair>, p: Pair)
    requires OfTypes(p, TYPED)
    requires exists r :: r in TypeList(ps, p.key[0]) && r.key == p.key[1..] && |p.value| <= |r.value|
    ensures exists q :: q in ps && q.key == p.key && |p.value| <= |q.value|
  {
    hide TypeList;
    var r :| r in TypeList(ps, p.key[0]) && r.key == p.key[1..] && |p.value| <= |r.value|;
    TypeListMember(ps, p.key[0], r);
    assert [p.key[0]] + p.key[1..] == p.key;
    assert Pair(p.key, r.value) in ps;
  }

  lemma TypeUnchangedIsKept(ps: seq<Pair>, t: byte, q: Pair)
    requires ParseInputMap(ps).Ok? && Distinct(ps) && t in TYPED
    requires q in TypeList(ps, t) && q in RewrittenList(t, TypeList(ps, t))
    ensures Kept(t, q.value)
  {
    hide TypeList, Kept, Rewritten, EntryOk, ParseInputMap, Distinct;
    if IsKeyed(t) {
      KeyedKept(t);
    } else {
      SingleTypeList(ps, t);
      RewrittenListShrinks(ps, t);
      SameSingle(TypeList(ps, t), RewrittenList(t, TypeList(ps, t)), q);
    }
  }

  lemma SameSingle(a: seq<Pair>, b: seq<Pair>, q: Pair)
    requires |a| <= 1 && |b| <= 1 && q in a && q in b
    ensures a == b
  {}

  /** An entry that came back unchanged was kept. */
  lemma UnchangedIsKept(ps: seq<Pair>, p: Pair)
    requires ParseInputMap(ps).Ok? && Distinct(ps) && p in ps && p in InputPairs(Decoded(ps))
    ensures KeptEntry(p)
  {
    hide TypeList, Kept, Rewritten, EntryOk, ParseInputMap, Distinct, InputPairs, Decoded;
    EntryOrigin(ps, p);
    if OfTypes(p, TYPED) {
      var t := p.key[0];
      hide RewrittenList;
      TypeUnchangedIsKept(ps, t, WithoutType(p));
    } else {
      UntypedKept(p);
    }
  }

  lemma UntypedKept(p: Pair)
    requires !OfTypes(p, TYPED)
    ensures KeptEntry(p)
  {}

  // ---------------------------------------------------------------- maps on the wire

  /** Every length in the map has its narrowest width. */
  predicate NarrowPairs(b: bytes)
    decreases |b|
  {
    match ReadCompactSize(b)
    case Err(_) => false
    case Ok(keyLen) =>
      && Narrow(b)
      && (keyLen.value == 0
          || match Take(keyLen.rest, keyLen.value)
             case Err(_) => false
             case Ok(key) =>
               match ReadVarBytes(key.rest)
               case Err(_) => false
               case Ok(value) => Narrow(key.rest) && NarrowPairs(value.rest))
  }

  function RawMap(ps: seq<Pair>): bytes { Flat(PairBytes, ps) + [0] }

  lemma {:induction false} ExactPairs(b: bytes, seen: set<bytes>)
    requires ReadPairs(b, seen).Ok?
    ensures Exact(b, RawMap(ReadPairs(b, seen).value.value), ReadPairs(b, seen).value.rest, NarrowPairs(b))
    decreases |b|
  {
    hide Exact, Narrow;
    var keyLen := ReadCompactSize(b).value;
    ExactCompactSize(b);
    if keyLen.value == 0 {
      assert RawMap([]) == CompactSize(0);
    } else {
      var key := Take(keyLen.rest, keyLen.value).value;
      var value := ReadVarBytes(key.rest).value;
      var more := ReadPairs(value.rest, seen + {key.value}).value;
      var p := Pair(key.value, value.value);
      ExactTake(keyLen.rest, keyLen.value);
      ExactVarBytes(key.rest);
      ExactPairs(value.rest, seen + {key.value});
      ExactThen(b, CompactSize(keyLen.value), keyLen.rest, Narrow(b), key.value, key.rest, true);
      ExactThen(b, VarBytes(p.key), key.rest, Narrow(b), VarBytes(p.value), value.rest, Narrow(key.rest));
      ExactThen(b, PairBytes(p), value.rest, Narrow(b) && Narrow(key.rest), RawMap(more.value), more.rest,
                NarrowPairs(value.rest));
      RawMapCons(p, more.value);
    }
  }

  lemma RawMapCons(p: Pair, ps: seq<Pair>)
    ensures RawMap([p] + ps) == PairBytes(p) + RawMap(ps)
  {
    assert ([p] + ps)[1..] == ps;
    Assoc(PairBytes(p), Flat(PairBytes, ps), [0]);
  }

  /** A map read from `b` as `ps` and written from `again`, whose entries are those of
      `ps` or less: the bytes are the same exactly when `ps` was in order, narrow, and
      all of it comes back. */
  lemma ExactMap(b: bytes, ps: seq<Pair>, rest: bytes, again: seq<Pair>)
    requires ReadPairs(b, {}) == Ok(Parsed(ps, rest)) && Distinct(again) && PairsSize(again) <= PairsSize(ps)
    requires forall p :: p in again ==> PairFits(p)
    ensures Exact(b, MapBytes(again), rest, NarrowPairs(b) && ps == Sort(again))
  {
    hide Narrow, NarrowPairs, ReadPairs, PairFits;
    ExactPairs(b, {});
    WeightSort(again);
    ReadPairsOfMapBytes(again, rest);
    assert MapBytes(again) == RawMap(Sort(again));
    hide MapBytes, Sort, PairsSize;
  }

  lemma SortedSame(ps: seq<Pair>, again: seq<Pair>)
    requires Distinct(ps) && Distinct(again)
    ensures ps == Sort(again) <==> Sorted(ps) && forall p :: p in ps <==> p in again
  {
    SortCorrect(again);
    if Sorted(ps) && forall p :: p in ps <==> p in again { SortedUnique(ps, Sort(again)); }
  }

  /** An input map in canonical form. */
  predicate CanonicalInputMap(b: bytes) {
    match ReadPairs(b, {})
    case Err(_) => false
    case Ok(ps) => NarrowPairs(b) && Sorted(ps.value) && AllKept(ps.value)
  }

  predicate CanonicalOutputMap(b: bytes) {
    match ReadPairs(b, {})
    case Err(_) => false
    case Ok(ps) => NarrowPairs(b) && Sorted(ps.value)
  }

  lemma ExactInputMap(b: bytes)
    requires ReadInputMap(b).Ok?
    ensures Exact(b, InputMapBytes(ReadInputMap(b).value.value), ReadInputMap(b).value.rest, CanonicalInputMap(b))
  {
    hide Exact, NarrowPairs, ReadPairs, ParseInputMap, Decoded, InputPairs, MapBytes, AllKept, Sorted, Sort, PairsSize;
    var ps := ReadPairs(b, {}).value;
    ReadPairsWellFormed(b, {});
    ParseInputMapDecodes(ps.value);
    ParsedInputWellFormed(ps.value);
    var again := InputPairs(Decoded(ps.value));
    InputPairsDistinct(Decoded(ps.value));
    InputShrinks(ps.value);
    RewrittenFits(ps.value);
    ExactMap(b, ps.value, ps.rest, again);
    InputComesBack(ps.value);
  }

  lemma RewrittenFits(ps: seq<Pair>)
    requires ParseInputMap(ps).Ok? && Distinct(ps) && forall p :: p in ps ==> PairFits(p)
    ensures forall p :: p in InputPairs(Decoded(ps)) ==> PairFits(p)
  {
    hide ParseInputMap, Decoded, InputPairs, AllKept, Distinct;
    forall p | p in InputPairs(Decoded(ps))
      ensures PairFits(p)
    {
      InputEntry(ps, p);
      var q :| q in ps && q.key == p.key && |p.value| <= |q.value|;
      assert PairFits(q);
    }
  }

  lemma InputComesBack(ps: seq<Pair>)
    requires ParseInputMap(ps).Ok? && Distinct(ps) && Distinct(InputPairs(Decoded(ps)))
    ensures ps == Sort(InputPairs(Decoded(ps))) <==> Sorted(ps) && AllKept(ps)
  {
    hide ParseInputMap, Decoded, InputPairs, KeptEntry, Sort, Sorted, Distinct;
    var again := InputPairs(Decoded(ps));
    SortedSame(ps, again);
    forall p
      ensures AllKept(ps) ==> (p in again <==> p in ps)
      ensures p in ps && p in again ==> KeptEntry(p)
    {
      InputEntry(ps, p);
      if p in ps && p in again { UnchangedIsKept(ps, p); }
    }
  }

  lemma ExactOutputMap(b: bytes)
    requires ReadOutputMap(b).Ok?
    ensures Exact(b, MapBytes(ReadOutputMap(b).value.value), ReadOutputMap(b).value.rest, CanonicalOutputMap(b))
  {
    hide Exact, NarrowPairs, ReadPairs, MapBytes;
    var ps := ReadPairs(b, {}).value;
    ReadPairsWellFormed(b, {});
    ParsedOutputIs(ps.value);
    ExactMap(b, ps.value, ps.rest, ps.value);
    SortedSame(ps.value, ps.value);
  }

  // ------------------------------------------------------------------ the global map

  const GLOBAL_TYPES: seq<byte> := [T_UNSIGNED_TX, T_VERSION]

  /** Written back unchanged: a narrow transaction, and no version, which is dropped. */
  predicate GlobalKept(p: Pair) {
    p.key != [] ==> p.key[0] != T_VERSION && (p.key[0] == T_UNSIGNED_TX ==> NarrowTx(p.value, false))
  }

  lemma GlobalSingle(ps: seq<Pair>, t: byte)
    requires ParseGlobalMap(ps).Ok? && Distinct(ps) && t in GLOBAL_TYPES
    ensures var l := TypeList(ps, t); l == [] || (|l| == 1 && l[0].key == [] && Pair([t], l[0].value) in ps)
  {
    hide TypeList;
    var l := TypeList(ps, t);
    TypeListDistinct(ps, t);
    ParseGlobalMapDecodes(ps);
    forall q | q in l
      ensures q.key == [] && Pair([t], q.value) in ps
    {
      TypeListMember(ps, t, q);
      GlobalNoKeyData(Pair([t] + q.key, q.value));
      assert [t] + [] == [t];
    }
    assert forall i :: 0 <= i < |l| ==> l[i] in l && l[i].key == [];
    FirstTwoDiffer(l);
  }

  lemma GlobalNoKeyData(p: Pair)
    requires ReadGlobalField(p).Ok? && OfTypes(p, GLOBAL_TYPES)
    ensures |p.key| == 1
    ensures p.key[0] == T_UNSIGNED_TX ==> ParseTx(p.value, false).Ok?
  {
    SplitKeyFirst(p.key);
  }

  lemma LastTx(ps: seq<Pair>)
    requires ParseGlobalMap(ps).Ok? && Distinct(ps) && ParseGlobalMap(ps).value.unsignedTx.Some?
    ensures var l := TypeList(ps, T_UNSIGNED_TX); var tx := ParseGlobalMap(ps).value.unsignedTx.value;
      && |l| == 1 && l[0].key == [] && Pair([T_UNSIGNED_TX], l[0].value) in ps && ParseTx(l[0].value, false) == Ok(tx)
  {
    hide TypeList, ParseTx, ParseGlobalMap, Filter, Distinct;
    ParseGlobalMapDecodes(ps);
    GlobalSingle(ps, T_UNSIGNED_TX);
  }

  /** What a global map is written back as. */
  function GlobalAgain(g: Global): seq<Pair>
    requires g.unsignedTx.Some?
  {
    [Pair([T_UNSIGNED_TX], Stripped(g.unsignedTx.value))] + g.unknown
  }

  lemma GlobalShrinks(ps: seq<Pair>)
    requires ParseGlobalMap(ps).Ok? && Distinct(ps) && ParseGlobalMap(ps).value.unsignedTx.Some?
    ensures PairsSize(GlobalAgain(ParseGlobalMap(ps).value)) <= PairsSize(ps)
  {
    hide TypeList, Filter, Stripped, ParseTx, PairsSize, ParseGlobalMap;
    ParseGlobalMapDecodes(ps);
    LastTx(ps);
    var g, l := ParseGlobalMap(ps).value, TypeList(ps, T_UNSIGNED_TX);
    ExactUnsigned(l[0].value);
    assert l == [Pair([], l[0].value)];
    SingleWithType(T_UNSIGNED_TX, Stripped(g.unsignedTx.value));
    SingleWeight(T_UNSIGNED_TX, Some(Stripped(g.unsignedTx.value)), l[0].value);
    WeightConcat([Pair([T_UNSIGNED_TX], Stripped(g.unsignedTx.value))], g.unknown);
    WeightByType(ps, GLOBAL_TYPES, IsGlobalUnknown);
    GlobalTypesWeight(ps);
    GlobalUnknownOf(ps);
  }

  lemma GlobalUnknownOf(ps: seq<Pair>)
    ensures DecodedGlobal(ps).unknown == Filter(IsGlobalUnknown, ps)
  {}

  lemma GlobalTypesWeight(ps: seq<Pair>)
    ensures TypesWeight(ps, GLOBAL_TYPES) >= PairsSize(WithType(T_UNSIGNED_TX, TypeList(ps, T_UNSIGNED_TX)))
  {}

  predicate GlobalAllKept(ps: seq<Pair>) { forall p :: p in ps ==> GlobalKept(p) }

  /** The map comes back exactly when it was sorted and all of it is kept. */
  lemma GlobalComesBack(ps: seq<Pair>)
    requires ParseGlobalMap(ps).Ok? && Distinct(ps) && ParseGlobalMap(ps).value.unsignedTx.Some?
    requires Distinct(GlobalAgain(ParseGlobalMap(ps).value))
    ensures ps == Sort(GlobalAgain(ParseGlobalMap(ps).value)) <==> Sorted(ps) && GlobalAllKept(ps)
  {
    hide TypeList, Filter, Stripped, ParseTx, ParseGlobalMap, Sort, Sorted, Distinct, NarrowTx;
    ParseGlobalMapDecodes(ps);
    GlobalUnknownOf(ps);
    FilterMembers(IsGlobalUnknown, ps);
    LastTx(ps);
    var g, v := ParseGlobalMap(ps).value, TypeList(ps, T_UNSIGNED_TX)[0].value;
    var again, first := GlobalAgain(g), Pair([T_UNSIGNED_TX], v);
    ExactUnsigned(v);
    SortedSame(ps, again);
    forall p | p in ps
      ensures p in again <==> GlobalKept(p)
    {
      GlobalEntry(ps, p);
    }
    if GlobalAllKept(ps) {
      assert GlobalKept(first);
      assert forall p :: p in again ==> p == first || p in g.unknown;
    }
  }

  lemma GlobalEntry(ps: seq<Pair>, p: Pair)
    requires ParseGlobalMap(ps).Ok? && Distinct(ps) && ParseGlobalMap(ps).value.unsignedTx.Some? && p in ps
    ensures p in GlobalAgain(ParseGlobalMap(ps).value) <==> GlobalKept(p)
  {
    hide TypeList, Filter, Stripped, ParseTx, ParseGlobalMap, Distinct, NarrowTx;
    ParseGlobalMapDecodes(ps);
    GlobalUnknownOf(ps);
    FilterMembers(IsGlobalUnknown, ps);
    LastTx(ps);
    ReadGlobalFieldType(p);
    var l, g := TypeList(ps, T_UNSIGNED_TX), ParseGlobalMap(ps).value;
    assert p in GlobalAgain(g) <==> p == Pair([T_UNSIGNED_TX], Stripped(g.unsignedTx.value)) || p in g.unknown;
    if HasType(T_UNSIGNED_TX, p) {
      GlobalNoKeyData(p);
      assert p.key == [T_UNSIGNED_TX] + [];
      TypeListMember(ps, T_UNSIGNED_TX, Pair([], p.value));
      assert l[0] == Pair([], p.value);
      ExactUnsigned(p.value);
    }
  }
}
