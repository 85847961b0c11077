/** The whole container: parsing what was serialized, and serializing again. */
module PsbtRoundTrip {
  import opened Bytes
  import opened Wire
  import opened KeyMaps
  import opened PsbtMaps
  import opened Transactions
  import opened Psbts
  import opened PsbtCodec

  /** A global entry that is neither the transaction nor the version. */
  predicate GlobalUnknownOk(p: Pair) {
    && SplitKey(p.key).Ok? && p.key[0] != T_UNSIGNED_TX && p.key[0] != T_VERSION
    && (p.key[0] == T_GLOBAL_XPUB ==> |p.key| == 79)
  }

  predicate NoStacks(tx: Tx) { forall i :: 0 <= i < |tx.vin| ==> tx.vin[i].stack == [] }

  ghost predicate OutputWellFormed(o: seq<Pair>) {
    Distinct(o) && forall p :: p in o ==> CheckOutputField(p).Ok?
  }

  ghost predicate WellFormed(p: Psbt) {
    && p.version == 0
    && Unsigned(p.unsignedTx) && NoStacks(p.unsignedTx) && TxFits(p.unsignedTx)
    && |p.inputs| == |p.unsignedTx.vin| && |p.outputs| == |p.unsignedTx.vout|
    && (forall i :: 0 <= i < |p.inputs| ==> InputWellFormed(p.inputs[i]))
    && (forall i :: 0 <= i < |p.outputs| ==> OutputWellFormed(p.outputs[i]))
    && Distinct(p.unknownGlobal) && (forall q :: q in p.unknownGlobal ==> GlobalUnknownOk(q))
  }

  predicate AllFaithful(p: Psbt) { forall i :: 0 <= i < |p.inputs| ==> Faithful(p.inputs[i]) }

  function CanonicalPsbt(p: Psbt): Psbt {
    p.(inputs := MapSeq(Canonical, p.inputs), outputs := MapSeq(Sort, p.outputs),
       unknownGlobal := Sort(p.unknownGlobal))
  }

  // ----------------------------------------------------------- the global map

  function DecodeUnsigned(v: Option<bytes>): Option<Tx> {
    if v.None? then None
    else match ParseTx(v.value, false)
      case Ok(tx) => Some(tx)
      case Err(_) => None
  }

  predicate IsGlobalUnknown(p: Pair) {
    p.key == [] || (p.key[0] != T_UNSIGNED_TX && p.key[0] != T_VERSION)
  }

  function DecodedGlobal(ps: seq<Pair>): Global {
    Global(0, DecodeUnsigned(LastValue(TypeList(ps, T_UNSIGNED_TX))), Filter(IsGlobalUnknown, ps))
  }

  lemma ReadGlobalFieldType(p: Pair)
    requires ReadGlobalField(p).Ok?
    ensures p.key != [] && (IsGlobalUnknown(p) <==> ReadGlobalField(p).value.Other?)
    ensures ReadGlobalField(p).value.Other? ==> ReadGlobalField(p).value == Other(p)
    ensures HasType(T_UNSIGNED_TX, p) <==> ReadGlobalField(p).value.UnsignedTx?
    ensures HasType(T_UNSIGNED_TX, p) ==> Ok(ReadGlobalField(p).value.tx) == ParseTx(p.value, false)
  {
    SplitKeyFirst(p.key);
  }

  lemma PutGlobalDecodes(front: seq<Pair>, p: Pair)
    requires ReadGlobalField(p).Ok?
    ensures PutGlobal(DecodedGlobal(front), ReadGlobalField(p).value) == DecodedGlobal(front + [p])
  {
    hide ReadGlobalField, TypeList, Filter, ParseTx;
    ReadGlobalFieldType(p);
    TypeListSnoc(front, p);
    FilterSnoc(IsGlobalUnknown, front, p);
    assert Filter(IsGlobalUnknown, front) + [] == Filter(IsGlobalUnknown, front);
    assert TypeList(front, T_UNSIGNED_TX) + [] == TypeList(front, T_UNSIGNED_TX);
  }

  lemma {:induction false} ParseGlobalMapDecodes(ps: seq<Pair>)
    ensures ParseGlobalMap(ps).Ok? <==> forall p :: p in ps ==> ReadGlobalField(p).Ok?
    ensures ParseGlobalMap(ps).Ok? ==> ParseGlobalMap(ps).value == DecodedGlobal(ps)
  {
    if ps != [] {
      var front, p := ps[..|ps| - 1], ps[|ps| - 1];
      assert ps == front + [p];
      ParseGlobalMapDecodes(front);
      if ReadGlobalField(p).Ok? { PutGlobalDecodes(front, p); }
    }
  }

  lemma GlobalPairsDistinct(p: Psbt)
    requires WellFormed(p)
    ensures Distinct(GlobalPairs(p))
  {
    DistinctConcat([Pair([T_UNSIGNED_TX], Stripped(p.unsignedTx))], p.unknownGlobal) by {
      forall q | q in p.unknownGlobal
        ensures q.key != [T_UNSIGNED_TX]
      {
        assert GlobalUnknownOk(q);
      }
    }
  }

  lemma ParseOfUnsigned(tx: Tx)
    requires TxFits(tx) && NoStacks(tx)
    ensures ParseTx(Stripped(tx), false) == Ok(tx)
  {
    ParseOfStripped(tx);
    assert MapSeq(NoWitness, tx.vin) == tx.vin;
  }

  lemma GlobalUnknownGroup(p: Psbt)
    requires WellFormed(p)
    ensures Filter(IsGlobalUnknown, Sort(GlobalPairs(p))) == Sort(p.unknownGlobal)
  {
    GlobalPairsDistinct(p);
    FilterSort(IsGlobalUnknown, GlobalPairs(p));
    forall q | q in p.unknownGlobal
      ensures IsGlobalUnknown(q)
    {
      assert GlobalUnknownOk(q);
    }
    FilterSecond(IsGlobalUnknown, [Pair([T_UNSIGNED_TX], Stripped(p.unsignedTx))], p.unknownGlobal);
  }

  lemma UnsignedTxGroup(p: Psbt)
    requires WellFormed(p)
    ensures TypeList(Sort(GlobalPairs(p)), T_UNSIGNED_TX) == Sort(Single(Some(Stripped(p.unsignedTx))))
  {
    var f, value := x => HasType(T_UNSIGNED_TX, x), Single(Some(Stripped(p.unsignedTx)));
    var head := WithType(T_UNSIGNED_TX, value);
    SingleWithType(T_UNSIGNED_TX, Stripped(p.unsignedTx));
    GlobalPairsDistinct(p);
    TypeListOfFilter(Sort(GlobalPairs(p)), T_UNSIGNED_TX);
    FilterSort(f, GlobalPairs(p));
    forall q | q in p.unknownGlobal
      ensures !f(q)
    {
      assert GlobalUnknownOk(q);
    }
    FilterFirst(f, head, p.unknownGlobal);
    SortWithType(T_UNSIGNED_TX, value);
    StripWithType(T_UNSIGNED_TX, Sort(value));
  }

  lemma GlobalFieldOk(p: Psbt, q: Pair)
    requires WellFormed(p) && q in GlobalPairs(p)
    ensures ReadGlobalField(q).Ok?
  {
    if q in p.unknownGlobal {
      assert GlobalUnknownOk(q);
      SplitKeyFirst(q.key);
    } else {
      ParseOfUnsigned(p.unsignedTx);
    }
  }

  lemma GlobalRoundTrip(p: Psbt)
    requires WellFormed(p)
    ensures ParseGlobalMap(Sort(GlobalPairs(p))) == Ok(Global(0, Some(p.unsignedTx), Sort(p.unknownGlobal)))
  {
    var ps := Sort(GlobalPairs(p));
    SortCorrect(GlobalPairs(p));
    forall q | q in ps
      ensures ReadGlobalField(q).Ok?
    {
      GlobalFieldOk(p, q);
    }
    ParseGlobalMapDecodes(ps);
    GlobalUnknownGroup(p);
    UnsignedTxGroup(p);
    SortSingle(Some(Stripped(p.unsignedTx)));
    ParseOfUnsigned(p.unsignedTx);
  }

  // ---------------------------------------------------- input and output maps

  ghost predicate PairsFit(ps: seq<Pair>) { forall p :: p in ps ==> PairFits(p) }

  /** Reading a list of maps back: exactly when every one of them survives. */
  lemma {:induction false} ReadManyExact<S(!new), T>(
      p: bytes -> Reading<T>, enc: S -> bytes, f: S -> T, good: S -> bool, xs: seq<S>, rest: bytes)
    requires forall x, r :: x in xs && good(x) ==> p(enc(x) + r) == Ok(Parsed(f(x), r))
    requires forall x, r :: x in xs && !good(x) ==> p(enc(x) + r).Err? || p(enc(x) + r).value.value != f(x)
    ensures (forall x :: x in xs ==> good(x)) ==>
      ReadMany(p, Flat(enc, xs) + rest, |xs|) == Ok(Parsed(MapSeq(f, xs), rest))
    ensures !(forall x :: x in xs ==> good(x)) ==>
      var r := ReadMany(p, Flat(enc, xs) + rest, |xs|); r.Err? || r.value.value != MapSeq(f, xs)
  {
    if xs == [] {
      assert Flat(enc, xs) + rest == rest;
    } else {
      var tail := Flat(enc, xs[1..]) + rest;
      Assoc(enc(xs[0]), Flat(enc, xs[1..]), rest);
      ReadManyExact(p, enc, f, good, xs[1..], rest);
      assert MapSeq(f, xs) == [f(xs[0])] + MapSeq(f, xs[1..]);
      assert xs == [xs[0]] + xs[1..];
      var r := ReadMany(p, enc(xs[0]) + tail, |xs|);
      if r.Ok? {
        var x := p(enc(xs[0]) + tail).value;
        var more := ReadMany(p, x.rest, |xs| - 1).value;
        assert r.value.value[0] == x.value && r.value.value[1..] == more.value;
        assert MapSeq(f, xs)[1..] == MapSeq(f, xs[1..]);
      }
    }
  }

  lemma ReadInputMapOfBytes(i: Input, rest: bytes)
    requires InputWellFormed(i) && PairsFit(InputPairs(i))
    ensures Faithful(i) ==> ReadInputMap(InputMapBytes(i) + rest) == Ok(Parsed(Canonical(i), rest))
    ensures !Faithful(i) ==>
      var r := ReadInputMap(InputMapBytes(i) + rest); r.Err? || r.value.value != Canonical(i)
  {
    InputPairsDistinct(i);
    ReadPairsOfMapBytes(InputPairs(i), rest);
    InputRoundTrip(i);
  }

  lemma {:induction false} ParseOutputMapKeeps(ps: seq<Pair>)
    requires forall p :: p in ps ==> CheckOutputField(p).Ok?
    ensures ParseOutputMap(ps) == Ok(ps)
  {
    if ps != [] {
      var front, p := ps[..|ps| - 1], ps[|ps| - 1];
      assert ps == front + [p];
      assert p in ps;
      ParseOutputMapKeeps(front);
    }
  }

  lemma ReadOutputMapOfBytes(o: seq<Pair>, rest: bytes)
    requires OutputWellFormed(o) && PairsFit(o)
    ensures ReadOutputMap(MapBytes(o) + rest) == Ok(Parsed(Sort(o), rest))
  {
    ReadPairsOfMapBytes(o, rest);
    SortCorrect(o);
    ParseOutputMapKeeps(Sort(o));
  }

  // ----------------------------------------------- lengths follow from the size

  lemma {:induction false} FlatContains<T>(enc: T -> bytes, xs: seq<T>, x: T)
    requires x in xs
    ensures |enc(x)| <= |Flat(enc, xs)|
  {
    if x != xs[0] {
      assert xs == [xs[0]] + xs[1..];
      FlatContains(enc, xs[1..], x);
    }
  }

  lemma PairsFitBySize(ps: seq<Pair>)
    requires |MapBytes(ps)| <= PSBT_MAX_SIZE
    requires forall p :: p in ps ==> p.key != []
    ensures PairsFit(ps)
  {
    SortCorrect(ps);
    forall p | p in ps
      ensures PairFits(p)
    {
      FlatContains(PairBytes, Sort(ps), p);
    }
  }

  lemma InputKeysNonEmpty(i: Input)
    requires InputWellFormed(i)
    ensures forall p :: p in InputPairs(i) ==> p.key != []
  {
    forall p | p in InputPairs(i)
      ensures p.key != []
    {
      if p in i.unknown { assert UnknownOk(p); } else { TypedPairsMember(i, TYPED, p); }
    }
  }

  lemma AllPairsFit(p: Psbt)
    requires WellFormed(p) && |Serialize(p)| <= PSBT_MAX_SIZE
    ensures PairsFit(GlobalPairs(p))
    ensures forall i :: i in p.inputs ==> PairsFit(InputPairs(i))
    ensures forall o :: o in p.outputs ==> PairsFit(o)
  {
    PairsFitBySize(GlobalPairs(p)) by {
      forall q | q in GlobalPairs(p)
        ensures q.key != []
      {
        if q in p.unknownGlobal { assert GlobalUnknownOk(q); }
      }
    }
    forall i | i in p.inputs
      ensures PairsFit(InputPairs(i))
    {
      FlatContains(InputMapBytes, p.inputs, i);
      InputKeysNonEmpty(i);
      PairsFitBySize(InputPairs(i));
    }
    forall o | o in p.outputs
      ensures PairsFit(o)
    {
      FlatContains(MapBytes, p.outputs, o);
      forall q | q in o
        ensures q.key != []
      {
        assert CheckOutputField(q).Ok?;
      }
      PairsFitBySize(o);
    }
  }

  // ------------------------------------------------------------- the container

  lemma ReadInputsOfBytes(p: Psbt, rest: bytes)
    requires WellFormed(p) && forall i :: i in p.inputs ==> PairsFit(InputPairs(i))
    ensures AllFaithful(p) ==>
      ReadMany(ReadInputMap, Flat(InputMapBytes, p.inputs) + rest, |p.inputs|)
        == Ok(Parsed(MapSeq(Canonical, p.inputs), rest))
    ensures !AllFaithful(p) ==>
      var r := ReadMany(ReadInputMap, Flat(InputMapBytes, p.inputs) + rest, |p.inputs|);
      r.Err? || r.value.value != MapSeq(Canonical, p.inputs)
  {
    hide ReadMany, ReadInputMap, InputMapBytes, InputWellFormed, Faithful, OutputWellFormed, TxFits, Flat;
    forall i, r | i in p.inputs
      ensures Faithful(i) ==> ReadInputMap(InputMapBytes(i) + r) == Ok(Parsed(Canonical(i), r))
      ensures !Faithful(i) ==>
        ReadInputMap(InputMapBytes(i) + r).Err? || ReadInputMap(InputMapBytes(i) + r).value.value != Canonical(i)
    {
      ReadInputMapOfBytes(i, r);
    }
    ReadManyExact(ReadInputMap, InputMapBytes, Canonical, Faithful, p.inputs, rest);
    assert AllFaithful(p) <==> forall i :: i in p.inputs ==> Faithful(i);
  }

  lemma ReadOutputsOfBytes(p: Psbt, rest: bytes)
    requires WellFormed(p) && forall o :: o in p.outputs ==> PairsFit(o)
    ensures ReadMany(ReadOutputMap, Flat(MapBytes, p.outputs) + rest, |p.outputs|)
         == Ok(Parsed(MapSeq(Sort, p.outputs), rest))
  {
    forall o, r | o in p.outputs
      ensures ReadOutputMap(MapBytes(o) + r) == Ok(Parsed(Sort(o), r))
    {
      ReadOutputMapOfBytes(o, r);
    }
    ReadManyOfFlat(ReadOutputMap, MapBytes, Sort, p.outputs, rest);
  }

  /** The result of parsing, from the results of its stages. */
  lemma ParseMapsStages(data: bytes, body: bytes, pairs: Parsed<seq<Pair>>, tx: Tx, unknown: seq<Pair>)
    requires ReadPairs(body, {}) == Ok(pairs)
    requires ParseGlobalMap(pairs.value) == Ok(Global(0, Some(tx), unknown))
    ensures var ins := ReadMany(ReadInputMap, pairs.rest, |tx.vin|);
      && (ins.Err? ==> ParseMaps(data, body).Err?)
      && (ins.Ok? ==> var outs := ReadMany(ReadOutputMap, ins.value.rest, |tx.vout|);
            && (outs.Ok? && outs.value.rest == [] ==>
                  ParseMaps(data, body) == Ok(Psbt(0, tx, ins.value.value, outs.value.value, unknown)))
            && (outs.Err? || outs.value.rest != [] ==> ParseMaps(data, body).Err?))
  {}

  lemma ParseMapsOfBytes(p: Psbt, data: bytes, body: bytes)
    requires WellFormed(p) && |Serialize(p)| <= PSBT_MAX_SIZE
    requires body == MapBytes(GlobalPairs(p)) + (Flat(InputMapBytes, p.inputs) + Flat(MapBytes, p.outputs))
    ensures ParseMaps(data, body) == Ok(CanonicalPsbt(p)) <==> AllFaithful(p)
  {
    hide ReadMany, ReadInputMap, ReadOutputMap, ReadPairs, MapBytes, Flat, Sort, ParseGlobalMap, PairsFit, Serialize;
    var ins, outs := Flat(InputMapBytes, p.inputs), Flat(MapBytes, p.outputs);
    var pairs := Parsed(Sort(GlobalPairs(p)), ins + outs);
    AllPairsFit(p);
    GlobalPairsDistinct(p);
    ReadPairsOfMapBytes(GlobalPairs(p), ins + outs);
    GlobalRoundTrip(p);
    ParseMapsStages(data, body, pairs, p.unsignedTx, Sort(p.unknownGlobal));
    ReadInputsOfBytes(p, outs);
    ReadOutputsOfBytes(p, []);
    assert outs + [] == outs;
  }

  /** Parsing undoes serializing up to the order inside each map: for every
      well-formed container within the size cap, exactly when it holds no value
      the encoding cannot carry. Above the cap it is refused. */
  lemma ParseOfSerialize(p: Psbt)
    requires WellFormed(p)
    ensures |Serialize(p)| > PSBT_MAX_SIZE ==> ParsePsbt(Serialize(p)) == Err(TooLarge)
    ensures |Serialize(p)| <= PSBT_MAX_SIZE ==>
      (ParsePsbt(Serialize(p)) == Ok(CanonicalPsbt(p)) <==> AllFaithful(p))
  {
    if |Serialize(p)| <= PSBT_MAX_SIZE {
      var body := MapBytes(GlobalPairs(p)) + (Flat(InputMapBytes, p.inputs) + Flat(MapBytes, p.outputs));
      assert Serialize(p)[..|MAGIC|] == MAGIC && Serialize(p)[|MAGIC|..] == body;
      ParseMapsOfBytes(p, Serialize(p), body);
    }
  }
}
