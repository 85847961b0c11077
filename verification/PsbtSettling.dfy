/** The second pass through parser and writer: exactly which containers settle after
    one, with examples on both sides. */
module PsbtSettling {
  import opened Bytes
  import opened Wire
  import opened KeyMaps
  import opened PsbtMaps
  import opened Transactions
  import opened Psbts
  import opened PsbtCodec
  import opened PsbtRoundTrip
  import opened PsbtStability
  import opened Exactness
  import opened PsbtExact
  import opened PsbtCanonical

  // ------------------------------------------------------- which containers settle

  /** The previous transaction is written so that it reads back as what is written again
      the same way. */
  predicate SettledInput(i: Input) {
    i.nonWitnessUtxo.Some? ==> NarrowTx(WireBytes(i.nonWitnessUtxo.value), true)
  }

  predicate Settled(p: Psbt) { forall i :: 0 <= i < |p.inputs| ==> SettledInput(p.inputs[i]) }

  /** Only the ambiguous shape can fail to settle. */
  lemma UnambiguousSettles(tx: Tx)
    requires TxFits(tx) && !Ambiguous(tx)
    ensures NarrowTx(WireBytes(tx), true)
  {
    hide NarrowTx, ParseTx, WireBytes, TxFits;
    ParseOfWire(tx);
    ExactTx(WireBytes(tx));
  }

  /** Entries of a settled input are accepted and are kept. */
  lemma SettledEntry(i: Input, t: byte, q: Pair)
    requires InputWellFormed(i) && SettledInput(i) && q in ListOf(i, t)
    ensures EntryOk(t, q.key, q.value) && Kept(t, q.value)
  {
    hide WireBytes, OutBytes, ParseTx, NarrowOut, NarrowBody, TxFits;
    if t == T_NON_WITNESS_UTXO {
      assert NarrowTx(q.value, true);
    } else if t == T_WITNESS_UTXO {
      DecodeOutOfBytes(i.witnessUtxo.value);
      RewrittenOutput(q.value);
    }
  }

  lemma SettledField(i: Input, p: Pair)
    requires InputWellFormed(i) && SettledInput(i) && p in InputPairs(i)
    ensures ReadField(p).Ok? && KeptEntry(p)
  {
    hide SettledInput, EntryOk, Kept, ListOf, TypedPairs, ReadTypedField;
    if p in i.unknown {
      assert UnknownOk(p);
      UnknownIsRead(p);
    } else {
      TypedPairsMember(i, TYPED, p);
      SettledEntry(i, p.key[0], Pair(p.key[1..], p.value));
      TypedFieldOk(p);
    }
  }

  lemma UnknownIsRead(p: Pair)
    requires UnknownOk(p)
    ensures ReadField(p).Ok? && KeptEntry(p)
  {
    SplitKeyFirst(p.key);
  }

  /** An input whose written entries are kept is settled. */
  lemma KeptIsSettled(i: Input)
    requires InputWellFormed(i) && AllKept(InputPairs(i))
    ensures SettledInput(i)
  {
    hide WireBytes, NarrowTx, InputWellFormed;
    if i.nonWitnessUtxo.Some? {
      var p := Pair([T_NON_WITNESS_UTXO], WireBytes(i.nonWitnessUtxo.value));
      assert Pair(p.key[1..], p.value) == Pair([], p.value);
      TypedPairsMember(i, TYPED, p);
      hide TypedPairs;
      assert KeptEntry(p);
    }
  }

  lemma WrittenMapIsNarrow(ps: seq<Pair>, rest: bytes)
    requires Distinct(ps) && forall p :: p in ps ==> PairFits(p)
    ensures NarrowPairs(MapBytes(ps) + rest)
  {
    hide NarrowPairs, ReadPairs, PairFits;
    ReadPairsOfMapBytes(ps, rest);
    SortCorrect(ps);
    WeightSort(ps);
    SortOfSorted(Sort(ps));
    SortedSameBytes(ps);
    ExactMap(MapBytes(ps) + rest, Sort(ps), rest, ps);
    hide MapBytes, Sort, PairsSize;
  }

  predicate ReadsInFront<T>(p: bytes -> Reading<T>, b: bytes, rest: bytes) { p(b).Ok? && p(b).value.rest == rest }

  /** A written input map is canonical exactly if the input is settled. */
  lemma InputSettles(i: Input, rest: bytes)
    requires InputWellFormed(i) && PairsFit(InputPairs(i))
    ensures var b := InputMapBytes(i) + rest;
      ReadsInFront(ReadInputMap, b, rest) && CanonicalInputMap(b) <==> SettledInput(i)
    ensures var b := InputMapBytes(i) + rest; ReadInputMap(b).Ok? ==> ReadsInFront(ReadInputMap, b, rest)
  {
    hide NarrowPairs, ReadPairs, ParseInputMap, InputPairs, KeptEntry, SettledInput, MapBytes, Sort, InputWellFormed, Distinct;
    var ps := InputPairs(i);
    InputPairsDistinct(i);
    SortCorrect(ps);
    ReadPairsOfMapBytes(ps, rest);
    WrittenMapIsNarrow(ps, rest);
    MapNotEmpty(ps, rest);
    if SettledInput(i) {
      forall p | p in Sort(ps)
        ensures ReadField(p).Ok? && KeptEntry(p)
      {
        SettledField(i, p);
      }
      ParseInputMapDecodes(Sort(ps));
    }
    if AllKept(Sort(ps)) { KeptIsSettled(i); }
  }

  lemma MapNotEmpty(ps: seq<Pair>, rest: bytes)
    ensures MapBytes(ps) + rest != []
  {}

  lemma OutputSettles(o: seq<Pair>, rest: bytes)
    requires OutputWellFormed(o) && PairsFit(o)
    ensures var b := MapBytes(o) + rest; ReadsInFront(ReadOutputMap, b, rest) && CanonicalOutputMap(b)
  {
    hide NarrowPairs, ReadPairs, MapBytes, Sort;
    ReadOutputMapOfBytes(o, rest);
    ReadPairsOfMapBytes(o, rest);
    WrittenMapIsNarrow(o, rest);
    SortCorrect(o);
  }

  /** A list of written items is read as narrow exactly if each item is good. */
  lemma {:induction false} ManySettle<S(!new), T>(
      p: bytes -> Reading<T>, enc: S -> bytes, narrow: bytes -> bool, good: S -> bool, xs: seq<S>, rest: bytes)
    requires forall x, r :: x in xs ==> (ReadsInFront(p, enc(x) + r, r) && narrow(enc(x) + r) <==> good(x))
    requires forall x, r :: x in xs && p(enc(x) + r).Ok? ==> ReadsInFront(p, enc(x) + r, r)
    ensures var b := Flat(enc, xs) + rest;
      && (NarrowMany(p, narrow, b, |xs|) <==> forall x :: x in xs ==> good(x))
      && (NarrowMany(p, narrow, b, |xs|) ==> ReadMany(p, b, |xs|).Ok? && ReadMany(p, b, |xs|).value.rest == rest)
  {
    if xs == [] {
      assert Flat(enc, xs) + rest == rest;
    } else {
      var tail := Flat(enc, xs[1..]) + rest;
      Assoc(enc(xs[0]), Flat(enc, xs[1..]), rest);
      assert xs == [xs[0]] + xs[1..];
      assert ReadsInFront(p, enc(xs[0]) + tail, tail) && narrow(enc(xs[0]) + tail) <==> good(xs[0]);
      ManySettle(p, enc, narrow, good, xs[1..], rest);
    }
  }

  lemma InputsSettle(p: Psbt, rest: bytes)
    requires WellFormed(p) && forall i :: i in p.inputs ==> PairsFit(InputPairs(i))
    ensures var b := Flat(InputMapBytes, p.inputs) + rest; var n := |p.inputs|;
      && (NarrowMany(ReadInputMap, CanonicalInputMap, b, n) <==> Settled(p))
      && (NarrowMany(ReadInputMap, CanonicalInputMap, b, n) ==>
            ReadMany(ReadInputMap, b, n).Ok? && ReadMany(ReadInputMap, b, n).value.rest == rest)
  {
    hide ReadInputMap, InputMapBytes, CanonicalInputMap, InputWellFormed, SettledInput, ReadsInFront, PairsFit, OutputWellFormed,
         GlobalUnknownOk, TxFits;
    forall i, r | i in p.inputs
      ensures ReadsInFront(ReadInputMap, InputMapBytes(i) + r, r) && CanonicalInputMap(InputMapBytes(i) + r) <==> SettledInput(i)
      ensures ReadInputMap(InputMapBytes(i) + r).Ok? ==> ReadsInFront(ReadInputMap, InputMapBytes(i) + r, r)
    {
      InputSettles(i, r);
    }
    ManySettle(ReadInputMap, InputMapBytes, CanonicalInputMap, SettledInput, p.inputs, rest);
    assert Settled(p) <==> forall i :: i in p.inputs ==> SettledInput(i);
  }

  function Always<T>(x: T): bool { true }

  lemma OutputsSettle(p: Psbt)
    requires WellFormed(p) && forall o :: o in p.outputs ==> PairsFit(o)
    ensures var b := Flat(MapBytes, p.outputs); var n := |p.outputs|;
      && NarrowMany(ReadOutputMap, CanonicalOutputMap, b, n)
      && ReadMany(ReadOutputMap, b, n).Ok? && ReadMany(ReadOutputMap, b, n).value.rest == []
  {
    hide ReadOutputMap, MapBytes, CanonicalOutputMap, OutputWellFormed, ReadsInFront, PairsFit, InputWellFormed, GlobalUnknownOk,
         TxFits;
    forall o, r | o in p.outputs
      ensures ReadsInFront(ReadOutputMap, MapBytes(o) + r, r) && CanonicalOutputMap(MapBytes(o) + r)
    {
      OutputSettles(o, r);
    }
    ManySettle(ReadOutputMap, MapBytes, CanonicalOutputMap, Always, p.outputs, []);
    assert Flat(MapBytes, p.outputs) + [] == Flat(MapBytes, p.outputs);
  }

  /** The written global map is canonical. */
  lemma GlobalSettles(p: Psbt, rest: bytes)
    requires WellFormed(p) && PairsFit(GlobalPairs(p))
    ensures var b := MapBytes(GlobalPairs(p)) + rest;
      && ReadPairs(b, {}) == Ok(Parsed(Sort(GlobalPairs(p)), rest)) && NarrowPairs(b) && Sorted(Sort(GlobalPairs(p)))
      && GlobalAllKept(Sort(GlobalPairs(p)))
  {
    hide NarrowPairs, ReadPairs, ParseGlobalMap, MapBytes, Sort, GlobalAllKept, Stripped, InputWellFormed, OutputWellFormed;
    GlobalPairsDistinct(p);
    ReadPairsOfMapBytes(GlobalPairs(p), rest);
    GlobalRoundTrip(p);
    GlobalSameBytes(p);
    ExactGlobalMap(MapBytes(GlobalPairs(p)) + rest);
  }

  lemma WrittenMapsSettle(p: Psbt, body: bytes)
    requires WellFormed(p) && |Serialize(p)| <= PSBT_MAX_SIZE
    requires body == MapBytes(GlobalPairs(p)) + (Flat(InputMapBytes, p.inputs) + Flat(MapBytes, p.outputs))
    ensures CanonicalMaps(body, |p.inputs|, |p.outputs|) <==> Settled(p)
  {
    hide NarrowMany, ReadMany, NarrowPairs, ReadPairs, MapBytes, Flat, Sort, Sorted, GlobalAllKept, WellFormed, PairsFit, Settled,
         Serialize, ReadInputMap, ReadOutputMap, GlobalPairs;
    var ins, outs := Flat(InputMapBytes, p.inputs), Flat(MapBytes, p.outputs);
    AllPairsFit(p);
    GlobalSettles(p, ins + outs);
    InputsSettle(p, outs);
    OutputsSettle(p);
  }

  /** The parser reads as many maps as were written. */
  lemma ReadsAsManyMaps(p: Psbt)
    requires WellFormed(p) && ParsePsbt(Serialize(p)).Ok? && |Serialize(p)| <= PSBT_MAX_SIZE
    ensures |ParsePsbt(Serialize(p)).value.inputs| == |p.inputs| && |ParsePsbt(Serialize(p)).value.outputs| == |p.outputs|
  {
    hide ReadMany, ReadPairs, MapBytes, Flat, Sort, ParseGlobalMap, PairsFit, InputWellFormed, OutputWellFormed, GlobalPairs;
    var rest := Flat(InputMapBytes, p.inputs) + Flat(MapBytes, p.outputs);
    var body := MapBytes(GlobalPairs(p)) + rest;
    SuffixOf(MAGIC, body);
    AllPairsFit(p);
    GlobalPairsDistinct(p);
    ReadPairsOfMapBytes(GlobalPairs(p), rest);
    GlobalRoundTrip(p);
    ParseMapsStages(Serialize(p), body, Parsed(Sort(GlobalPairs(p)), rest), p.unsignedTx, Sort(p.unknownGlobal));
    var ins := ReadMany(ReadInputMap, rest, |p.unsignedTx.vin|);
    ReadManyCount(ReadInputMap, rest, |p.unsignedTx.vin|);
    if ins.Ok? { ReadManyCount(ReadOutputMap, ins.value.rest, |p.unsignedTx.vout|); }
    hide ParseMaps;
  }

  /** Which containers one pass settles, for every byte string the parser accepts: what
      is written is accepted and written again as it is, in canonical form, exactly when
      the wire bytes of every previous transaction read back as what is written that way.
      That can only fail for the shape without inputs and with a single output. */
  lemma OnePassSettles(data: bytes)
    requires ParsePsbt(data).Ok?
    ensures var p := ParsePsbt(data).value; var again := Serialize(p);
      && (CanonicalForm(again) <==> Settled(p))
      && (Settled(p) <==> ParsePsbt(again).Ok? && Serialize(ParsePsbt(again).value) == again)
    ensures Unambiguous(ParsePsbt(data).value) ==> Settled(ParsePsbt(data).value)
  {
    hide CanonicalMaps, WellFormed, ParseMaps, MapBytes, GlobalPairs, InputMapBytes, Flat, Settled;
    var p := ParsePsbt(data).value;
    var again := Serialize(p);
    assert |data| <= PSBT_MAX_SIZE;
    ParsedWellFormed(data);
    SerializeOfParse(data);
    var body := MapBytes(GlobalPairs(p)) + (Flat(InputMapBytes, p.inputs) + Flat(MapBytes, p.outputs));
    SuffixOf(MAGIC, body);
    WrittenMapsSettle(p, body);
    if CanonicalMaps(body, |p.inputs|, |p.outputs|) { WrittenMapsAccepted(p, again, body); }
    if ParsePsbt(again).Ok? {
      ReadsAsManyMaps(p);
      SerializeOfParse(again);
    }
    if Unambiguous(p) { UnambiguousIsSettled(p); }
  }

  /** Canonical maps of a well-formed container are accepted. */
  lemma WrittenMapsAccepted(p: Psbt, data: bytes, body: bytes)
    requires WellFormed(p) && |Serialize(p)| <= PSBT_MAX_SIZE
    requires body == MapBytes(GlobalPairs(p)) + (Flat(InputMapBytes, p.inputs) + Flat(MapBytes, p.outputs))
    requires CanonicalMaps(body, |p.inputs|, |p.outputs|)
    ensures ParseMaps(data, body).Ok?
  {
    hide NarrowMany, ReadMany, NarrowPairs, ReadPairs, MapBytes, Flat, Sort, Sorted, GlobalAllKept, PairsFit, Settled, Serialize,
         ReadInputMap, ReadOutputMap, GlobalPairs, InputWellFormed, OutputWellFormed, ParseGlobalMap;
    var ins, outs := Flat(InputMapBytes, p.inputs), Flat(MapBytes, p.outputs);
    AllPairsFit(p);
    GlobalSettles(p, ins + outs);
    GlobalRoundTrip(p);
    InputsSettle(p, outs);
    OutputsSettle(p);
    ParseMapsStages(data, body, Parsed(Sort(GlobalPairs(p)), ins + outs), p.unsignedTx, Sort(p.unknownGlobal));
    hide ParseMaps;
  }

  // ------------------------------------------------ what the second pass reads

  /** The input without the final fields that the writer leaves out. */
  function DropEmpty(i: Input): Input {
    i.(finalScriptSig := NonEmpty(i.finalScriptSig), finalScriptWitness := NonEmpty(i.finalScriptWitness))
  }

  function DropAllEmpty(p: Psbt): Psbt { p.(inputs := MapSeq(DropEmpty, p.inputs)) }

  /** No previous transaction without inputs that re-reads as a marker. */
  predicate Unambiguous(p: Psbt) {
    forall i :: 0 <= i < |p.inputs| && p.inputs[i].nonWitnessUtxo.Some? ==> !Ambiguous(p.inputs[i].nonWitnessUtxo.value)
  }

  lemma DropEmptyLists(i: Input, t: byte)
    ensures ListOf(DropEmpty(i), t) == ListOf(i, t)
  {
    hide TxValue, OutValue, NumberValue;
  }

  lemma {:induction false} DropEmptyPairs(i: Input, types: seq<byte>)
    ensures TypedPairs(DropEmpty(i), types) == TypedPairs(i, types)
  {
    hide ListOf;
    if types != [] {
      DropEmptyLists(i, types[0]);
      DropEmptyPairs(i, types[1..]);
    }
  }

  lemma DropEmptyBytes(p: Psbt)
    ensures Serialize(DropAllEmpty(p)) == Serialize(p)
  {
    hide TypedPairs, MapBytes;
    forall i | 0 <= i < |p.inputs|
      ensures InputMapBytes(DropEmpty(p.inputs[i])) == InputMapBytes(p.inputs[i])
    {
      DropEmptyPairs(p.inputs[i], TYPED);
    }
    FlatSame(InputMapBytes, InputMapBytes, DropAllEmpty(p).inputs, p.inputs);
  }

  lemma DropEmptyWellFormed(p: Psbt)
    requires WellFormed(p) && Unambiguous(p)
    ensures WellFormed(DropAllEmpty(p)) && AllFaithful(DropAllEmpty(p))
  {
    hide TxFits, Ambiguous, Distinct, UnknownOk, PubKeyLength, OutputWellFormed;
    var d := DropAllEmpty(p);
    forall i | 0 <= i < |d.inputs|
      ensures InputWellFormed(d.inputs[i]) && Faithful(d.inputs[i])
    {
      assert InputWellFormed(p.inputs[i]);
    }
  }

  /** Reading back what one pass wrote gives the same container in key order, exactly
      when it holds no value the encoding cannot carry. */
  lemma SecondPassReadsTheSame(data: bytes)
    requires ParsePsbt(data).Ok?
    ensures var p := ParsePsbt(data).value; ParsePsbt(Serialize(p)) == Ok(CanonicalPsbt(p)) <==> AllFaithful(p)
  {
    hide Serialize, WellFormed, AllFaithful, CanonicalPsbt, CanonicalForm;
    assert |data| <= PSBT_MAX_SIZE;
    hide ParsePsbt;
    ParsedWellFormed(data);
    SerializeOfParse(data);
    ParseOfSerialize(ParsePsbt(data).value);
  }

  /** One pass settles the bytes: what it writes is accepted and is written again as it
      is, unless a previous transaction re-reads as a marker. */
  lemma SecondPassChangesNothing(data: bytes)
    requires ParsePsbt(data).Ok? && Unambiguous(ParsePsbt(data).value)
    ensures var again := Serialize(ParsePsbt(data).value);
      && CanonicalForm(again)
      && ParsePsbt(again) == Ok(CanonicalPsbt(DropAllEmpty(ParsePsbt(data).value)))
      && Serialize(ParsePsbt(again).value) == again
  {
    hide Serialize, CanonicalForm, WellFormed, AllFaithful, CanonicalPsbt, DropAllEmpty, Unambiguous;
    var p := ParsePsbt(data).value;
    assert |data| <= PSBT_MAX_SIZE;
    hide ParsePsbt;
    ParsedWellFormed(data);
    SerializeOfParse(data);
    DropEmptyWellFormed(p);
    DropEmptyBytes(p);
    ParseOfSerialize(DropAllEmpty(p));
    CanonicalPsbtSameBytes(DropAllEmpty(p));
    SerializeOfParse(Serialize(p));
  }

  lemma UnambiguousIsSettled(p: Psbt)
    requires WellFormed(p) && Unambiguous(p)
    ensures Settled(p)
  {
    hide NarrowTx, WireBytes, Ambiguous, TxFits;
    forall i | 0 <= i < |p.inputs| && p.inputs[i].nonWitnessUtxo.Some?
      ensures SettledInput(p.inputs[i])
    {
      assert InputWellFormed(p.inputs[i]);
      UnambiguousSettles(p.inputs[i].nonWitnessUtxo.value);
    }
  }

  // ------------------------------------------------ an ambiguous container on each side

  const SPENDING_TX := Tx(2, [TxIn(LE(0, 32), 0, [], 0, [])], [TxOut(0, [])], 0)

  /** A transaction written behind a marker, whether it has a witness or not. */
  function MarkedForm(tx: Tx): bytes { VersionBytes(tx) + (MARKER_AND_FLAG + WitnessBody(tx)) }

  lemma ReadsMarkedForm(tx: Tx)
    requires TxFits(tx)
    ensures ParseTx(MarkedForm(tx), true) == Ok(tx)
  {
    hide VersionBytes, ReadBody, WitnessBody;
    ReadVersion(tx, MARKER_AND_FLAG + WitnessBody(tx));
    SuffixOf(MARKER_AND_FLAG, WitnessBody(tx));
    ReadBodyOfWitness(tx);
  }

  /** The parser reads the marked form, but not what the writer makes of it. */
  lemma MarkedPreviousDoesNotSettle()
    ensures ParseTx(MarkedForm(NO_INPUT_TX), true) == Ok(NO_INPUT_TX)
    ensures ParseTx(WireBytes(NO_INPUT_TX), true).Err?
  {
    hide VersionBytes, ReadBody, WitnessBody, StrippedBody;
    NoInputTxSize();
    ReadsMarkedForm(NO_INPUT_TX);
    var tail := OutBytes(TxOut(0, [])) + LE(0, 4);
    AmbiguousShape(NO_INPUT_TX);
    ReadVersion(NO_INPUT_TX, MARKER_AND_FLAG + tail);
    SuffixOf(MARKER_AND_FLAG, tail);
    ZerosAreNoBody(tail);
  }

  lemma ZerosAreNoBody(tail: bytes)
    requires tail == OutBytes(TxOut(0, [])) + LE(0, 4)
    ensures ReadBody(2, true, tail).Err?
  {
    assert LE(0, 8) == [0] + (LE(0, 3) + LE(0, 4)) && LE(0, 3) == [0, 0, 0];
    assert |tail| == 13 && tail[0] == 0 && tail[1..][0] == 0;
    assert ReadCounted(ReadIn, tail) == Ok(Parsed([], tail[1..]));
    assert ReadCounted(ReadOut, tail[1..]) == Ok(Parsed([], tail[1..][1..]));
    assert ReadWitness([], true, tail[1..][1..]) == Ok(Parsed([], tail[1..][1..]));
  }

  /** A container for `SPENDING_TX` whose input map holds one previous transaction. */
  function Spending(previous: bytes): bytes {
    MAGIC + (MapBytes([Pair([T_UNSIGNED_TX], Stripped(SPENDING_TX))])
             + (MapBytes([Pair([T_NON_WITNESS_UTXO], previous)]) + MapBytes([])))
  }

  function PreviousInput(previous: Tx): Input { EMPTY_INPUT.(nonWitnessUtxo := Some(previous)) }

  function SpendingPsbt(previous: Tx): Psbt {
    Psbt(0, SPENDING_TX, [PreviousInput(previous)], [[]], [])
  }

  lemma SpendingTxSize()
    ensures |Stripped(SPENDING_TX)| == 60 && TxFits(SPENDING_TX) && NoStacks(SPENDING_TX)
  {
    assert Flat(OutBytes, SPENDING_TX.vout) == OutBytes(TxOut(0, [])) + Flat(OutBytes, SPENDING_TX.vout[1..]);
    assert Flat(InBytes, SPENDING_TX.vin) == InBytes(SPENDING_TX.vin[0]) + Flat(InBytes, SPENDING_TX.vin[1..]);
  }

  lemma OnePairMap(p: Pair, rest: bytes)
    requires p.key != [] && |p.key| < 10 && |p.value| < 100
    ensures |MapBytes([p])| <= 200 && Sort([p]) == [p] && MapBytes([p]) == PairBytes(p) + [0]
    ensures ReadPairs(MapBytes([p]) + rest, {}) == Ok(Parsed([p], rest))
  {
    SortOfSorted([p]);
    ReadPairsOfMapBytes([p], rest);
    assert Flat(PairBytes, [p]) == PairBytes(p) + [];
  }

  lemma OnePreviousInput(previous: bytes)
    ensures ParseTx(previous, true).Ok? ==>
      ParseInputMap([Pair([T_NON_WITNESS_UTXO], previous)]) == Ok(PreviousInput(ParseTx(previous, true).value))
    ensures ParseTx(previous, true).Err? ==> ParseInputMap([Pair([T_NON_WITNESS_UTXO], previous)]).Err?
  {
    hide ParseTx;
    var ps := [Pair([T_NON_WITNESS_UTXO], previous)];
    assert ps[..0] == [];
    assert ParseInputMap([]) == Ok(EMPTY_INPUT);
  }

  lemma SpendingGlobal()
    ensures ParseGlobalMap([Pair([T_UNSIGNED_TX], Stripped(SPENDING_TX))]) == Ok(Global(0, Some(SPENDING_TX), []))
  {
    hide Stripped, ParseTx;
    SpendingTxSize();
    ParseOfUnsigned(SPENDING_TX);
    var ps := [Pair([T_UNSIGNED_TX], Stripped(SPENDING_TX))];
    assert ps[..0] == [];
    assert ParseGlobalMap([]) == Ok(Global(0, None, []));
  }

  lemma OneInputMap(previous: bytes, rest: bytes)
    requires |previous| < 100
    ensures var r := ReadMany(ReadInputMap, MapBytes([Pair([T_NON_WITNESS_UTXO], previous)]) + rest, 1);
      && (ParseTx(previous, true).Ok? ==>
            r == Ok(Parsed([PreviousInput(ParseTx(previous, true).value)], rest)))
      && (ParseTx(previous, true).Err? ==> r.Err?)
  {
    hide ParseTx, ReadPairs, ParseInputMap;
    var p := Pair([T_NON_WITNESS_UTXO], previous);
    OnePairMap(p, rest);
    OnePreviousInput(previous);
    assert MapBytes([p]) + rest != [];
    hide MapBytes;
    var b := MapBytes([p]) + rest;
    assert ParseTx(previous, true).Ok? ==> ReadInputMap(b) == Ok(Parsed(PreviousInput(ParseTx(previous, true).value), rest));
    assert ParseTx(previous, true).Err? ==> ReadInputMap(b).Err?;
    hide ReadInputMap;
    ReadManyOne(ReadInputMap, b);
  }

  lemma ReadManyOne<T>(p: bytes -> Reading<T>, b: bytes)
    ensures p(b).Ok? ==> ReadMany(p, b, 1) == Ok(Parsed([p(b).value.value], p(b).value.rest))
    ensures p(b).Err? ==> ReadMany(p, b, 1).Err?
  {
    if p(b).Ok? {
      var x := p(b).value;
      assert ReadMany(p, x.rest, 0) == Ok(Parsed([], x.rest));
      assert [x.value] + [] == [x.value];
    }
  }

  lemma ParseOfSpending(previous: bytes)
    requires |previous| < 100
    ensures ParseTx(previous, true).Ok? ==> ParsePsbt(Spending(previous)) == Ok(SpendingPsbt(ParseTx(previous, true).value))
    ensures ParseTx(previous, true).Err? ==> ParsePsbt(Spending(previous)).Err?
  {
    hide MapBytes, Stripped, ReadPairs, ReadMany, ParseGlobalMap, ParseTx;
    var first := Pair([T_UNSIGNED_TX], Stripped(SPENDING_TX));
    var input, output := MapBytes([Pair([T_NON_WITNESS_UTXO], previous)]), MapBytes([]);
    var body := MapBytes([first]) + (input + output);
    SpendingTxSize();
    OnePairMap(first, input + output);
    OnePairMap(Pair([T_NON_WITNESS_UTXO], previous), output);
    EmptyMapSize();
    SpendingGlobal();
    SuffixOf(MAGIC, body);
    OneInputMap(previous, output);
    OneOutputMap([]);
    assert output + [] == output;
    ParseMapsStages(Spending(previous), body, Parsed([first], input + output), SPENDING_TX, []);
    hide ParseMaps, PairBytes;
  }

  lemma EmptyMapSize()
    ensures |MapBytes([])| == 1
  {
    assert Sort([]) == [];
  }

  lemma PreviousInputPairs(previous: Tx)
    ensures InputPairs(PreviousInput(previous)) == [Pair([T_NON_WITNESS_UTXO], WireBytes(previous))]
  {
    hide WireBytes;
    var i := PreviousInput(previous);
    SingleWithType(T_NON_WITNESS_UTXO, WireBytes(previous));
    forall t | t in TYPED[1..]
      ensures ListOf(i, t) == []
    {
      assert t != T_NON_WITNESS_UTXO;
    }
    NoTypedPairs(i, TYPED[1..]);
  }

  lemma SerializeOfSpending(previous: Tx)
    ensures Serialize(SpendingPsbt(previous)) == Spending(WireBytes(previous))
  {
    hide WireBytes, Stripped, MapBytes, InputPairs;
    var p := SpendingPsbt(previous);
    var i, none: seq<Pair> := p.inputs[0], [];
    PreviousInputPairs(previous);
    assert Flat(InputMapBytes, [i]) == InputMapBytes(i) + [] == InputMapBytes(i);
    assert Flat(MapBytes, [none]) == MapBytes(none) + [] == MapBytes(none);
    assert GlobalPairs(p) == [Pair([T_UNSIGNED_TX], Stripped(SPENDING_TX))];
    hide Flat, GlobalPairs;
  }

  /** One pass does not settle every container: this one is accepted, and what it is
      written as is refused. */
  lemma OnePassMayNotSettle()
    ensures ParsePsbt(Spending(MarkedForm(NO_INPUT_TX))) == Ok(SpendingPsbt(NO_INPUT_TX))
    ensures ParsePsbt(Serialize(SpendingPsbt(NO_INPUT_TX))).Err?
  {
    hide ParsePsbt, Serialize, Spending, ParseTx;
    MarkedPreviousDoesNotSettle();
    MarkedSize();
    ParseOfSpending(MarkedForm(NO_INPUT_TX));
    ParseOfSpending(WireBytes(NO_INPUT_TX));
    SerializeOfSpending(NO_INPUT_TX);
  }

  lemma MarkedSize()
    ensures |MarkedForm(NO_INPUT_TX)| < 100 && |WireBytes(NO_INPUT_TX)| < 100
  {
    NoInputTxSize();
    WireLength(NO_INPUT_TX);
    assert Flat(WitnessBytes, NO_INPUT_TX.vin) == [];
  }

  /** A transaction without inputs whose wire bytes are also those of one with an input
      and a witness. */
  const TWIN := Tx(2, [], [TxOut(1, LE(0, 24) + LE(0, 4) + [0] + LE(0, 4) + [0, 1, 1, 7])], 0)
  const TWIN_READ_BACK := Tx(2, [TxIn(LE(0, 7) + [37] + LE(0, 24), 0, [], 0, [[7]])], [], 0)

  lemma TwinOutput(z7: bytes, z24: bytes, z4: bytes)
    requires z7 == LE(0, 7) && z24 == LE(0, 24) && z4 == LE(0, 4)
    ensures OutBytes(TWIN.vout[0]) == [1] + z7 + ([37] + (z24 + z4 + [0] + z4 + [0, 1, 1, 7]))
  {
    assert LE(1, 8) == [1] + LE(0, 7);
    hide LE;
  }

  lemma TwinInput(z7: bytes, z24: bytes, z4: bytes)
    requires z7 == LE(0, 7) && z24 == LE(0, 24) && z4 == LE(0, 4)
    ensures VinBytes(TWIN_READ_BACK.vin) == [1] + (z7 + [37] + z24 + z4 + [0] + z4)
  {
    hide LE;
    var i := TWIN_READ_BACK.vin[0];
    assert Flat(InBytes, TWIN_READ_BACK.vin) == InBytes(i) + Flat(InBytes, TWIN_READ_BACK.vin[1..]) == InBytes(i);
    assert VarBytes([]) == [0];
    hide VarBytes;
  }

  lemma TwinStack()
    ensures Flat(WitnessBytes, TWIN_READ_BACK.vin) == [1, 1, 7] && VoutBytes(TWIN_READ_BACK.vout) == [0]
  {
    var i := TWIN_READ_BACK.vin[0];
    assert Flat(VarBytes, [[7]]) == VarBytes([7]) + Flat(VarBytes, [[7]][1..]) == [1, 7];
    assert WitnessBytes(i) == [1] + [1, 7];
    assert Flat(WitnessBytes, TWIN_READ_BACK.vin)
        == WitnessBytes(i) + Flat(WitnessBytes, TWIN_READ_BACK.vin[1..]) == WitnessBytes(i);
    hide WitnessBytes;
  }

  lemma TwinParts(z7: bytes, z24: bytes, z4: bytes)
    ensures [1] + z7 + ([37] + (z24 + z4 + [0] + z4 + [0, 1, 1, 7])) + z4
         == [1] + (z7 + [37] + z24 + z4 + [0] + z4) + ([0] + ([1, 1, 7] + z4))
  {}

  lemma TwinBytes()
    ensures WireBytes(TWIN) == WireBytes(TWIN_READ_BACK) && |WireBytes(TWIN)| < 100 && |MarkedForm(TWIN)| < 100
    ensures TxFits(TWIN) && TxFits(TWIN_READ_BACK)
  {
    hide OutBytes, LE, VinBytes, VoutBytes;
    var z7, z24, z4 := LE(0, 7), LE(0, 24), LE(0, 4);
    TwinOutput(z7, z24, z4);
    TwinInput(z7, z24, z4);
    TwinStack();
    TwinParts(z7, z24, z4);
    AmbiguousShape(TWIN);
    assert TWIN_READ_BACK.vin[0].stack != [];
    TwinSize();
  }

  lemma TwinSize()
    ensures |MarkedForm(TWIN)| < 100 && |Stripped(TWIN)| < 100
  {
    hide OutBytes, LE;
    var o := TWIN.vout[0];
    TwinOutput(LE(0, 7), LE(0, 24), LE(0, 4));
    assert Flat(OutBytes, TWIN.vout) == OutBytes(o) + Flat(OutBytes, TWIN.vout[1..]) == OutBytes(o);
    assert Flat(WitnessBytes, TWIN.vin) == [] && Flat(InBytes, TWIN.vin) == [];
  }

  /** An ambiguous previous transaction may settle: it is not read back as it was, but as
      another transaction with the same bytes. */
  lemma AmbiguousMaySettle()
    ensures Ambiguous(TWIN) && ParsePsbt(Spending(MarkedForm(TWIN))) == Ok(SpendingPsbt(TWIN))
    ensures CanonicalForm(Serialize(SpendingPsbt(TWIN)))
    ensures ParsePsbt(Serialize(SpendingPsbt(TWIN))) == Ok(SpendingPsbt(TWIN_READ_BACK))
  {
    hide ParsePsbt, Serialize, Spending, ParseTx, CanonicalForm, NarrowTx, WireBytes, MarkedForm, TxFits;
    TwinBytes();
    ReadsMarkedForm(TWIN);
    ParseOfSpending(MarkedForm(TWIN));
    OnePassSettles(Spending(MarkedForm(TWIN)));
    UnambiguousSettles(TWIN_READ_BACK);
    SerializeOfSpending(TWIN);
    ParseOfWire(TWIN_READ_BACK);
    ParseOfSpending(WireBytes(TWIN));
  }
}
