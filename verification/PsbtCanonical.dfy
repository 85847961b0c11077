/** The promise that serializing what was parsed gives the input back: what it needs,
    for every byte string, and a container that breaks it. */
module PsbtCanonical {
  import opened Bytes
  import opened Wire
  import opened KeyMaps
  import opened PsbtMaps
  import opened Transactions
  import opened Psbts
  import opened PsbtCodec
  import opened PsbtRoundTrip
  import opened Exactness
  import opened PsbtExact

  // -------------------------------------------------------------- the exact condition

  lemma AgainFits(ps: seq<Pair>)
    requires ParseGlobalMap(ps).Ok? && Distinct(ps) && ParseGlobalMap(ps).value.unsignedTx.Some?
    requires forall p :: p in ps ==> PairFits(p)
    ensures forall p :: p in GlobalAgain(ParseGlobalMap(ps).value) ==> PairFits(p)
    ensures Distinct(GlobalAgain(ParseGlobalMap(ps).value))
  {
    hide TypeList, Filter, Stripped, ParseTx, ParseGlobalMap, NarrowTx;
    ParseGlobalMapDecodes(ps);
    GlobalUnknownOf(ps);
    FilterMembers(IsGlobalUnknown, ps);
    FilterDistinct(IsGlobalUnknown, ps);
    LastTx(ps);
    var g, value := ParseGlobalMap(ps).value, TypeList(ps, T_UNSIGNED_TX)[0].value;
    ExactUnsigned(value);
    assert PairFits(Pair([T_UNSIGNED_TX], value));
    DistinctConcat([Pair([T_UNSIGNED_TX], Stripped(g.unsignedTx.value))], g.unknown);
  }

  lemma ExactGlobalMap(b: bytes)
    requires ReadPairs(b, {}).Ok? && ParseGlobalMap(ReadPairs(b, {}).value.value).Ok?
    requires ParseGlobalMap(ReadPairs(b, {}).value.value).value.unsignedTx.Some?
    ensures var ps := ReadPairs(b, {}).value;
      Exact(b, MapBytes(GlobalAgain(ParseGlobalMap(ps.value).value)), ps.rest,
            NarrowPairs(b) && Sorted(ps.value) && GlobalAllKept(ps.value))
  {
    hide Exact, NarrowPairs, ReadPairs, ParseGlobalMap, MapBytes, GlobalAllKept, Sorted, Sort, PairsSize, GlobalAgain;
    var ps := ReadPairs(b, {}).value;
    ReadPairsWellFormed(b, {});
    AgainFits(ps.value);
    GlobalShrinks(ps.value);
    ExactMap(b, ps.value, ps.rest, GlobalAgain(ParseGlobalMap(ps.value).value));
    GlobalComesBack(ps.value);
  }

  /** The maps behind the magic, `ins` of them for inputs and `outs` for outputs, in
      canonical form: sorted, with the narrowest lengths, and each entry one that is
      written back as it is. */
  predicate CanonicalMaps(body: bytes, ins: nat, outs: nat) {
    match ReadPairs(body, {})
    case Err(_) => false
    case Ok(ps) =>
      && NarrowPairs(body) && Sorted(ps.value) && GlobalAllKept(ps.value)
      && NarrowMany(ReadInputMap, CanonicalInputMap, ps.rest, ins)
      && match ReadMany(ReadInputMap, ps.rest, ins)
         case Err(_) => false
         case Ok(inputs) => NarrowMany(ReadOutputMap, CanonicalOutputMap, inputs.rest, outs)
  }

  lemma ExactInputMaps(b: bytes, n: nat)
    requires ReadMany(ReadInputMap, b, n).Ok?
    ensures var r := ReadMany(ReadInputMap, b, n).value;
      Exact(b, Flat(InputMapBytes, r.value), r.rest, NarrowMany(ReadInputMap, CanonicalInputMap, b, n))
  {
    hide Exact, ReadInputMap, InputMapBytes, CanonicalInputMap;
    forall c | ReadInputMap(c).Ok?
      ensures Exact(c, InputMapBytes(ReadInputMap(c).value.value), ReadInputMap(c).value.rest, CanonicalInputMap(c))
    {
      ExactInputMap(c);
    }
    ExactMany(ReadInputMap, InputMapBytes, CanonicalInputMap, b, n);
  }

  lemma ExactOutputMaps(b: bytes, n: nat)
    requires ReadMany(ReadOutputMap, b, n).Ok?
    ensures var r := ReadMany(ReadOutputMap, b, n).value;
      Exact(b, Flat(MapBytes, r.value), r.rest, NarrowMany(ReadOutputMap, CanonicalOutputMap, b, n))
  {
    hide Exact, ReadOutputMap, MapBytes, CanonicalOutputMap;
    forall c | ReadOutputMap(c).Ok?
      ensures Exact(c, MapBytes(ReadOutputMap(c).value.value), ReadOutputMap(c).value.rest, CanonicalOutputMap(c))
    {
      ExactOutputMap(c);
    }
    ExactMany(ReadOutputMap, MapBytes, CanonicalOutputMap, b, n);
  }

  lemma ExactMaps(data: bytes, body: bytes)
    requires ParseMaps(data, body).Ok?
    ensures var p := ParseMaps(data, body).value;
      Exact(body, MapBytes(GlobalPairs(p)) + (Flat(InputMapBytes, p.inputs) + Flat(MapBytes, p.outputs)), [],
            CanonicalMaps(body, |p.inputs|, |p.outputs|))
  {
    hide Exact, ReadPairs, ParseGlobalMap, ReadInputMap, ReadOutputMap, NarrowPairs, Sorted, GlobalAllKept;
    hide MapBytes, InputMapBytes, NarrowMany;
    var ps := ReadPairs(body, {}).value;
    var g := ParseGlobalMap(ps.value).value;
    var nIn, nOut := |g.unsignedTx.value.vin|, |g.unsignedTx.value.vout|;
    var inputs := ReadMany(ReadInputMap, ps.rest, nIn).value;
    var outputs := ReadMany(ReadOutputMap, inputs.rest, nOut).value;
    ReadManyCount(ReadInputMap, ps.rest, nIn);
    ReadManyCount(ReadOutputMap, inputs.rest, nOut);
    hide ReadMany, Flat;
    ExactGlobalMap(body);
    ExactInputMaps(ps.rest, nIn);
    ExactOutputMaps(inputs.rest, nOut);
    var ins, outs := Flat(InputMapBytes, inputs.value), Flat(MapBytes, outputs.value);
    var n2 := NarrowMany(ReadInputMap, CanonicalInputMap, ps.rest, nIn);
    var n3 := NarrowMany(ReadOutputMap, CanonicalOutputMap, inputs.rest, nOut);
    ExactThen(ps.rest, ins, inputs.rest, n2, outs, outputs.rest, n3);
    ExactThen(body, MapBytes(GlobalAgain(g)), ps.rest, NarrowPairs(body) && Sorted(ps.value) && GlobalAllKept(ps.value),
              ins + outs, [], n2 && n3);
  }

  /** A container in canonical form. */
  predicate CanonicalForm(data: bytes) {
    match ParsePsbt(data)
    case Err(_) => false
    case Ok(p) => CanonicalMaps(data[|MAGIC|..], |p.inputs|, |p.outputs|)
  }

  /** Serializing what was parsed, for every byte string the parser accepts: never more
      bytes, and the same bytes exactly when they were in canonical form. */
  lemma SerializeOfParse(data: bytes)
    requires ParsePsbt(data).Ok?
    ensures |Serialize(ParsePsbt(data).value)| <= |data|
    ensures Serialize(ParsePsbt(data).value) == data <==> CanonicalForm(data)
  {
    hide ParseMaps, CanonicalMaps, MapBytes, GlobalPairs, InputMapBytes, Flat;
    var p, body := ParsePsbt(data).value, data[|MAGIC|..];
    var maps := MapBytes(GlobalPairs(p)) + (Flat(InputMapBytes, p.inputs) + Flat(MapBytes, p.outputs));
    ExactMaps(data, body);
    ExactTake(data, |MAGIC|);
    ExactThen(data, MAGIC, body, true, maps, [], CanonicalMaps(body, |p.inputs|, |p.outputs|));
    assert MAGIC + maps + [] == MAGIC + maps;
  }

  // ----------------------------------------------------- a container that comes back changed

  const NO_INPUT_TX := Tx(2, [], [TxOut(0, [])], 0)

  lemma EmptyMap(rest: bytes)
    ensures ReadOutputMap(MapBytes([]) + rest) == Ok(Parsed([], rest))
  {
    assert Sort([]) == [];
    ReadPairsOfMapBytes([], rest);
  }

  lemma OneOutputMap(rest: bytes)
    ensures ReadMany(ReadOutputMap, MapBytes([]) + rest, 1) == Ok(Parsed([[]], rest))
  {
    hide ReadOutputMap, MapBytes;
    EmptyMap(rest);
    var none: seq<Pair> := [];
    assert ReadMany(ReadOutputMap, rest, 0) == Ok(Parsed([], rest));
    assert [none] + [] == [none];
  }

  lemma SortTwo(p: Pair, q: Pair)
    requires LexLe(p.key, q.key) && p.key != q.key
    ensures Sort([p, q]) == [p, q]
  {
    SortOfSorted([p, q]);
  }

  /** A sorted, narrow container whose global map holds the transaction and `VERSION`. */
  function VersionedContainer(): bytes {
    MAGIC + (MapBytes([Pair([T_UNSIGNED_TX], Stripped(NO_INPUT_TX)), Pair([T_VERSION], [0, 0, 0, 0])]) + MapBytes([]))
  }

  lemma NoInputTxSize()
    ensures |Stripped(NO_INPUT_TX)| == 19 && TxFits(NO_INPUT_TX)
  {
    assert Flat(OutBytes, NO_INPUT_TX.vout) == OutBytes(TxOut(0, [])) + Flat(OutBytes, NO_INPUT_TX.vout[1..]);
    assert Flat(InBytes, NO_INPUT_TX.vin) == [];
  }

  lemma VersionedGlobal(ps: seq<Pair>)
    requires ps == [Pair([T_UNSIGNED_TX], Stripped(NO_INPUT_TX)), Pair([T_VERSION], [0, 0, 0, 0])]
    ensures ParseGlobalMap(ps) == Ok(Global(0, Some(NO_INPUT_TX), []))
  {
    hide Stripped, ParseTx;
    NoInputTxSize();
    ParseOfUnsigned(NO_INPUT_TX);
    Pow256Values();
    assert FromLE([0, 0, 0, 0]) == 0 by {
      FromLEOfLE(0, 4);
      assert LE(0, 4) == [0, 0, 0, 0];
    }
    var front := ps[..1];
    assert front == [ps[0]] && front[..0] == [];
    assert ParseGlobalMap([]) == Ok(Global(0, None, []));
    assert ParseGlobalMap(front) == Ok(Global(0, Some(NO_INPUT_TX), []));
  }

  lemma VersionedSize()
    ensures |VersionedContainer()| <= PSBT_MAX_SIZE
    ensures |Serialize(Psbt(0, NO_INPUT_TX, [], [[]], []))| < |VersionedContainer()|
  {
    NoInputTxSize();
    var tx, version := Pair([T_UNSIGNED_TX], Stripped(NO_INPUT_TX)), Pair([T_VERSION], [0, 0, 0, 0]);
    SortTwo(tx, version);
    FlatSnoc(PairBytes, [tx], version);
    SortOfSorted([tx]);
    assert [tx] + [] == [tx] && [tx] + [version] == [tx, version];
    assert Flat(PairBytes, [tx]) == PairBytes(tx) + [];
    assert Sort([]) == [];
    var none: seq<Pair> := [];
    assert Flat(MapBytes, [none]) == MapBytes(none) + [];
    assert Flat(InputMapBytes, []) == [];
    assert |MapBytes([tx])| == |PairBytes(tx)| + 1;
    assert |MapBytes([tx, version])| == |PairBytes(tx)| + |PairBytes(version)| + 1;
  }

  /** A canonically ordered container does not come back from one pass: the parser
      accepts a `VERSION` entry and the writer leaves it out. */
  lemma VersionEntryIsLost()
    ensures var first := ReadPairs(VersionedContainer()[|MAGIC|..], {}); first.Ok? && Sorted(first.value.value)
    ensures ParsePsbt(VersionedContainer()) == Ok(Psbt(0, NO_INPUT_TX, [], [[]], []))
    ensures Serialize(Psbt(0, NO_INPUT_TX, [], [[]], [])) != VersionedContainer()
  {
    hide MapBytes, Stripped, ReadPairs, ReadOutputMap, ReadInputMap, ParseGlobalMap;
    var ps := [Pair([T_UNSIGNED_TX], Stripped(NO_INPUT_TX)), Pair([T_VERSION], [0, 0, 0, 0])];
    var data, body := VersionedContainer(), MapBytes(ps) + MapBytes([]);
    NoInputTxSize();
    VersionedSize();
    VersionedGlobal(ps);
    SortTwo(ps[0], ps[1]);
    ReadPairsOfMapBytes(ps, MapBytes([]));
    SortCorrect(ps);
    SuffixOf(MAGIC, body);
    ParseMapsStages(data, body, Parsed(ps, MapBytes([])), NO_INPUT_TX, []);
    assert ReadMany(ReadInputMap, MapBytes([]), 0) == Ok(Parsed([], MapBytes([])));
    OneOutputMap([]);
    assert MapBytes([]) + [] == MapBytes([]);
    hide ReadMany, Serialize, ParseMaps;
  }
}
