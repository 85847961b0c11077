/** Parsing and serializing with the loops the program uses: a cursor over the data,
    input maps filled entry by entry, output appended map by map. */
module PsbtParsing {
  import opened Bytes
  import opened Wire
  import opened KeyMaps
  import opened PsbtMaps
  import opened Transactions
  import opened Psbts
  import opened PsbtObjects

  // ------------------------------------------------------------------- one map

  predicate Listed(e: Entry) { e.PartialSig? || e.TapScriptSig? || e.TapLeafScript? || e.Unknown? }

  method StoreListed(i: PsbtIn, e: Entry)
    requires Listed(e)
    modifies i
    ensures i.Value() == Put(old(i.Value()), e)
  {
    match e {
      case PartialSig(p) => i.partialSigs := i.partialSigs + [p];
      case TapScriptSig(p) => i.tapScriptSigs := i.tapScriptSigs + [p];
      case TapLeafScript(p) => i.tapLeafScripts := i.tapLeafScripts + [p];
      case Unknown(p) => i.unknown := i.unknown + [p];
    }
  }

  method StoreSingle(i: PsbtIn, e: Entry)
    requires !Listed(e)
    modifies i
    ensures i.Value() == Put(old(i.Value()), e)
  {
    match e {
      case NonWitnessUtxo(tx) => i.nonWitnessUtxo := Some(tx);
      case WitnessUtxo(o) => i.witnessUtxo := Some(o);
      case SighashType(n) => i.sighashType := Some(n);
      case RedeemScript(s) => i.redeemScript := Some(s);
      case WitnessScript(s) => i.witnessScript := Some(s);
      case FinalScriptSig(s) => i.finalScriptSig := Some(s);
      case FinalScriptWitness(s) => i.finalScriptWitness := Some(s);
      case TapInternalKey(k) => i.tapInternalKey := Some(k);
      case TapMerkleRoot(h) => i.tapMerkleRoot := Some(h);
    }
  }

  /** Sets the field an entry carries, or appends it to its list. */
  method Store(i: PsbtIn, e: Entry)
    modifies i
    ensures i.Value() == Put(old(i.Value()), e)
  {
    if Listed(e) { StoreListed(i, e); } else { StoreSingle(i, e); }
  }

  /** The first refused entry decides, whatever follows. */
  lemma {:induction false} InputErrorStays(ps: seq<Pair>, n: nat)
    requires n <= |ps| && ParseInputMap(ps[..n]).Err?
    ensures ParseInputMap(ps) == ParseInputMap(ps[..n])
    decreases |ps|
  {
    hide ReadField;
    if n == |ps| {
      assert ps[..n] == ps;
    } else {
      assert ps[..|ps| - 1][..n] == ps[..n];
      InputErrorStays(ps[..|ps| - 1], n);
    }
  }

  lemma {:induction false} OutputErrorStays(ps: seq<Pair>, n: nat)
    requires n <= |ps| && ParseOutputMap(ps[..n]).Err?
    ensures ParseOutputMap(ps) == ParseOutputMap(ps[..n])
    decreases |ps|
  {
    hide CheckOutputField;
    if n == |ps| {
      assert ps[..n] == ps;
    } else {
      assert ps[..|ps| - 1][..n] == ps[..n];
      OutputErrorStays(ps[..|ps| - 1], n);
    }
  }

  lemma {:induction false} GlobalErrorStays(ps: seq<Pair>, n: nat)
    requires n <= |ps| && ParseGlobalMap(ps[..n]).Err?
    ensures ParseGlobalMap(ps) == ParseGlobalMap(ps[..n])
    decreases |ps|
  {
    hide ReadGlobalField;
    if n == |ps| {
      assert ps[..n] == ps;
    } else {
      assert ps[..|ps| - 1][..n] == ps[..n];
      GlobalErrorStays(ps[..|ps| - 1], n);
    }
  }

  lemma SliceStep(ps: seq<Pair>, n: nat)
    requires n < |ps|
    ensures ps[..n + 1][..n] == ps[..n] && ps[..n + 1][n] == ps[n]
  {}

  method ParseInputEntries(ps: seq<Pair>) returns (res: Result<PsbtIn, Error>)
    ensures match ParseInputMap(ps)
      case Ok(i) => res.Ok? && fresh(res.value) && res.value.Value() == i
      case Err(e) => res == Err(e)
  {
    hide ReadField;
    var input := new PsbtIn(EMPTY_INPUT);
    for n := 0 to |ps|
      invariant ParseInputMap(ps[..n]) == Ok(input.Value())
    {
      SliceStep(ps, n);
      var e := ReadField(ps[n]);
      if e.Err? {
        InputErrorStays(ps, n + 1);
        return Err(e.error);
      }
      Store(input, e.value);
    }
    assert ps[..|ps|] == ps;
    return Ok(input);
  }

  method ParseOutputEntries(ps: seq<Pair>) returns (res: Result<seq<Pair>, Error>)
    ensures res == ParseOutputMap(ps)
  {
    hide CheckOutputField;
    var output: seq<Pair> := [];
    for n := 0 to |ps|
      invariant ParseOutputMap(ps[..n]) == Ok(output)
    {
      SliceStep(ps, n);
      var p := CheckOutputField(ps[n]);
      if p.Err? {
        OutputErrorStays(ps, n + 1);
        return Err(p.error);
      }
      output := output + [p.value];
    }
    assert ps[..|ps|] == ps;
    return Ok(output);
  }

  method ParseGlobalEntries(ps: seq<Pair>) returns (res: Result<Global, Error>)
    ensures res == ParseGlobalMap(ps)
  {
    hide ReadGlobalField;
    var version: nat, unsignedTx: Option<Tx>, unknown: seq<Pair> := 0, None, [];
    for n := 0 to |ps|
      invariant ParseGlobalMap(ps[..n]) == Ok(Global(version, unsignedTx, unknown))
    {
      SliceStep(ps, n);
      var e := ReadGlobalField(ps[n]);
      if e.Err? {
        GlobalErrorStays(ps, n + 1);
        return Err(e.error);
      }
      match e.value {
        case UnsignedTx(tx) => unsignedTx := Some(tx);
        case VersionZero => version := 0;
        case Other(p) => unknown := unknown + [p];
      }
    }
    assert ps[..|ps|] == ps;
    return Ok(Global(version, unsignedTx, unknown));
  }

  // -------------------------------------------------------------- the container

  method ParseOneInput(r: Reader) returns (res: Result<PsbtIn, Error>)
    requires r.Valid()
    modifies r`pos
    ensures r.Valid()
    ensures match ReadInputMap(old(r.Rest()))
      case Ok(p) => res.Ok? && fresh(res.value) && res.value.Value() == p.value && r.Rest() == p.rest
      case Err(e) => res == Err(e)
  {
    hide ReadPairs, ParseInputMap;
    if r.AtEnd() { return Err(MapCountMismatch); }
    var ps :- ReadMap(r);
    res := ParseInputEntries(ps);
  }

  method ParseInputs(r: Reader, n: nat) returns (res: Result<seq<PsbtIn>, Error>)
    requires r.Valid()
    modifies r`pos
    ensures r.Valid()
    ensures match ReadMany(ReadInputMap, old(r.Rest()), n)
      case Ok(p) =>
        && res.Ok? && |res.value| == n && fresh(res.value) && Values(res.value) == p.value && r.Rest() == p.rest
        && forall i, j :: 0 <= i < j < n ==> res.value[i] != res.value[j]
      case Err(e) => res == Err(e)
  {
    hide ReadInputMap, ReadMany;
    ghost var all := ReadMany(ReadInputMap, r.Rest(), n);
    var inputs: seq<PsbtIn> := [];
    PrependNothing(all);
    assert Values(inputs) == [];
    for k := 0 to n
      invariant r.Valid() && |inputs| == k && fresh(inputs)
      invariant all == Prepend(Values(inputs), ReadMany(ReadInputMap, r.Rest(), n - k))
      invariant forall i, j :: 0 <= i < j < k ==> inputs[i] != inputs[j]
    {
      ghost var done := Values(inputs);
      ReadManyStep(ReadInputMap, done, r.Rest(), n - k);
      var input :- ParseOneInput(r);
      inputs := inputs + [input];
      assert Values(inputs) == done + [input.Value()];
    }
    ReadManyDone(ReadInputMap, Values(inputs), r.Rest());
    return Ok(inputs);
  }

  method ParseOutputs(r: Reader, n: nat) returns (res: Result<seq<seq<Pair>>, Error>)
    requires r.Valid()
    modifies r`pos
    ensures r.Did(ReadMany(ReadOutputMap, old(r.Rest()), n), res)
  {
    hide ReadPairs, ParseOutputMap, ReadMany;
    ghost var all := ReadMany(ReadOutputMap, r.Rest(), n);
    var outputs: seq<seq<Pair>> := [];
    PrependNothing(all);
    for k := 0 to n
      invariant r.Valid()
      invariant all == Prepend(outputs, ReadMany(ReadOutputMap, r.Rest(), n - k))
    {
      ReadManyStep(ReadOutputMap, outputs, r.Rest(), n - k);
      if r.AtEnd() { return Err(MapCountMismatch); }
      var ps :- ReadMap(r);
      var output :- ParseOutputEntries(ps);
      outputs := outputs + [output];
    }
    ReadManyDone(ReadOutputMap, outputs, r.Rest());
    return Ok(outputs);
  }

  method ParseGlobal(r: Reader) returns (res: Result<Global, Error>)
    requires r.Valid()
    modifies r`pos
    ensures r.Valid()
    ensures match ReadPairs(old(r.Rest()), {})
      case Err(e) => res == Err(e)
      case Ok(ps) => r.Rest() == ps.rest && res == ParseGlobalMap(ps.value)
  {
    var pairs :- ReadMap(r);
    res := ParseGlobalEntries(pairs);
  }

  /** The parser. A refusal is the same error the specification gives. */
  method ParseContainer(data: bytes) returns (res: Result<Container, Error>)
    ensures match ParsePsbt(data)
      case Ok(p) => res.Ok? && Proper(res.value) && fresh(res.value.inputs) && Contents(res.value) == p
      case Err(e) => res == Err(e)
  {
    hide ParseMaps;
    if |data| > PSBT_MAX_SIZE { return Err(TooLarge); }
    if |data| < |MAGIC| || data[..|MAGIC|] != MAGIC { return Err(InvalidMagic); }
    res := ParseBehindMagic(data);
  }

  datatype Maps = Maps(inputs: seq<PsbtIn>, outputs: seq<seq<Pair>>)

  method ParseInputsAndOutputs(r: Reader, nIn: nat, nOut: nat) returns (res: Result<Maps, Error>)
    requires r.Valid()
    modifies r`pos
    ensures r.Valid()
    ensures match ReadMany(ReadInputMap, old(r.Rest()), nIn)
      case Err(e) => res == Err(e)
      case Ok(ins) =>
        match ReadMany(ReadOutputMap, ins.rest, nOut)
        case Err(e) => res == Err(e)
        case Ok(outs) =>
          && res.Ok? && |res.value.inputs| == nIn && fresh(res.value.inputs) && Values(res.value.inputs) == ins.value
          && res.value.outputs == outs.value && r.Rest() == outs.rest
          && forall i, j :: 0 <= i < j < nIn ==> res.value.inputs[i] != res.value.inputs[j]
  {
    hide ReadMany, ReadInputMap, ReadOutputMap;
    var inputs :- ParseInputs(r, nIn);
    ghost var values := Values(inputs);
    var outputs :- ParseOutputs(r, nOut);
    assert Values(inputs) == values;
    return Ok(Maps(inputs, outputs));
  }

  method ParseBehindMagic(data: bytes) returns (res: Result<Container, Error>)
    requires |data| >= |MAGIC|
    ensures match ParseMaps(data, data[|MAGIC|..])
      case Ok(p) => res.Ok? && Proper(res.value) && fresh(res.value.inputs) && Contents(res.value) == p
      case Err(e) => res == Err(e)
  {
    hide ReadPairs, ParseGlobalMap, ReadMany, ReadInputMap, ReadOutputMap, AllZero;
    var body := data[|MAGIC|..];
    var r := new Reader(body);
    var global :- ParseGlobal(r);
    if global.unsignedTx.None? { return Err(MissingUnsignedTx); }
    var tx := global.unsignedTx.value;
    var maps :- ParseInputsAndOutputs(r, |tx.vin|, |tx.vout|);
    if r.AtEnd() {
      return Ok(Container(global.version, tx, maps.inputs, maps.outputs, global.unknown));
    }
    assert r.pos == |body| - |r.Rest()|;
    var stray := AllZero(data[r.pos..]);
    return Err(if stray then Truncated else MapCountMismatch);
  }

  lemma FlatNothing<T>(enc: T -> bytes, start: bytes, xs: seq<T>)
    ensures start + Flat(enc, xs[..0]) == start && xs[..|xs|] == xs
  {}

  /** The writer. */
  method SerializeContainer(c: Container) returns (out: bytes)
    ensures out == Serialize(Contents(c))
  {
    hide InputPairs, MapBytes, Flat;
    ghost var p := Contents(c);
    var stripped := SerializeStripped(c.unsignedTx);
    out := WriteMap(MAGIC, [Pair([T_UNSIGNED_TX], stripped)] + c.unknownGlobal);
    ghost var head := out;
    FlatNothing(InputMapBytes, head, p.inputs);
    for i := 0 to |c.inputs|
      invariant out == head + Flat(InputMapBytes, p.inputs[..i])
    {
      FlatStep(InputMapBytes, head, p.inputs, i);
      out := WriteMap(out, InputPairs(c.inputs[i].Value()));
    }
    ghost var front := out;
    FlatNothing(MapBytes, front, p.outputs);
    for i := 0 to |c.outputs|
      invariant out == front + Flat(MapBytes, p.outputs[..i])
    {
      FlatStep(MapBytes, front, p.outputs, i);
      out := WriteMap(out, c.outputs[i]);
    }
    Assoc4(MAGIC, MapBytes(GlobalPairs(p)), Flat(InputMapBytes, p.inputs), Flat(MapBytes, p.outputs));
  }
}
