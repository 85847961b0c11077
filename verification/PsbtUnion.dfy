/** Combining whole containers: the union of their wire maps, hence commutative,
    associative (failures included) and idempotent on the wire. */
module PsbtUnion {
  import opened Bytes
  import opened Wire
  import opened KeyMaps
  import opened PsbtMaps
  import opened Transactions
  import opened Psbts
  import opened PsbtCodec
  import opened PsbtRoundTrip
  import opened PsbtCombine

  lemma OutputMerges(a: seq<Pair>, b: seq<Pair>)
    requires OutputWellFormed(a) && OutputWellFormed(b)
    ensures MergeUnknown(a, b).Ok? <==> Compatible(ToMap(a), ToMap(b))
    ensures MergeUnknown(a, b).Ok? ==>
      OutputWellFormed(MergeUnknown(a, b).value) && ToMap(MergeUnknown(a, b).value) == ToMap(a) + ToMap(b)
  {
    MergeIsUnion(a, b);
    if Merge(a, b).Some? {
      forall p | p in Merge(a, b).value
        ensures CheckOutputField(p).Ok?
      {
        MergeEntries(a, b, p);
      }
    }
  }

  lemma GlobalMerges(p: Psbt, q: Psbt)
    requires WellFormed(p) && WellFormed(q)
    ensures MergesAsUnion(Merge(p.unknownGlobal, q.unknownGlobal), p.unknownGlobal, q.unknownGlobal)
    ensures Merge(p.unknownGlobal, q.unknownGlobal).Some? ==>
      forall e :: e in Merge(p.unknownGlobal, q.unknownGlobal).value ==> GlobalUnknownOk(e)
  {
    MergeIsUnion(p.unknownGlobal, q.unknownGlobal);
    if Merge(p.unknownGlobal, q.unknownGlobal).Some? {
      forall e | e in Merge(p.unknownGlobal, q.unknownGlobal).value
        ensures GlobalUnknownOk(e)
      {
        MergeEntries(p.unknownGlobal, q.unknownGlobal, e);
      }
    }
  }

  lemma InputsMerge(a: seq<Input>, b: seq<Input>)
    requires |a| == |b|
    requires forall i :: 0 <= i < |a| ==> InputWellFormed(a[i]) && InputWellFormed(b[i])
    ensures MergeAll(MergeInput, a, b).Ok? <==>
      && CompatibleSeq(MapSeq(InputMap, a), MapSeq(InputMap, b))
      && forall i :: 0 <= i < |a| ==> AgreeHidden(HiddenOf(a[i]), HiddenOf(b[i]))
    ensures MergeAll(MergeInput, a, b).Ok? ==>
      var c := MergeAll(MergeInput, a, b).value;
      && |c| == |a| && MapSeq(InputMap, c) == UnionSeq(MapSeq(InputMap, a), MapSeq(InputMap, b))
      && forall i :: 0 <= i < |c| ==>
           && InputWellFormed(c[i]) && HiddenOf(c[i]) == JoinHidden(HiddenOf(a[i]), HiddenOf(b[i]))
           && (Faithful(a[i]) && Faithful(b[i]) ==> Faithful(c[i]))
  {
    hide MergeInput, InputMap, InputWellFormed, Faithful, AgreeHidden, HiddenOf, JoinHidden, Compatible;
    MergeAllEach(MergeInput, a, b);
    forall i | 0 <= i < |a|
      ensures MergeInput(a[i], b[i]).Ok? <==>
        Compatible(MapSeq(InputMap, a)[i], MapSeq(InputMap, b)[i]) && AgreeHidden(HiddenOf(a[i]), HiddenOf(b[i]))
      ensures MergeInput(a[i], b[i]).Ok? ==>
        && InputMap(MergeInput(a[i], b[i]).value) == InputMap(a[i]) + InputMap(b[i])
        && InputWellFormed(MergeInput(a[i], b[i]).value)
        && HiddenOf(MergeInput(a[i], b[i]).value) == JoinHidden(HiddenOf(a[i]), HiddenOf(b[i]))
        && (Faithful(a[i]) && Faithful(b[i]) ==> Faithful(MergeInput(a[i], b[i]).value))
    {
      MergeInputIsUnion(a[i], b[i]);
    }
    hide MergeAll;
  }

  lemma OutputsMerge(a: seq<seq<Pair>>, b: seq<seq<Pair>>)
    requires |a| == |b|
    requires forall i :: 0 <= i < |a| ==> OutputWellFormed(a[i]) && OutputWellFormed(b[i])
    ensures MergeAll(MergeUnknown, a, b).Ok? <==> CompatibleSeq(MapSeq(ToMap, a), MapSeq(ToMap, b))
    ensures MergeAll(MergeUnknown, a, b).Ok? ==>
      var c := MergeAll(MergeUnknown, a, b).value;
      && |c| == |a| && MapSeq(ToMap, c) == UnionSeq(MapSeq(ToMap, a), MapSeq(ToMap, b))
      && forall i :: 0 <= i < |c| ==> OutputWellFormed(c[i])
  {
    hide MergeUnknown, OutputWellFormed, Compatible;
    MergeAllEach(MergeUnknown, a, b);
    forall i | 0 <= i < |a|
      ensures MergeUnknown(a[i], b[i]).Ok? <==> Compatible(MapSeq(ToMap, a)[i], MapSeq(ToMap, b)[i])
      ensures MergeUnknown(a[i], b[i]).Ok? ==>
        ToMap(MergeUnknown(a[i], b[i]).value) == ToMap(a[i]) + ToMap(b[i]) && OutputWellFormed(MergeUnknown(a[i], b[i]).value)
    {
      OutputMerges(a[i], b[i]);
    }
    hide MergeAll;
  }

  /** Combining succeeds exactly when both containers are for one transaction, no key of
      any of their maps has two values, and nothing the wire does not show differs; the
      maps of the result are then the unions. */
  lemma CombineIsUnion(p: Psbt, q: Psbt)
    requires WellFormed(p) && WellFormed(q)
    ensures Combine(p, q).Ok? <==> CompatibleMaps(MapsOf(p), MapsOf(q)) && HiddenAgree(p, q)
    ensures Combine(p, q).Ok? ==>
      var c := Combine(p, q).value;
      && WellFormed(c) && MapsOf(c) == UnionMaps(MapsOf(p), MapsOf(q)) && |c.inputs| == |p.inputs| == |q.inputs|
      && (forall i :: 0 <= i < |c.inputs| ==> HiddenOf(c.inputs[i]) == JoinHidden(HiddenOf(p.inputs[i]), HiddenOf(q.inputs[i])))
      && (AllFaithful(p) && AllFaithful(q) ==> AllFaithful(c))
  {
    hide MergeInput, InputMap, InputWellFormed, Faithful, Stripped, OutputWellFormed, Merge, GlobalUnknownOk, HiddenOf, JoinHidden,
         AgreeHidden;
    if Stripped(p.unsignedTx) == Stripped(q.unsignedTx) {
      SameTransaction(p, q);
      GlobalMerges(p, q);
      InputsMerge(p.inputs, q.inputs);
      OutputsMerge(p.outputs, q.outputs);
      hide MergeAll;
    }
  }

  /** Between containers the codec can carry, the wire maps decide alone. */
  lemma CarriedCombineIsUnion(p: Psbt, q: Psbt)
    requires Carried(p) && Carried(q)
    ensures Combine(p, q).Ok? <==> CompatibleMaps(MapsOf(p), MapsOf(q))
    ensures Combine(p, q).Ok? ==> Carried(Combine(p, q).value)
  {
    hide Combine, InputMap, InputWellFormed, Faithful, Stripped, OutputWellFormed, GlobalUnknownOk, HiddenOf, AgreeHidden, Compatible;
    CombineIsUnion(p, q);
    if CompatibleMaps(MapsOf(p), MapsOf(q)) {
      forall i | 0 <= i < |p.inputs|
        ensures AgreeHidden(HiddenOf(p.inputs[i]), HiddenOf(q.inputs[i]))
      {
        assert Compatible(MapSeq(InputMap, p.inputs)[i], MapSeq(InputMap, q.inputs)[i]);
        CarriedShowsAll(p.inputs[i], q.inputs[i]);
      }
    }
  }

  // ------------------------------------------------------------ bytes from maps

  lemma GlobalMap(p: Psbt)
    requires WellFormed(p)
    ensures Distinct(GlobalPairs(p))
    ensures ToMap(GlobalPairs(p)) == map[[T_UNSIGNED_TX] := Stripped(p.unsignedTx)] + ToMap(p.unknownGlobal)
  {
    GlobalPairsDistinct(p);
    ToMapCons(GlobalPairs(p));
  }

  lemma InputBytesFromMap(a: Input, b: Input)
    requires InputWellFormed(a) && InputWellFormed(b) && InputMap(a) == InputMap(b)
    ensures InputMapBytes(a) == InputMapBytes(b)
  {
    InputPairsDistinct(a);
    InputPairsDistinct(b);
    MapBytesDeterminedByMap(InputPairs(a), InputPairs(b));
  }

  /** The canonical bytes depend on the maps alone. */
  lemma BytesFromMaps(p: Psbt, q: Psbt)
    requires WellFormed(p) && WellFormed(q) && MapsOf(p) == MapsOf(q)
    ensures Serialize(p) == Serialize(q)
  {
    hide InputMap, InputMapBytes, InputWellFormed, Stripped, MapBytes, GlobalUnknownOk;
    GlobalMap(p);
    GlobalMap(q);
    MapBytesDeterminedByMap(GlobalPairs(p), GlobalPairs(q));
    SameTransaction(p, q);
    forall i | 0 <= i < |p.inputs|
      ensures InputMapBytes(p.inputs[i]) == InputMapBytes(q.inputs[i])
    {
      assert MapSeq(InputMap, p.inputs)[i] == MapSeq(InputMap, q.inputs)[i];
      InputBytesFromMap(p.inputs[i], q.inputs[i]);
    }
    FlatSame(InputMapBytes, InputMapBytes, p.inputs, q.inputs);
    forall i | 0 <= i < |p.outputs|
      ensures MapBytes(p.outputs[i]) == MapBytes(q.outputs[i])
    {
      assert MapSeq(ToMap, p.outputs)[i] == MapSeq(ToMap, q.outputs)[i];
      MapBytesDeterminedByMap(p.outputs[i], q.outputs[i]);
    }
    FlatSame(MapBytes, MapBytes, p.outputs, q.outputs);
  }

  // ------------------------------------------------------------- algebraic laws

  lemma CompatibleMapsSymmetric(a: WireMaps, b: WireMaps)
    requires CompatibleMaps(a, b)
    ensures CompatibleMaps(b, a) && UnionMaps(a, b) == UnionMaps(b, a)
  {
    UnionSymmetric(a.global, b.global);
    forall i | 0 <= i < |a.inputs|
      ensures Compatible(b.inputs[i], a.inputs[i]) && a.inputs[i] + b.inputs[i] == b.inputs[i] + a.inputs[i]
    {
      UnionSymmetric(a.inputs[i], b.inputs[i]);
    }
    forall i | 0 <= i < |a.outputs|
      ensures Compatible(b.outputs[i], a.outputs[i]) && a.outputs[i] + b.outputs[i] == b.outputs[i] + a.outputs[i]
    {
      UnionSymmetric(a.outputs[i], b.outputs[i]);
    }
  }

  lemma UnionSymmetric(a: map<bytes, bytes>, b: map<bytes, bytes>)
    requires Compatible(a, b)
    ensures Compatible(b, a) && a + b == b + a
  {}

  lemma UnionAssociates(a: map<bytes, bytes>, b: map<bytes, bytes>, c: map<bytes, bytes>)
    ensures a + b + c == a + (b + c)
    ensures Compatible(a, b) && Compatible(a + b, c) <==>
              Compatible(a, b) && Compatible(a, c) && Compatible(b, c)
    ensures Compatible(b, c) && Compatible(a, b + c) <==>
              Compatible(a, b) && Compatible(a, c) && Compatible(b, c)
  {
    assert forall k :: k in a ==> k in a + b;
    assert forall k :: k in b ==> k in a + b && (a + b)[k] == b[k];
    assert forall k :: k in b ==> k in b + c;
    assert forall k :: k in c ==> k in b + c && (b + c)[k] == c[k];
  }

  ghost predicate Pairwise(a: WireMaps, b: WireMaps, c: WireMaps) {
    CompatibleMaps(a, b) && CompatibleMaps(a, c) && CompatibleMaps(b, c)
  }

  lemma UnionSeqAssociates(a: seq<map<bytes, bytes>>, b: seq<map<bytes, bytes>>, c: seq<map<bytes, bytes>>)
    requires |a| == |b| == |c|
    ensures UnionSeq(UnionSeq(a, b), c) == UnionSeq(a, UnionSeq(b, c))
    ensures CompatibleSeq(a, b) && CompatibleSeq(UnionSeq(a, b), c) <==>
              CompatibleSeq(a, b) && CompatibleSeq(a, c) && CompatibleSeq(b, c)
    ensures CompatibleSeq(b, c) && CompatibleSeq(a, UnionSeq(b, c)) <==>
              CompatibleSeq(a, b) && CompatibleSeq(a, c) && CompatibleSeq(b, c)
  {
    hide Compatible;
    forall i | 0 <= i < |a|
      ensures a[i] + b[i] + c[i] == a[i] + (b[i] + c[i])
      ensures Compatible(a[i], b[i]) && Compatible(a[i] + b[i], c[i]) <==>
                Compatible(a[i], b[i]) && Compatible(a[i], c[i]) && Compatible(b[i], c[i])
      ensures Compatible(b[i], c[i]) && Compatible(a[i], b[i] + c[i]) <==>
                Compatible(a[i], b[i]) && Compatible(a[i], c[i]) && Compatible(b[i], c[i])
    {
      UnionAssociates(a[i], b[i], c[i]);
    }
  }

  lemma MapsAssociate(a: WireMaps, b: WireMaps, c: WireMaps)
    ensures CompatibleMaps(a, b) && CompatibleMaps(UnionMaps(a, b), c) <==> Pairwise(a, b, c)
    ensures CompatibleMaps(b, c) && CompatibleMaps(a, UnionMaps(b, c)) <==> Pairwise(a, b, c)
    ensures Pairwise(a, b, c) ==> UnionMaps(UnionMaps(a, b), c) == UnionMaps(a, UnionMaps(b, c))
  {
    hide Compatible;
    UnionAssociates(a.global, b.global, c.global);
    if |a.inputs| == |b.inputs| == |c.inputs| { UnionSeqAssociates(a.inputs, b.inputs, c.inputs); }
    if |a.outputs| == |b.outputs| == |c.outputs| { UnionSeqAssociates(a.outputs, b.outputs, c.outputs); }
  }

  ghost predicate SameOnTheWire(a: Result<Psbt, Error>, b: Result<Psbt, Error>) {
    (a.Ok? <==> b.Ok?) && (a.Ok? ==> Serialize(a.value) == Serialize(b.value))
  }

  /** Both orders fail, or both give the same bytes. */
  lemma CombineCommutative(p: Psbt, q: Psbt)
    requires WellFormed(p) && WellFormed(q)
    ensures SameOnTheWire(Combine(p, q), Combine(q, p))
  {
    hide MapsOf, CompatibleMaps, UnionMaps, Combine, WellFormed, AllFaithful, Serialize, HiddenOf, JoinHidden;
    CombineIsUnion(p, q);
    CombineIsUnion(q, p);
    if Combine(p, q).Ok? {
      CompatibleMapsSymmetric(MapsOf(p), MapsOf(q));
      BytesFromMaps(Combine(p, q).value, Combine(q, p).value);
    } else if Combine(q, p).Ok? {
      CompatibleMapsSymmetric(MapsOf(q), MapsOf(p));
    }
  }

  function CombineResults(a: Result<Psbt, Error>, b: Result<Psbt, Error>): Result<Psbt, Error> {
    var p :- a;
    var q :- b;
    Combine(p, q)
  }

  lemma HiddenAssociates(a: Hidden, b: Hidden, c: Hidden)
    ensures AgreeHidden(a, b) && AgreeHidden(JoinHidden(a, b), c) <==>
              AgreeHidden(a, b) && AgreeHidden(a, c) && AgreeHidden(b, c)
    ensures AgreeHidden(b, c) && AgreeHidden(a, JoinHidden(b, c)) <==>
              AgreeHidden(a, b) && AgreeHidden(a, c) && AgreeHidden(b, c)
  {}

  /** No two of three containers differ in what the wire does not show. */
  predicate AllAgree(p: Psbt, q: Psbt, r: Psbt) { HiddenAgree(p, q) && HiddenAgree(p, r) && HiddenAgree(q, r) }

  lemma CombinedAgree(p: Psbt, q: Psbt, r: Psbt)
    requires WellFormed(p) && WellFormed(q) && WellFormed(r)
    ensures Combine(p, q).Ok? ==> (HiddenAgree(Combine(p, q).value, r) <==> AllAgree(p, q, r))
    ensures Combine(q, r).Ok? ==> (HiddenAgree(p, Combine(q, r).value) <==> AllAgree(p, q, r))
  {
    hide Combine, MapsOf, WellFormed, HiddenOf, AgreeHidden, JoinHidden, AllFaithful;
    CombineIsUnion(p, q);
    CombineIsUnion(q, r);
    forall i | 0 <= i < |p.inputs| && i < |q.inputs| && i < |r.inputs|
      ensures var a, b, c := HiddenOf(p.inputs[i]), HiddenOf(q.inputs[i]), HiddenOf(r.inputs[i]);
        && (AgreeHidden(a, b) ==> (AgreeHidden(JoinHidden(a, b), c) <==> AgreeHidden(a, c) && AgreeHidden(b, c)))
        && (AgreeHidden(b, c) ==> (AgreeHidden(a, JoinHidden(b, c)) <==> AgreeHidden(a, b) && AgreeHidden(a, c)))
    {
      HiddenAssociates(HiddenOf(p.inputs[i]), HiddenOf(q.inputs[i]), HiddenOf(r.inputs[i]));
    }
  }

  /** The order of combining decides neither whether it fails nor the bytes. */
  lemma CombineAssociative(p: Psbt, q: Psbt, r: Psbt)
    requires WellFormed(p) && WellFormed(q) && WellFormed(r)
    ensures SameOnTheWire(CombineResults(Combine(p, q), Ok(r)), CombineResults(Ok(p), Combine(q, r)))
  {
    hide MapsOf, CompatibleMaps, UnionMaps, Combine, WellFormed, AllFaithful, Serialize, HiddenAgree, HiddenOf, JoinHidden;
    CombineIsUnion(p, q);
    CombineIsUnion(q, r);
    CombinedAgree(p, q, r);
    MapsAssociate(MapsOf(p), MapsOf(q), MapsOf(r));
    if Combine(p, q).Ok? { CombineIsUnion(Combine(p, q).value, r); }
    if Combine(q, r).Ok? { CombineIsUnion(p, Combine(q, r).value); }
    var left, right := CombineResults(Combine(p, q), Ok(r)), CombineResults(Ok(p), Combine(q, r));
    if left.Ok? && right.Ok? { BytesFromMaps(left.value, right.value); }
  }

  lemma SelfUnion(a: seq<map<bytes, bytes>>)
    ensures UnionSeq(a, a) == a
  {
    forall i | 0 <= i < |a|
      ensures a[i] + a[i] == a[i]
    {}
  }

  /** A container combined with itself gives its own bytes. */
  lemma CombineIdempotent(p: Psbt)
    requires WellFormed(p)
    ensures Combine(p, p).Ok? && Serialize(Combine(p, p).value) == Serialize(p)
  {
    hide InputMap, Combine, WellFormed, AllFaithful, Serialize, HiddenOf, JoinHidden;
    CombineIsUnion(p, p);
    assert CompatibleMaps(MapsOf(p), MapsOf(p));
    var m := MapsOf(p);
    SelfUnion(m.inputs);
    SelfUnion(m.outputs);
    assert m.global + m.global == m.global;
    BytesFromMaps(Combine(p, p).value, p);
  }
}
