/** What the parser accepts is well formed, and putting the lists of a container in
    key order does not change a byte of its encoding. */
module PsbtStability {
  import opened Bytes
  import opened Wire
  import opened KeyMaps
  import opened PsbtMaps
  import opened Transactions
  import opened Psbts
  import opened PsbtCodec
  import opened PsbtRoundTrip

  // --------------------------------------------------- parsed transactions fit

  lemma {:induction false} ReadManyEach<T>(p: bytes -> Reading<T>, ok: T -> bool, b: bytes, n: nat)
    requires forall x :: p(x).Ok? ==> ok(p(x).value.value)
    requires ReadMany(p, b, n).Ok?
    ensures |ReadMany(p, b, n).value.value| == n
    ensures forall x :: x in ReadMany(p, b, n).value.value ==> ok(x)
    decreases n
  {
    if n > 0 { ReadManyEach(p, ok, p(b).value.rest, n - 1); }
  }

  lemma ReadVarBytesFits(b: bytes)
    requires ReadVarBytes(b).Ok?
    ensures Fits(ReadVarBytes(b).value.value)
  {
    ReadCompactSizeCost(b);
  }

  predicate BareInFits(i: TxIn) { Fits(i.script) && i.stack == [] }

  lemma ReadInFits(b: bytes)
    requires ReadIn(b).Ok?
    ensures BareInFits(ReadIn(b).value.value)
  {
    ReadVarBytesFits(ReadLE(Take(b, 32).value.rest, 4).value.rest);
  }

  lemma ReadOutFits(b: bytes)
    requires ReadOut(b).Ok?
    ensures OutFits(ReadOut(b).value.value)
  {
    ReadVarBytesFits(ReadLE(b, 8).value.rest);
  }

  lemma ReadCountedEach<T>(p: bytes -> Reading<T>, ok: T -> bool, b: bytes)
    requires forall x :: p(x).Ok? ==> ok(p(x).value.value)
    requires ReadCounted(p, b).Ok?
    ensures |ReadCounted(p, b).value.value| < 0x1_0000_0000_0000_0000
    ensures forall x :: x in ReadCounted(p, b).value.value ==> ok(x)
  {
    ReadCompactSizeCost(b);
    var n := ReadCompactSize(b).value;
    ReadManyEach(p, ok, n.rest, n.value);
  }

  lemma ReadStackFits(b: bytes)
    requires ReadStack(b).Ok?
    ensures StackFits(ReadStack(b).value.value)
  {
    forall x | ReadVarBytes(x).Ok?
      ensures Fits(ReadVarBytes(x).value.value)
    {
      ReadVarBytesFits(x);
    }
    ReadCountedEach(ReadVarBytes, Fits, b);
  }

  lemma ReadWitnessFits(vin: seq<TxIn>, segwit: bool, b: bytes)
    requires ReadWitness(vin, segwit, b).Ok? && forall i :: i in vin ==> BareInFits(i)
    ensures |ReadWitness(vin, segwit, b).value.value| == |vin|
    ensures forall i :: i in ReadWitness(vin, segwit, b).value.value ==>
              InFits(i) && (!segwit ==> i.stack == [])
  {
    if segwit {
      forall x | ReadStack(x).Ok?
        ensures StackFits(ReadStack(x).value.value)
      {
        ReadStackFits(x);
      }
      ReadManyEach(ReadStack, StackFits, b, |vin|);
      var stacks := ReadStacks(b, |vin|).value.value;
      forall i | 0 <= i < |vin|
        ensures InFits(vin[i].(stack := stacks[i]))
      {
        assert vin[i] in vin && stacks[i] in stacks;
      }
    }
  }

  lemma ReadBodyFits(version: i32, segwit: bool, b: bytes)
    requires ReadBody(version, segwit, b).Ok?
    ensures TxFits(ReadBody(version, segwit, b).value)
    ensures !segwit ==> NoStacks(ReadBody(version, segwit, b).value)
  {
    var ins := ReadCounted(ReadIn, b).value;
    var outs := ReadCounted(ReadOut, ins.rest).value;
    forall x | ReadIn(x).Ok?
      ensures BareInFits(ReadIn(x).value.value)
    {
      ReadInFits(x);
    }
    ReadCountedEach(ReadIn, BareInFits, b);
    forall x | ReadOut(x).Ok?
      ensures OutFits(ReadOut(x).value.value)
    {
      ReadOutFits(x);
    }
    ReadCountedEach(ReadOut, OutFits, ins.rest);
    ReadWitnessFits(ins.value, segwit, outs.rest);
  }

  lemma ParsedTxFits(data: bytes, segwitAllowed: bool)
    requires ParseTx(data, segwitAllowed).Ok?
    ensures TxFits(ParseTx(data, segwitAllowed).value)
    ensures !segwitAllowed ==> NoStacks(ParseTx(data, segwitAllowed).value)
  {
    var version := ReadLE(data, 4).value;
    var segwit := segwitAllowed && HasMarker(version.rest);
    ReadBodyFits(ToSigned(version.value), segwit, if segwit then version.rest[2..] else version.rest);
  }

  // ---------------------------------------------------- parsed inputs are valid

  lemma {:induction false} TypeListMember(ps: seq<Pair>, t: byte, q: Pair)
    ensures q in TypeList(ps, t) <==> Pair([t] + q.key, q.value) in ps
  {
    if ps != [] {
      var front, last := ps[..|ps| - 1], ps[|ps| - 1];
      TypeListMember(front, t, q);
      assert ps == front + [last];
      var p := Pair([t] + q.key, q.value);
      assert p.key[1..] == q.key;
      if HasType(t, last) { assert last.key == [t] + last.key[1..]; }
    }
  }

  lemma {:induction false} TypeListDistinct(ps: seq<Pair>, t: byte)
    requires Distinct(ps)
    ensures Distinct(TypeList(ps, t))
  {
    if ps != [] {
      var front, last := ps[..|ps| - 1], ps[|ps| - 1];
      TypeListDistinct(front, t);
      if HasType(t, last) {
        var l := TypeList(front, t);
        forall i | 0 <= i < |l|
          ensures l[i].key != last.key[1..]
        {
          TypeListMember(front, t, l[i]);
          var j :| 0 <= j < |front| && front[j] == Pair([t] + l[i].key, l[i].value);
          assert ps[j].key != last.key && last.key == [t] + last.key[1..];
        }
      }
    }
  }

  lemma TypeListEntriesOk(ps: seq<Pair>, t: byte, q: Pair)
    requires ParseInputMap(ps).Ok? && t in TYPED && q in TypeList(ps, t)
    ensures EntryOk(t, q.key, q.value)
  {
    ParseInputMapDecodes(ps);
    TypeListMember(ps, t, q);
    var p := Pair([t] + q.key, q.value);
    assert p.key[1..] == q.key;
    TypedFieldOk(p);
  }

  lemma LastValueOk(ps: seq<Pair>, t: byte)
    requires ParseInputMap(ps).Ok? && t in TYPED && LastValue(TypeList(ps, t)).Some?
    ensures exists keydata :: EntryOk(t, keydata, LastValue(TypeList(ps, t)).value)
  {
    var l := TypeList(ps, t);
    assert l[|l| - 1] in l;
    TypeListEntriesOk(ps, t, l[|l| - 1]);
  }

  lemma ParsedUnknownOk(ps: seq<Pair>)
    requires ParseInputMap(ps).Ok?
    ensures forall p :: p in Filter(IsUntyped, ps) ==> UnknownOk(p)
  {
    ParseInputMapDecodes(ps);
    FilterMembers(IsUntyped, ps);
    forall p | p in Filter(IsUntyped, ps)
      ensures UnknownOk(p)
    {
      SplitKeyFirst(p.key);
    }
  }

  lemma ParsedValuesOk(ps: seq<Pair>)
    requires ParseInputMap(ps).Ok?
    ensures var i := Decoded(ps);
      && (i.tapInternalKey.Some? ==> |i.tapInternalKey.value| == 32)
      && (i.tapMerkleRoot.Some? ==> |i.tapMerkleRoot.value| == 32)
      && (i.nonWitnessUtxo.Some? ==> TxFits(i.nonWitnessUtxo.value))
      && (i.witnessUtxo.Some? ==> OutFits(i.witnessUtxo.value))
  {
    var key, root := LastValue(TypeList(ps, T_TAP_INTERNAL_KEY)), LastValue(TypeList(ps, T_TAP_MERKLE_ROOT));
    if key.Some? { LastValueOk(ps, T_TAP_INTERNAL_KEY); }
    if root.Some? { LastValueOk(ps, T_TAP_MERKLE_ROOT); }
    var tx, o := LastValue(TypeList(ps, T_NON_WITNESS_UTXO)), LastValue(TypeList(ps, T_WITNESS_UTXO));
    if DecodeTx(tx).Some? { ParsedTxFits(tx.value, true); }
    if DecodeOut(o).Some? { ReadOutFits(o.value); }
  }

  lemma ParsedInputWellFormed(ps: seq<Pair>)
    requires ParseInputMap(ps).Ok? && Distinct(ps)
    ensures InputWellFormed(ParseInputMap(ps).value)
  {
    ParseInputMapDecodes(ps);
    ParsedUnknownOk(ps);
    ParsedValuesOk(ps);
    FilterDistinct(IsUntyped, ps);
    forall t | t in TYPED
      ensures Distinct(TypeList(ps, t)) && forall q :: q in TypeList(ps, t) ==> EntryOk(t, q.key, q.value)
    {
      TypeListDistinct(ps, t);
      forall q | q in TypeList(ps, t)
        ensures EntryOk(t, q.key, q.value)
      {
        TypeListEntriesOk(ps, t, q);
      }
    }
  }

  // ------------------------------------------------- parsed containers are valid

  lemma ReadInputMapWellFormed(b: bytes)
    requires ReadInputMap(b).Ok?
    ensures InputWellFormed(ReadInputMap(b).value.value)
  {
    ReadPairsWellFormed(b, {});
    ParsedInputWellFormed(ReadPairs(b, {}).value.value);
  }

  lemma {:induction false} ParsedOutputIs(ps: seq<Pair>)
    requires ParseOutputMap(ps).Ok?
    ensures ParseOutputMap(ps).value == ps && forall p :: p in ps ==> CheckOutputField(p).Ok?
  {
    if ps != [] {
      ParsedOutputIs(ps[..|ps| - 1]);
      assert ps == ps[..|ps| - 1] + [ps[|ps| - 1]];
    }
  }

  lemma ReadOutputMapWellFormed(b: bytes)
    requires ReadOutputMap(b).Ok?
    ensures OutputWellFormed(ReadOutputMap(b).value.value)
  {
    ReadPairsWellFormed(b, {});
    ParsedOutputIs(ReadPairs(b, {}).value.value);
  }

  lemma {:induction false} ReadInputsWellFormed(b: bytes, n: nat)
    requires ReadMany(ReadInputMap, b, n).Ok?
    ensures forall i :: i in ReadMany(ReadInputMap, b, n).value.value ==> InputWellFormed(i)
    decreases n
  {
    hide ReadInputMap, InputWellFormed;
    if n > 0 {
      var head := ReadInputMap(b).value;
      ReadInputMapWellFormed(b);
      ReadInputsWellFormed(head.rest, n - 1);
      var tail := ReadMany(ReadInputMap, head.rest, n - 1).value.value;
      assert ReadMany(ReadInputMap, b, n).value.value == [head.value] + tail;
    }
  }

  lemma {:induction false} ReadOutputsWellFormed(b: bytes, n: nat)
    requires ReadMany(ReadOutputMap, b, n).Ok?
    ensures forall o :: o in ReadMany(ReadOutputMap, b, n).value.value ==> OutputWellFormed(o)
    decreases n
  {
    if n > 0 {
      ReadOutputMapWellFormed(b);
      ReadOutputsWellFormed(ReadOutputMap(b).value.rest, n - 1);
    }
  }

  lemma {:induction false} LastUnsigned(ps: seq<Pair>)
    requires ParseGlobalMap(ps).Ok? && ParseGlobalMap(ps).value.unsignedTx.Some?
    ensures var tx := ParseGlobalMap(ps).value.unsignedTx.value; Unsigned(tx) && NoStacks(tx) && TxFits(tx)
  {
    var front, p := ps[..|ps| - 1], ps[|ps| - 1];
    if ReadGlobalField(p).value.UnsignedTx? {
      ReadGlobalFieldType(p);
      ParsedTxFits(p.value, false);
    } else {
      LastUnsigned(front);
    }
  }

  lemma ParsedGlobalUnknown(ps: seq<Pair>)
    requires ParseGlobalMap(ps).Ok? && Distinct(ps)
    ensures ParseGlobalMap(ps).value.version == 0
    ensures Distinct(ParseGlobalMap(ps).value.unknown)
    ensures forall p :: p in ParseGlobalMap(ps).value.unknown ==> GlobalUnknownOk(p)
  {
    ParseGlobalMapDecodes(ps);
    FilterMembers(IsGlobalUnknown, ps);
    FilterDistinct(IsGlobalUnknown, ps);
    forall p | p in Filter(IsGlobalUnknown, ps)
      ensures GlobalUnknownOk(p)
    {
      SplitKeyFirst(p.key);
    }
  }

  /** Everything the parser accepts is well formed: unique keys, fields of the
      right width, no typed key among the unknown ones, one map for each input
      and output of a truly unsigned transaction. */
  lemma ParsedWellFormed(data: bytes)
    requires ParsePsbt(data).Ok?
    ensures WellFormed(ParsePsbt(data).value)
  {
    var body := data[|MAGIC|..];
    var pairs := ReadPairs(body, {}).value;
    ReadPairsWellFormed(body, {});
    ParsedGlobalUnknown(pairs.value);
    LastUnsigned(pairs.value);
    var tx := ParseGlobalMap(pairs.value).value.unsignedTx.value;
    var inputs := ReadMany(ReadInputMap, pairs.rest, |tx.vin|).value;
    ReadInputsWellFormed(pairs.rest, |tx.vin|);
    ReadOutputsWellFormed(inputs.rest, |tx.vout|);
    ReadManyCount(ReadInputMap, pairs.rest, |tx.vin|);
    ReadManyCount(ReadOutputMap, inputs.rest, |tx.vout|);
  }

  // ------------------------------------------------------------------ stability

  lemma CanonicalWellFormed(i: Input)
    requires InputWellFormed(i)
    ensures InputWellFormed(Canonical(i))
  {
    SortCorrect(i.partialSigs);
    SortCorrect(i.tapScriptSigs);
    SortCorrect(i.tapLeafScripts);
    SortCorrect(i.unknown);
  }

  lemma CanonicalLists(i: Input, t: byte)
    ensures ListOf(Canonical(i), t) == ListOf(i, t) || ListOf(Canonical(i), t) == Sort(ListOf(i, t))
  {
    if t == T_PARTIAL_SIG || t == T_TAP_SCRIPT_SIG || t == T_TAP_LEAF_SCRIPT {
      ListOfKeyed(i);
      ListOfKeyed(Canonical(i));
    } else {
      OtherLists(i, Canonical(i), t);
    }
  }

  lemma OtherLists(a: Input, b: Input, t: byte)
    requires b == a.(partialSigs := b.partialSigs, tapScriptSigs := b.tapScriptSigs,
                     tapLeafScripts := b.tapLeafScripts, unknown := b.unknown)
    requires t != T_PARTIAL_SIG && t != T_TAP_SCRIPT_SIG && t != T_TAP_LEAF_SCRIPT
    ensures ListOf(a, t) == ListOf(b, t)
  {}

  lemma CanonicalEntries(i: Input, t: byte, q: Pair)
    ensures q in ListOf(Canonical(i), t) <==> q in ListOf(i, t)
  {
    CanonicalLists(i, t);
    SortCorrect(ListOf(i, t));
  }

  lemma CanonicalSameMap(i: Input)
    requires InputWellFormed(i)
    ensures ToMap(InputPairs(Canonical(i))) == ToMap(InputPairs(i))
  {
    var c := Canonical(i);
    CanonicalWellFormed(i);
    InputPairsDistinct(i);
    InputPairsDistinct(c);
    SortCorrect(i.unknown);
    forall p
      ensures p in InputPairs(c) <==> p in InputPairs(i)
    {
      TypedPairsMember(i, TYPED, p);
      TypedPairsMember(c, TYPED, p);
      if p.key != [] { CanonicalEntries(i, p.key[0], Pair(p.key[1..], p.value)); }
    }
    SameEntriesSameMap(InputPairs(c), InputPairs(i));
  }

  lemma CanonicalSameBytes(i: Input)
    requires InputWellFormed(i)
    ensures InputMapBytes(Canonical(i)) == InputMapBytes(i)
  {
    CanonicalWellFormed(i);
    CanonicalSameMap(i);
    InputPairsDistinct(i);
    InputPairsDistinct(Canonical(i));
    MapBytesDeterminedByMap(InputPairs(Canonical(i)), InputPairs(i));
  }

  lemma SortedSameBytes(ps: seq<Pair>)
    requires Distinct(ps)
    ensures MapBytes(Sort(ps)) == MapBytes(ps)
  {
    SortCorrect(ps);
    SortOfSorted(Sort(ps));
  }

  /** Sorting each list of a container does not change a byte of its encoding. */
  lemma CanonicalPsbtSameBytes(p: Psbt)
    requires WellFormed(p)
    ensures Serialize(CanonicalPsbt(p)) == Serialize(p)
  {
    var c := CanonicalPsbt(p);
    forall i | 0 <= i < |p.inputs|
      ensures InputMapBytes(c.inputs[i]) == InputMapBytes(p.inputs[i])
    {
      CanonicalSameBytes(p.inputs[i]);
    }
    FlatSame(InputMapBytes, InputMapBytes, c.inputs, p.inputs);
    forall i | 0 <= i < |p.outputs|
      ensures MapBytes(c.outputs[i]) == MapBytes(p.outputs[i])
    {
      SortedSameBytes(p.outputs[i]);
    }
    FlatSame(MapBytes, MapBytes, c.outputs, p.outputs);
    GlobalSameBytes(p);
  }

  lemma GlobalSameBytes(p: Psbt)
    requires WellFormed(p)
    ensures MapBytes(GlobalPairs(CanonicalPsbt(p))) == MapBytes(GlobalPairs(p))
  {
    var c := CanonicalPsbt(p);
    SortCorrect(p.unknownGlobal);
    GlobalPairsDistinct(p);
    DistinctConcat([Pair([T_UNSIGNED_TX], Stripped(p.unsignedTx))], c.unknownGlobal) by {
      forall q | q in c.unknownGlobal
        ensures q.key != [T_UNSIGNED_TX]
      {
        assert GlobalUnknownOk(q);
      }
    }
    SameEntriesSameMap(GlobalPairs(c), GlobalPairs(p));
    MapBytesDeterminedByMap(GlobalPairs(c), GlobalPairs(p));
  }
}
