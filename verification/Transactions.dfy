/** Bitcoin transactions: the stripped and the wire (BIP-144) encodings, sizes,
    and the parser that must undo both. */
module Transactions {
  import opened Bytes
  import opened Wire

  datatype TxIn = TxIn(txhash: Hash32, n: u32, script: bytes, sequence: u32, stack: seq<bytes>)
  datatype TxOut = TxOut(amount: u64, script: bytes)
  datatype Tx = Tx(version: i32, vin: seq<TxIn>, vout: seq<TxOut>, locktime: u32)

  // ------------------------------------------------------------ serialization

  function InBytes(i: TxIn): bytes {
    i.txhash + LE(i.n, 4) + VarBytes(i.script) + LE(i.sequence, 4)
  }

  function OutBytes(o: TxOut): bytes {
    LE(o.amount, 8) + VarBytes(o.script)
  }

  function StackBytes(stack: seq<bytes>): bytes {
    CompactSize(|stack|) + Flat(VarBytes, stack)
  }

  function WitnessBytes(i: TxIn): bytes { StackBytes(i.stack) }

  function VinBytes(vin: seq<TxIn>): bytes { CompactSize(|vin|) + Flat(InBytes, vin) }

  function VoutBytes(vout: seq<TxOut>): bytes { CompactSize(|vout|) + Flat(OutBytes, vout) }

  function VersionBytes(tx: Tx): bytes { LE(ToUnsigned(tx.version), 4) }

  function Stripped(tx: Tx): bytes { VersionBytes(tx) + StrippedBody(tx) }

  function StrippedBody(tx: Tx): bytes { VinBytes(tx.vin) + (VoutBytes(tx.vout) + LE(tx.locktime, 4)) }

  predicate HasWitness(tx: Tx) {
    exists i :: 0 <= i < |tx.vin| && tx.vin[i].stack != []
  }

  const MARKER_AND_FLAG: bytes := [0x00, 0x01]

  function WireBytes(tx: Tx): bytes {
    if !HasWitness(tx) then Stripped(tx)
    else VersionBytes(tx) + (MARKER_AND_FLAG + WitnessBody(tx))
  }

  function WitnessBody(tx: Tx): bytes {
    VinBytes(tx.vin) + (VoutBytes(tx.vout) + (Flat(WitnessBytes, tx.vin) + LE(tx.locktime, 4)))
  }

  function Weight(tx: Tx): nat { |Stripped(tx)| * 3 + |WireBytes(tx)| }

  function VSize(tx: Tx): nat { (Weight(tx) + 3) / 4 }

  function NoWitness(i: TxIn): TxIn { i.(stack := []) }

  function WithoutWitness(tx: Tx): Tx { tx.(vin := MapSeq(NoWitness, tx.vin)) }

  // ------------------------------------------------------------------ parsing

  function ReadIn(b: bytes): Reading<TxIn> {
    Pow256Values();
    var txhash :- Take(b, 32);
    var n :- ReadLE(txhash.rest, 4);
    var script :- ReadVarBytes(n.rest);
    var sequence :- ReadLE(script.rest, 4);
    Ok(Parsed(TxIn(txhash.value, n.value, script.value, sequence.value, []), sequence.rest))
  }

  function ReadOut(b: bytes): Reading<TxOut> {
    Pow256Values();
    var amount :- ReadLE(b, 8);
    var script :- ReadVarBytes(amount.rest);
    Ok(Parsed(TxOut(amount.value, script.value), script.rest))
  }

  /** A count no larger than what is left, and that many items. */
  function ReadCounted<T>(p: bytes -> Reading<T>, b: bytes): Reading<seq<T>> {
    var n :- ReadCompactSize(b);
    if n.value > |n.rest| then Err(Truncated) else ReadMany(p, n.rest, n.value)
  }

  function ReadStack(b: bytes): Reading<seq<bytes>> { ReadCounted(ReadVarBytes, b) }

  function ReadStacks(b: bytes, n: nat): Reading<seq<seq<bytes>>> { ReadMany(ReadStack, b, n) }

  function AttachWitness(vin: seq<TxIn>, stacks: seq<seq<bytes>>): (r: seq<TxIn>)
    requires |vin| == |stacks|
    ensures |r| == |vin|
    ensures forall i :: 0 <= i < |vin| ==> r[i] == vin[i].(stack := stacks[i])
  {
    seq(|vin|, i requires 0 <= i < |vin| => vin[i].(stack := stacks[i]))
  }

  predicate HasMarker(b: bytes) { |b| >= 2 && b[0] == 0x00 && b[1] == 0x01 }

  lemma {:induction false} ReadManyCount<T>(p: bytes -> Reading<T>, b: bytes, n: nat)
    ensures ReadMany(p, b, n).Ok? ==> |ReadMany(p, b, n).value.value| == n
    decreases n
  {
    if n > 0 && p(b).Ok? { ReadManyCount(p, p(b).value.rest, n - 1); }
  }

  function ReadWitness(vin: seq<TxIn>, segwit: bool, b: bytes): Reading<seq<TxIn>> {
    if !segwit then Ok(Parsed(vin, b))
    else
      var stacks :- ReadStacks(b, |vin|);
      ReadManyCount(ReadStack, b, |vin|);
      Ok(Parsed(AttachWitness(vin, stacks.value), stacks.rest))
  }

  /** The part behind the version and the optional marker. */
  function ReadBody(version: i32, segwit: bool, b: bytes): Result<Tx, Error> {
    Pow256Values();
    var ins :- ReadCounted(ReadIn, b);
    var outs :- ReadCounted(ReadOut, ins.rest);
    var vin :- ReadWitness(ins.value, segwit, outs.rest);
    var locktime :- ReadLE(vin.rest, 4);
    if locktime.rest != [] then Err(Truncated)
    else Ok(Tx(version, vin.value, outs.value, locktime.value))
  }

  function ParseTx(data: bytes, segwitAllowed: bool): Result<Tx, Error> {
    Pow256Values();
    var version :- ReadLE(data, 4);
    var segwit := segwitAllowed && HasMarker(version.rest);
    ReadBody(ToSigned(version.value), segwit, if segwit then version.rest[2..] else version.rest)
  }

  // -------------------------------------------------------------- round trips

  /** Every length fits the widest CompactSize. */
  predicate Fits(b: bytes) { |b| < 0x1_0000_0000_0000_0000 }

  predicate StackFits(w: seq<bytes>) {
    |w| < 0x1_0000_0000_0000_0000 && forall i :: 0 <= i < |w| ==> Fits(w[i])
  }

  predicate InFits(i: TxIn) { Fits(i.script) && StackFits(i.stack) }

  predicate OutFits(o: TxOut) { Fits(o.script) }

  predicate TxFits(tx: Tx) {
    && |tx.vin| < 0x1_0000_0000_0000_0000 && |tx.vout| < 0x1_0000_0000_0000_0000
    && (forall i :: 0 <= i < |tx.vin| ==> InFits(tx.vin[i]))
    && (forall i :: 0 <= i < |tx.vout| ==> OutFits(tx.vout[i]))
  }

  lemma ReadInOfBytes(i: TxIn, rest: bytes)
    requires Fits(i.script)
    ensures ReadIn(InBytes(i) + rest) == Ok(Parsed(NoWitness(i), rest))
  {
    Pow256Values();
    var r3 := LE(i.sequence, 4) + rest;
    var r2 := VarBytes(i.script) + r3;
    var r1 := LE(i.n, 4) + r2;
    assert InBytes(i) + rest == i.txhash + r1;
    TakeOfConcat(i.txhash, r1);
    ReadLEOfLE(i.n, 4, r2);
    ReadVarBytesOfVarBytes(i.script, r3);
    ReadLEOfLE(i.sequence, 4, rest);
  }

  lemma ReadOutOfBytes(o: TxOut, rest: bytes)
    requires OutFits(o)
    ensures ReadOut(OutBytes(o) + rest) == Ok(Parsed(o, rest))
  {
    Pow256Values();
    assert OutBytes(o) + rest == LE(o.amount, 8) + (VarBytes(o.script) + rest);
    ReadLEOfLE(o.amount, 8, VarBytes(o.script) + rest);
    ReadVarBytesOfVarBytes(o.script, rest);
  }

  lemma FlatCountGuard<T>(enc: T -> bytes, xs: seq<T>)
    requires forall x :: x in xs ==> |enc(x)| >= 1
    ensures |Flat(enc, xs)| >= |xs|
  {
    FlatMinLength(enc, xs, 1);
  }

  lemma ReadCountedOfFlat<S, T>(p: bytes -> Reading<T>, enc: S -> bytes, f: S -> T, xs: seq<S>, rest: bytes)
    requires |xs| < 0x1_0000_0000_0000_0000
    requires forall x :: x in xs ==> |enc(x)| >= 1
    requires forall x, r :: x in xs ==> p(enc(x) + r) == Ok(Parsed(f(x), r))
    ensures ReadCounted(p, CompactSize(|xs|) + Flat(enc, xs) + rest) == Ok(Parsed(MapSeq(f, xs), rest))
  {
    var body := Flat(enc, xs) + rest;
    Assoc(CompactSize(|xs|), Flat(enc, xs), rest);
    ReadCompactSizeOfCompactSize(|xs|, body);
    FlatCountGuard(enc, xs);
    ReadManyOfFlat(p, enc, f, xs, rest);
  }

  lemma ReadVinOfBytes(vin: seq<TxIn>, rest: bytes)
    requires |vin| < 0x1_0000_0000_0000_0000
    requires forall i :: 0 <= i < |vin| ==> InFits(vin[i])
    ensures ReadCounted(ReadIn, VinBytes(vin) + rest) == Ok(Parsed(MapSeq(NoWitness, vin), rest))
  {
    forall x, r | x in vin
      ensures ReadIn(InBytes(x) + r) == Ok(Parsed(NoWitness(x), r))
    {
      ReadInOfBytes(x, r);
    }
    ReadCountedOfFlat(ReadIn, InBytes, NoWitness, vin, rest);
  }

  function Same<T>(x: T): T { x }

  lemma MapSame<T>(xs: seq<T>)
    ensures MapSeq(Same, xs) == xs
  {}

  lemma ReadVoutOfBytes(vout: seq<TxOut>, rest: bytes)
    requires |vout| < 0x1_0000_0000_0000_0000
    requires forall i :: 0 <= i < |vout| ==> OutFits(vout[i])
    ensures ReadCounted(ReadOut, VoutBytes(vout) + rest) == Ok(Parsed(vout, rest))
  {
    forall x, r | x in vout
      ensures ReadOut(OutBytes(x) + r) == Ok(Parsed(Same(x), r))
    {
      ReadOutOfBytes(x, r);
    }
    ReadCountedOfFlat(ReadOut, OutBytes, Same, vout, rest);
    MapSame(vout);
  }

  lemma ReadStackOfBytes(stack: seq<bytes>, rest: bytes)
    requires StackFits(stack)
    ensures ReadStack(StackBytes(stack) + rest) == Ok(Parsed(stack, rest))
  {
    forall x, r | x in stack
      ensures ReadVarBytes(VarBytes(x) + r) == Ok(Parsed(Same(x), r))
    {
      ReadVarBytesOfVarBytes(x, r);
    }
    ReadCountedOfFlat(ReadVarBytes, VarBytes, Same, stack, rest);
    MapSame(stack);
  }

  function WitnessOf(i: TxIn): seq<bytes> { i.stack }

  lemma ReadWitnessOfBytes(vin: seq<TxIn>, rest: bytes)
    requires forall i :: 0 <= i < |vin| ==> InFits(vin[i])
    ensures ReadWitness(MapSeq(NoWitness, vin), true, Flat(WitnessBytes, vin) + rest) == Ok(Parsed(vin, rest))
  {
    forall x, r | x in vin
      ensures ReadStack(WitnessBytes(x) + r) == Ok(Parsed(WitnessOf(x), r))
    {
      ReadStackOfBytes(x.stack, r);
    }
    ReadManyOfFlat(ReadStack, WitnessBytes, WitnessOf, vin, rest);
    assert AttachWitness(MapSeq(NoWitness, vin), MapSeq(WitnessOf, vin)) == vin;
  }

  lemma ReadBodyOfParts(tx: Tx, ins: seq<TxIn>, segwit: bool, b: bytes, r1: bytes, r2: bytes)
    requires ReadCounted(ReadIn, b) == Ok(Parsed(ins, r1))
    requires ReadCounted(ReadOut, r1) == Ok(Parsed(tx.vout, r2))
    requires ReadWitness(ins, segwit, r2) == Ok(Parsed(tx.vin, LE(tx.locktime, 4)))
    ensures ReadBody(tx.version, segwit, b) == Ok(tx)
  {
    Pow256Values();
    ReadLEOfLE(tx.locktime, 4, []);
    assert LE(tx.locktime, 4) + [] == LE(tx.locktime, 4);
  }

  lemma ReadBodyOfStripped(tx: Tx)
    requires TxFits(tx)
    ensures ReadBody(tx.version, false, StrippedBody(tx)) == Ok(WithoutWitness(tx))
  {
    var r1 := VoutBytes(tx.vout) + LE(tx.locktime, 4);
    var ins := MapSeq(NoWitness, tx.vin);
    ReadVinOfBytes(tx.vin, r1);
    ReadVoutOfBytes(tx.vout, LE(tx.locktime, 4));
    ReadBodyOfParts(WithoutWitness(tx), ins, false, VinBytes(tx.vin) + r1, r1, LE(tx.locktime, 4));
  }

  lemma ReadBodyOfWitness(tx: Tx)
    requires TxFits(tx)
    ensures ReadBody(tx.version, true, WitnessBody(tx)) == Ok(tx)
  {
    var r2 := Flat(WitnessBytes, tx.vin) + LE(tx.locktime, 4);
    var r1 := VoutBytes(tx.vout) + r2;
    var ins := MapSeq(NoWitness, tx.vin);
    ReadVinOfBytes(tx.vin, r1);
    ReadVoutOfBytes(tx.vout, r2);
    ReadWitnessOfBytes(tx.vin, LE(tx.locktime, 4));
    ReadBodyOfParts(tx, ins, true, VinBytes(tx.vin) + r1, r1, r2);
  }

  lemma ReadVersion(tx: Tx, rest: bytes)
    ensures ReadLE(VersionBytes(tx) + rest, 4) == Ok(Parsed(ToUnsigned(tx.version), rest))
    ensures ToSigned(ToUnsigned(tx.version)) == tx.version
  {
    Pow256Values();
    ReadLEOfLE(ToUnsigned(tx.version), 4, rest);
  }

  /** Parsing the stripped layout returns the transaction without its witness,
      for every input and output count. */
  lemma ParseOfStripped(tx: Tx)
    requires TxFits(tx)
    ensures ParseTx(Stripped(tx), false) == Ok(WithoutWitness(tx))
  {
    ReadVersion(tx, StrippedBody(tx));
    ReadBodyOfStripped(tx);
  }

  lemma VinBytesStart(vin: seq<TxIn>, rest: bytes)
    requires vin != []
    ensures VinBytes(vin) + rest != [] && (VinBytes(vin) + rest)[0] != 0
  {}

  /** The two encodings that start with the bytes of a marker. */
  predicate Ambiguous(tx: Tx) { tx.vin == [] && |tx.vout| == 1 }

  lemma ParseOfWitnessed(tx: Tx)
    requires TxFits(tx) && HasWitness(tx)
    ensures ParseTx(WireBytes(tx), true) == Ok(tx)
  {
    var marked := MARKER_AND_FLAG + WitnessBody(tx);
    ReadVersion(tx, marked);
    assert marked[2..] == WitnessBody(tx);
    ReadBodyOfWitness(tx);
  }

  lemma StrippedBodyMarker(tx: Tx)
    ensures HasMarker(StrippedBody(tx)) <==> Ambiguous(tx)
  {
    var r1 := VoutBytes(tx.vout) + LE(tx.locktime, 4);
    if tx.vin == [] {
      assert StrippedBody(tx) == [0] + r1;
      assert r1[0] == CompactSize(|tx.vout|)[0];
    } else {
      VinBytesStart(tx.vin, r1);
    }
  }

  lemma ParseOfUnwitnessed(tx: Tx)
    requires TxFits(tx) && !HasWitness(tx) && !Ambiguous(tx)
    ensures ParseTx(WireBytes(tx), true) == Ok(tx)
  {
    ReadVersion(tx, StrippedBody(tx));
    StrippedBodyMarker(tx);
    ReadBodyOfStripped(tx);
    assert MapSeq(NoWitness, tx.vin) == tx.vin;
  }

  lemma ReadOutCost(b: bytes)
    requires ReadOut(b).Ok?
    ensures |b| - |ReadOut(b).value.rest| >= |OutBytes(ReadOut(b).value.value)|
  {
    var r := ReadLE(b, 8).value.rest;
    ReadCompactSizeCost(r);
  }

  lemma ParseOfWireAmbiguous(tx: Tx)
    requires Ambiguous(tx)
    ensures ParseTx(WireBytes(tx), true) != Ok(tx)
  {
    var o := tx.vout[0];
    var tail := OutBytes(o) + LE(tx.locktime, 4);
    AmbiguousShape(tx);
    ReadVersion(tx, MARKER_AND_FLAG + tail);
    assert (MARKER_AND_FLAG + tail)[2..] == tail;
    TailTooShort(tx, tail);
  }

  lemma AmbiguousShape(tx: Tx)
    requires Ambiguous(tx)
    ensures WireBytes(tx) == VersionBytes(tx) + (MARKER_AND_FLAG + (OutBytes(tx.vout[0]) + LE(tx.locktime, 4)))
  {
    hide OutBytes, VersionBytes, LE;
    var o, locktime := OutBytes(tx.vout[0]), LE(tx.locktime, 4);
    assert Flat(OutBytes, tx.vout) == o + Flat(OutBytes, tx.vout[1..]) == o;
    assert VoutBytes(tx.vout) == [1] + o && VinBytes(tx.vin) == [0];
    assert [0] + (([1] + o) + locktime) == [0, 1] + (o + locktime);
  }

  /** What follows the supposed marker is too short to hold the same output again. */
  lemma TailTooShort(tx: Tx, tail: bytes)
    requires Ambiguous(tx) && |tail| == |OutBytes(tx.vout[0])| + 4
    ensures ReadBody(tx.version, true, tail) != Ok(tx)
  {
    if ReadBody(tx.version, true, tail) == Ok(tx) {
      var ins := ReadCounted(ReadIn, tail).value;
      var outs := ReadCounted(ReadOut, ins.rest).value;
      ReadManyCount(ReadIn, ReadCompactSize(tail).value.rest, ReadCompactSize(tail).value.value);
      ReadManyCount(ReadStack, outs.rest, 0);
      var n := ReadCompactSize(ins.rest).value;
      ReadManyCount(ReadOut, n.rest, n.value);
      assert n.value == 1 && outs == ReadMany(ReadOut, n.rest, 1).value;
      assert outs.value == [ReadOut(n.rest).value.value] + [];
      ReadOutCost(n.rest);
    }
  }

  /** Parsing undoes the wire encoding exactly when the encoding does not start
      like a marker: no inputs and a single output. */
  lemma ParseOfWire(tx: Tx)
    requires TxFits(tx)
    ensures ParseTx(WireBytes(tx), true) == Ok(tx) <==> !Ambiguous(tx)
  {
    if Ambiguous(tx) {
      ParseOfWireAmbiguous(tx);
    } else if HasWitness(tx) {
      ParseOfWitnessed(tx);
    } else {
      ParseOfUnwitnessed(tx);
    }
  }

  lemma WireInjective(a: Tx, b: Tx)
    requires TxFits(a) && TxFits(b) && !Ambiguous(a) && !Ambiguous(b)
    requires WireBytes(a) == WireBytes(b)
    ensures a == b
  {
    ParseOfWire(a);
    ParseOfWire(b);
  }

  lemma StrippedInjective(a: Tx, b: Tx)
    requires TxFits(a) && TxFits(b) && Stripped(a) == Stripped(b)
    ensures WithoutWitness(a) == WithoutWitness(b)
  {
    ParseOfStripped(a);
    ParseOfStripped(b);
  }

  // -------------------------------------------------------------------- sizes

  lemma WireLength(tx: Tx)
    ensures |WireBytes(tx)| == |Stripped(tx)| + if HasWitness(tx) then 2 + |Flat(WitnessBytes, tx.vin)| else 0
  {}

  /** Virtual size lies between the two byte sizes, and is the byte size when
      nothing is witnessed. */
  lemma VSizeBounds(tx: Tx)
    ensures |Stripped(tx)| <= VSize(tx) <= |WireBytes(tx)|
    ensures !HasWitness(tx) <==> VSize(tx) == |WireBytes(tx)|
  {
    WireLength(tx);
    if HasWitness(tx) {
      var i :| 0 <= i < |tx.vin| && tx.vin[i].stack != [];
      FlatCountGuard(WitnessBytes, tx.vin);
    }
  }

  // --------------------------------------------- the parser over a live reader

  method ParseIn(r: Reader) returns (res: Result<TxIn, Error>)
    requires r.Valid()
    modifies r`pos
    ensures r.Did(ReadIn(old(r.Rest())), res)
  {
    Pow256Values();
    var txhash :- r.TakeBytes(32);
    var n :- r.ReadNumber(4);
    var script :- r.ReadString();
    var sequence :- r.ReadNumber(4);
    res := Ok(TxIn(txhash, n, script, sequence, []));
  }

  method ParseOut(r: Reader) returns (res: Result<TxOut, Error>)
    requires r.Valid()
    modifies r`pos
    ensures r.Did(ReadOut(old(r.Rest())), res)
  {
    Pow256Values();
    var amount :- r.ReadNumber(8);
    var script :- r.ReadString();
    res := Ok(TxOut(amount, script));
  }

  method ParseItems(r: Reader, n: nat) returns (res: Result<seq<bytes>, Error>)
    requires r.Valid()
    modifies r`pos
    ensures r.Did(ReadMany(ReadVarBytes, old(r.Rest()), n), res)
  {
    ghost var all := ReadMany(ReadVarBytes, r.Rest(), n);
    var stack: seq<bytes> := [];
    PrependNothing(all);
    for i := 0 to n
      invariant r.Valid()
      invariant all == Prepend(stack, ReadMany(ReadVarBytes, r.Rest(), n - i))
    {
      ReadManyStep(ReadVarBytes, stack, r.Rest(), n - i);
      var item :- r.ReadString();
      stack := stack + [item];
    }
    ReadManyDone(ReadVarBytes, stack, r.Rest());
    res := Ok(stack);
  }

  method ParseWitnessSection(r: Reader) returns (res: Result<seq<bytes>, Error>)
    requires r.Valid()
    modifies r`pos
    ensures r.Did(ReadStack(old(r.Rest())), res)
  {
    var nItems :- r.ReadSize();
    if nItems > r.Remaining() { return Err(Truncated); }
    res := ParseItems(r, nItems);
  }

  method SeesMarker(r: Reader) returns (marker: bool)
    requires r.Valid()
    ensures marker == HasMarker(r.Rest())
  {
    var b0 := r.Peek(0);
    var b1 := r.Peek(1);
    marker := r.Remaining() >= 2 && b0 == Some(0x00) && b1 == Some(0x01);
  }

  method ParseTransaction(data: bytes, segwitAllowed: bool) returns (res: Result<Tx, Error>)
    ensures res == ParseTx(data, segwitAllowed)
  {
    hide ReadBody;
    Pow256Values();
    var r := new Reader(data);
    var version :- r.ReadNumber(4);
    var marker := SeesMarker(r);
    var segwit := segwitAllowed && marker;
    if segwit {
      var _ := r.TakeBytes(2);
    }
    res := ParseBody(r, ToSigned(version), segwit);
  }

  method ParseBody(r: Reader, version: i32, segwit: bool) returns (res: Result<Tx, Error>)
    requires r.Valid()
    modifies r`pos
    ensures res == ReadBody(version, segwit, old(r.Rest()))
  {
    Pow256Values();
    var vin :- ParseVin(r);
    var vout :- ParseVout(r);
    if segwit {
      vin :- ParseWitnesses(r, vin);
    }
    var locktime :- r.ReadNumber(4);
    if !r.AtEnd() { return Err(Truncated); }
    res := Ok(Tx(version, vin, vout, locktime));
  }

  method ParseIns(r: Reader, n: nat) returns (res: Result<seq<TxIn>, Error>)
    requires r.Valid()
    modifies r`pos
    ensures r.Did(ReadMany(ReadIn, old(r.Rest()), n), res)
  {
    ghost var all := ReadMany(ReadIn, r.Rest(), n);
    var vin: seq<TxIn> := [];
    PrependNothing(all);
    for i := 0 to n
      invariant r.Valid()
      invariant all == Prepend(vin, ReadMany(ReadIn, r.Rest(), n - i))
    {
      ReadManyStep(ReadIn, vin, r.Rest(), n - i);
      var item :- ParseIn(r);
      vin := vin + [item];
    }
    ReadManyDone(ReadIn, vin, r.Rest());
    res := Ok(vin);
  }

  method ParseVin(r: Reader) returns (res: Result<seq<TxIn>, Error>)
    requires r.Valid()
    modifies r`pos
    ensures r.Did(ReadCounted(ReadIn, old(r.Rest())), res)
  {
    var nVin :- r.ReadSize();
    if nVin > r.Remaining() { return Err(Truncated); }
    res := ParseIns(r, nVin);
  }

  method ParseOuts(r: Reader, n: nat) returns (res: Result<seq<TxOut>, Error>)
    requires r.Valid()
    modifies r`pos
    ensures r.Did(ReadMany(ReadOut, old(r.Rest()), n), res)
  {
    ghost var all := ReadMany(ReadOut, r.Rest(), n);
    var vout: seq<TxOut> := [];
    PrependNothing(all);
    for i := 0 to n
      invariant r.Valid()
      invariant all == Prepend(vout, ReadMany(ReadOut, r.Rest(), n - i))
    {
      ReadManyStep(ReadOut, vout, r.Rest(), n - i);
      var item :- ParseOut(r);
      vout := vout + [item];
    }
    ReadManyDone(ReadOut, vout, r.Rest());
    res := Ok(vout);
  }

  method ParseVout(r: Reader) returns (res: Result<seq<TxOut>, Error>)
    requires r.Valid()
    modifies r`pos
    ensures r.Did(ReadCounted(ReadOut, old(r.Rest())), res)
  {
    var nVout :- r.ReadSize();
    if nVout > r.Remaining() { return Err(Truncated); }
    res := ParseOuts(r, nVout);
  }

  method ParseStacks(r: Reader, n: nat) returns (res: Result<seq<seq<bytes>>, Error>)
    requires r.Valid()
    modifies r`pos
    ensures r.Did(ReadStacks(old(r.Rest()), n), res)
  {
    ghost var all := ReadMany(ReadStack, r.Rest(), n);
    var stacks: seq<seq<bytes>> := [];
    PrependNothing(all);
    for i := 0 to n
      invariant r.Valid()
      invariant all == Prepend(stacks, ReadMany(ReadStack, r.Rest(), n - i))
    {
      ReadManyStep(ReadStack, stacks, r.Rest(), n - i);
      var stack :- ParseWitnessSection(r);
      stacks := stacks + [stack];
    }
    ReadManyDone(ReadStack, stacks, r.Rest());
    res := Ok(stacks);
  }

  method ParseWitnesses(r: Reader, vin: seq<TxIn>) returns (res: Result<seq<TxIn>, Error>)
    requires r.Valid()
    modifies r`pos
    ensures r.Did(ReadWitness(vin, true, old(r.Rest())), res)
  {
    ReadManyCount(ReadStack, r.Rest(), |vin|);
    var stacks :- ParseStacks(r, |vin|);
    res := Ok(AttachWitness(vin, stacks));
  }

  // ------------------------------------------------ serializing input by input

  method SerializeStripped(tx: Tx) returns (result: bytes)
    ensures result == Stripped(tx)
  {
    result := AppendIns(VersionBytes(tx), tx.vin);
    result := AppendOuts(result, tx.vout);
    result := result + LE(tx.locktime, 4);
    Assoc4(VersionBytes(tx), VinBytes(tx.vin), VoutBytes(tx.vout), LE(tx.locktime, 4));
  }

  method SerializeWire(tx: Tx) returns (result: bytes)
    ensures result == WireBytes(tx)
  {
    if !HasWitness(tx) {
      result := SerializeStripped(tx);
    } else {
      result := AppendIns(VersionBytes(tx) + MARKER_AND_FLAG, tx.vin);
      result := AppendOuts(result, tx.vout);
      result := AppendStacks(result, tx.vin);
      result := result + LE(tx.locktime, 4);
      var stacks, locktime := Flat(WitnessBytes, tx.vin), LE(tx.locktime, 4);
      Assoc(VersionBytes(tx) + MARKER_AND_FLAG + VinBytes(tx.vin) + VoutBytes(tx.vout), stacks, locktime);
      Assoc4(VersionBytes(tx) + MARKER_AND_FLAG, VinBytes(tx.vin), VoutBytes(tx.vout), stacks + locktime);
      Assoc(VersionBytes(tx), MARKER_AND_FLAG, WitnessBody(tx));
    }
  }

  method AppendIns(start: bytes, vin: seq<TxIn>) returns (result: bytes)
    ensures result == start + VinBytes(vin)
  {
    var head := start + CompactSize(|vin|);
    result := head;
    for i := 0 to |vin|
      invariant result == head + Flat(InBytes, vin[..i])
    {
      FlatStep(InBytes, head, vin, i);
      result := result + InBytes(vin[i]);
    }
    assert vin[..|vin|] == vin;
    Assoc(start, CompactSize(|vin|), Flat(InBytes, vin));
  }

  method AppendOuts(start: bytes, vout: seq<TxOut>) returns (result: bytes)
    ensures result == start + VoutBytes(vout)
  {
    var head := start + CompactSize(|vout|);
    result := head;
    for i := 0 to |vout|
      invariant result == head + Flat(OutBytes, vout[..i])
    {
      FlatStep(OutBytes, head, vout, i);
      result := result + OutBytes(vout[i]);
    }
    assert vout[..|vout|] == vout;
    Assoc(start, CompactSize(|vout|), Flat(OutBytes, vout));
  }

  method AppendStacks(start: bytes, vin: seq<TxIn>) returns (result: bytes)
    ensures result == start + Flat(WitnessBytes, vin)
  {
    result := start;
    for i := 0 to |vin|
      invariant result == start + Flat(WitnessBytes, vin[..i])
    {
      FlatStep(WitnessBytes, start, vin, i);
      var stack := EncodeWitnessStack(vin[i].stack);
      result := result + stack;
    }
    assert vin[..|vin|] == vin;
  }

  method EncodeWitnessStack(items: seq<bytes>) returns (out: bytes)
    ensures out == StackBytes(items)
  {
    var head := CompactSize(|items|);
    out := head;
    for i := 0 to |items|
      invariant out == head + Flat(VarBytes, items[..i])
    {
      FlatStep(VarBytes, head, items, i);
      out := out + VarBytes(items[i]);
    }
    assert items[..|items|] == items;
  }

  /** A serialized witness stack decoded on its own: nothing may follow it. */
  function DecodeWitnessStack(data: bytes): Result<seq<bytes>, Error> {
    var s :- ReadStack(data);
    if s.rest != [] then Err(Truncated) else Ok(s.value)
  }

  lemma DecodeWitnessStackOfBytes(stack: seq<bytes>)
    requires StackFits(stack)
    ensures DecodeWitnessStack(StackBytes(stack)) == Ok(stack)
  {
    ReadStackOfBytes(stack, []);
    assert StackBytes(stack) + [] == StackBytes(stack);
  }
}
