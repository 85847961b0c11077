/** What parsing forgets: each reader against the writer of what it read. Writing
    again never takes more bytes, and gives the same bytes exactly when the input
    used the narrowest lengths and no redundant marker. */
module Exactness {
  import opened Bytes
  import opened Wire
  import opened Transactions

  /** `rest` is the end of `b`; `enc` followed by it is no longer than `b`, and is `b`
      exactly when `narrow` holds. */
  ghost predicate Exact(b: bytes, enc: bytes, rest: bytes, narrow: bool) {
    && |rest| <= |b| && rest == b[|b| - |rest|..] && |enc| + |rest| <= |b|
    && (narrow <==> b == enc + rest)
  }

  lemma SuffixOf(a: bytes, b: bytes)
    ensures (a + b)[|a|..] == b && (a + b)[..|a|] == a
  {}

  lemma SuffixTwice(b: bytes, m: nat, n: nat)
    requires m <= n <= |b|
    ensures b[m..][n - m..] == b[n..]
  {}

  /** One reading after another. */
  lemma ExactThen(b: bytes, enc1: bytes, mid: bytes, narrow1: bool, enc2: bytes, rest: bytes, narrow2: bool)
    requires Exact(b, enc1, mid, narrow1) && Exact(mid, enc2, rest, narrow2)
    ensures Exact(b, enc1 + enc2, rest, narrow1 && narrow2)
  {
    SuffixTwice(b, |b| - |mid|, |b| - |rest|);
    Assoc(enc1, enc2, rest);
    if b == enc1 + enc2 + rest {
      SuffixOf(enc1, enc2 + rest);
      assert |mid| == |enc2 + rest|;
    }
  }

  lemma ExactNothing(b: bytes)
    ensures Exact(b, [], b, true)
  {
    assert [] + b == b;
  }

  lemma ExactTake(b: bytes, n: nat)
    requires n <= |b|
    ensures Exact(b, b[..n], b[n..], true)
  {
    assert b == b[..n] + b[n..];
  }

  // ------------------------------------------------------------------- primitives

  /** The CompactSize at the front has the narrowest width for its value. */
  predicate Narrow(b: bytes) {
    match ReadCompactSize(b)
    case Err(_) => false
    case Ok(n) =>
      || b[0] <= 0xfc || (b[0] == 0xfd && n.value >= 0xfd) || (b[0] == 0xfe && n.value > 0xffff)
      || (b[0] == 0xff && n.value > 0xffff_ffff)
  }

  lemma ExactLE(b: bytes, k: nat)
    requires ReadLE(b, k).Ok?
    ensures Exact(b, LE(ReadLE(b, k).value.value, k), ReadLE(b, k).value.rest, true)
  {
    ExactTake(b, k);
    LEOfFromLE(b[..k]);
  }

  lemma ExactCompactSize(b: bytes)
    requires ReadCompactSize(b).Ok?
    ensures Exact(b, CompactSize(ReadCompactSize(b).value.value), ReadCompactSize(b).value.rest, Narrow(b))
  {
    Pow256Values();
    var n := ReadCompactSize(b).value.value;
    ExactTake(b, 1);
    assert b[..1] == [b[0]];
    if b[0] > 0xfc {
      var k := if b[0] == 0xfd then 2 else if b[0] == 0xfe then 4 else 8;
      ExactLE(b[1..], k);
      ExactThen(b, [b[0]], b[1..], true, LE(n, k), ReadCompactSize(b).value.rest, true);
      if !Narrow(b) { assert |CompactSize(n)| < 1 + k; }
    }
  }

  lemma ExactVarBytes(b: bytes)
    requires ReadVarBytes(b).Ok?
    ensures Exact(b, VarBytes(ReadVarBytes(b).value.value), ReadVarBytes(b).value.rest, Narrow(b))
  {
    var n := ReadCompactSize(b).value;
    ExactCompactSize(b);
    ExactTake(n.rest, n.value);
    ExactThen(b, CompactSize(n.value), n.rest, Narrow(b), n.rest[..n.value], n.rest[n.value..], true);
  }

  // ------------------------------------------------------------------ counted lists

  predicate NarrowMany<T>(p: bytes -> Reading<T>, narrow: bytes -> bool, b: bytes, n: nat)
    decreases n
  {
    n == 0 || match p(b)
      case Err(_) => false
      case Ok(x) => narrow(b) && NarrowMany(p, narrow, x.rest, n - 1)
  }

  predicate NarrowCounted<T>(p: bytes -> Reading<T>, narrow: bytes -> bool, b: bytes) {
    match ReadCompactSize(b)
    case Err(_) => false
    case Ok(n) => Narrow(b) && NarrowMany(p, narrow, n.rest, n.value)
  }

  ghost predicate ExactReader<T>(p: bytes -> Reading<T>, enc: T -> bytes, narrow: bytes -> bool) {
    forall b :: p(b).Ok? ==> Exact(b, enc(p(b).value.value), p(b).value.rest, narrow(b))
  }

  lemma {:induction false} ExactMany<T>(p: bytes -> Reading<T>, enc: T -> bytes, narrow: bytes -> bool, b: bytes, n: nat)
    requires ExactReader(p, enc, narrow) && ReadMany(p, b, n).Ok?
    ensures Exact(b, Flat(enc, ReadMany(p, b, n).value.value), ReadMany(p, b, n).value.rest, NarrowMany(p, narrow, b, n))
    decreases n
  {
    hide Exact;
    if n == 0 {
      ExactNothing(b);
    } else {
      var x := p(b).value;
      ExactMany(p, enc, narrow, x.rest, n - 1);
      var xs := ReadMany(p, x.rest, n - 1).value;
      ExactThen(b, enc(x.value), x.rest, narrow(b), Flat(enc, xs.value), xs.rest, NarrowMany(p, narrow, x.rest, n - 1));
      assert ([x.value] + xs.value)[1..] == xs.value;
    }
  }

  lemma ExactCounted<T>(p: bytes -> Reading<T>, enc: T -> bytes, narrow: bytes -> bool, b: bytes)
    requires ExactReader(p, enc, narrow) && ReadCounted(p, b).Ok?
    ensures var xs := ReadCounted(p, b).value;
      Exact(b, CompactSize(|xs.value|) + Flat(enc, xs.value), xs.rest, NarrowCounted(p, narrow, b))
  {
    hide Exact;
    var n := ReadCompactSize(b).value;
    ReadManyCount(p, n.rest, n.value);
    ExactCompactSize(b);
    ExactMany(p, enc, narrow, n.rest, n.value);
    var xs := ReadMany(p, n.rest, n.value).value;
    ExactThen(b, CompactSize(n.value), n.rest, Narrow(b), Flat(enc, xs.value), xs.rest,
              NarrowMany(p, narrow, n.rest, n.value));
  }

  // ------------------------------------------------------------------- transactions

  predicate NarrowIn(b: bytes) { |b| >= 36 && Narrow(b[36..]) }

  predicate NarrowOut(b: bytes) { |b| >= 8 && Narrow(b[8..]) }

  predicate NarrowStack(b: bytes) { NarrowCounted(ReadVarBytes, Narrow, b) }

  lemma ExactIn(b: bytes)
    requires ReadIn(b).Ok?
    ensures Exact(b, InBytes(ReadIn(b).value.value), ReadIn(b).value.rest, NarrowIn(b))
    ensures ReadIn(b).value.value.stack == []
  {
    hide Exact, Narrow;
    Pow256Values();
    var i, end := ReadIn(b).value.value, ReadIn(b).value.rest;
    var r1 := b[32..];
    var r2 := r1[4..];
    SuffixTwice(b, 32, 36);
    var r3 := ReadVarBytes(r2).value.rest;
    ExactTake(b, 32);
    ExactLE(r1, 4);
    ExactVarBytes(r2);
    ExactLE(r3, 4);
    ExactThen(b, i.txhash, r1, true, LE(i.n, 4), r2, true);
    ExactThen(b, i.txhash + LE(i.n, 4), r2, true, VarBytes(i.script), r3, Narrow(r2));
    ExactThen(b, i.txhash + LE(i.n, 4) + VarBytes(i.script), r3, Narrow(r2), LE(i.sequence, 4), end, true);
  }

  lemma ExactOut(b: bytes)
    requires ReadOut(b).Ok?
    ensures Exact(b, OutBytes(ReadOut(b).value.value), ReadOut(b).value.rest, NarrowOut(b))
  {
    hide Exact, Narrow;
    Pow256Values();
    var o := ReadOut(b).value.value;
    ExactLE(b, 8);
    ExactVarBytes(b[8..]);
    ExactThen(b, LE(o.amount, 8), b[8..], true, VarBytes(o.script), ReadOut(b).value.rest, Narrow(b[8..]));
  }

  lemma ExactStack(b: bytes)
    requires ReadStack(b).Ok?
    ensures Exact(b, StackBytes(ReadStack(b).value.value), ReadStack(b).value.rest, NarrowStack(b))
  {
    forall c | ReadVarBytes(c).Ok?
      ensures Exact(c, VarBytes(ReadVarBytes(c).value.value), ReadVarBytes(c).value.rest, Narrow(c))
    {
      ExactVarBytes(c);
    }
    ExactCounted(ReadVarBytes, VarBytes, Narrow, b);
  }

  lemma ExactVin(b: bytes)
    requires ReadCounted(ReadIn, b).Ok?
    ensures var vin := ReadCounted(ReadIn, b).value;
      Exact(b, VinBytes(vin.value), vin.rest, NarrowCounted(ReadIn, NarrowIn, b))
  {
    forall c | ReadIn(c).Ok?
      ensures Exact(c, InBytes(ReadIn(c).value.value), ReadIn(c).value.rest, NarrowIn(c))
    {
      ExactIn(c);
    }
    ExactCounted(ReadIn, InBytes, NarrowIn, b);
  }

  lemma ExactVout(b: bytes)
    requires ReadCounted(ReadOut, b).Ok?
    ensures var vout := ReadCounted(ReadOut, b).value;
      Exact(b, VoutBytes(vout.value), vout.rest, NarrowCounted(ReadOut, NarrowOut, b))
  {
    forall c | ReadOut(c).Ok?
      ensures Exact(c, OutBytes(ReadOut(c).value.value), ReadOut(c).value.rest, NarrowOut(c))
    {
      ExactOut(c);
    }
    ExactCounted(ReadOut, OutBytes, NarrowOut, b);
  }

  lemma ExactStacks(b: bytes, n: nat)
    requires ReadStacks(b, n).Ok?
    ensures var stacks := ReadStacks(b, n).value;
      Exact(b, Flat(StackBytes, stacks.value), stacks.rest, NarrowMany(ReadStack, NarrowStack, b, n))
  {
    forall c | ReadStack(c).Ok?
      ensures Exact(c, StackBytes(ReadStack(c).value.value), ReadStack(c).value.rest, NarrowStack(c))
    {
      ExactStack(c);
    }
    ExactMany(ReadStack, StackBytes, NarrowStack, b, n);
  }

  /** The lists of a transaction body use the narrowest lengths. */
  predicate NarrowBody(segwit: bool, b: bytes) {
    match ReadCounted(ReadIn, b)
    case Err(_) => false
    case Ok(ins) =>
      NarrowCounted(ReadIn, NarrowIn, b)
      && match ReadCounted(ReadOut, ins.rest)
         case Err(_) => false
         case Ok(outs) =>
           NarrowCounted(ReadOut, NarrowOut, ins.rest)
           && (segwit ==> NarrowMany(ReadStack, NarrowStack, outs.rest, |ins.value|))
  }

  lemma {:induction false} ReadInsBare(b: bytes, n: nat)
    requires ReadMany(ReadIn, b, n).Ok?
    ensures forall i :: i in ReadMany(ReadIn, b, n).value.value ==> i.stack == []
    decreases n
  {
    hide ReadIn;
    if n > 0 {
      ExactIn(b);
      var tail := ReadMany(ReadIn, ReadIn(b).value.rest, n - 1).value.value;
      ReadInsBare(ReadIn(b).value.rest, n - 1);
      assert ReadMany(ReadIn, b, n).value.value == [ReadIn(b).value.value] + tail;
    }
  }

  lemma WitnessSection(vin: seq<TxIn>, b: bytes)
    requires ReadWitness(vin, true, b).Ok?
    ensures var w := ReadWitness(vin, true, b).value;
      && |w.value| == |vin| && (forall i :: 0 <= i < |vin| ==> InBytes(w.value[i]) == InBytes(vin[i]))
      && Exact(b, Flat(WitnessBytes, w.value), w.rest, NarrowMany(ReadStack, NarrowStack, b, |vin|))
  {
    var stacks := ReadStacks(b, |vin|).value;
    ReadManyCount(ReadStack, b, |vin|);
    ExactStacks(b, |vin|);
    FlatSame(WitnessBytes, StackBytes, AttachWitness(vin, stacks.value), stacks.value);
  }

  lemma ExactBody(version: i32, segwit: bool, b: bytes)
    requires ReadBody(version, segwit, b).Ok?
    ensures var tx := ReadBody(version, segwit, b).value;
      && tx.version == version && (!segwit ==> !HasWitness(tx))
      && Exact(b, if segwit then WitnessBody(tx) else StrippedBody(tx), [], NarrowBody(segwit, b))
  {
    hide Exact, NarrowCounted, NarrowMany, Narrow;
    Pow256Values();
    var ins := ReadCounted(ReadIn, b).value;
    var outs := ReadCounted(ReadOut, ins.rest).value;
    var w := ReadWitness(ins.value, segwit, outs.rest).value;
    var tx := ReadBody(version, segwit, b).value;
    var n1, n2 := NarrowCounted(ReadIn, NarrowIn, b), NarrowCounted(ReadOut, NarrowOut, ins.rest);
    var locktime := LE(tx.locktime, 4);
    ExactVin(b);
    ExactVout(ins.rest);
    ReadInsBare(ReadCompactSize(b).value.rest, ReadCompactSize(b).value.value);
    ExactLE(w.rest, 4);
    assert ReadLE(w.rest, 4).value.rest == [];
    ExactThen(b, VinBytes(ins.value), ins.rest, n1, VoutBytes(outs.value), outs.rest, n2);
    if segwit {
      var n3 := NarrowMany(ReadStack, NarrowStack, outs.rest, |ins.value|);
      WitnessSection(ins.value, outs.rest);
      FlatSame(InBytes, InBytes, tx.vin, ins.value);
      ExactThen(b, VinBytes(ins.value) + VoutBytes(outs.value), outs.rest, n1 && n2, Flat(WitnessBytes, tx.vin), w.rest, n3);
      ExactThen(b, VinBytes(ins.value) + VoutBytes(outs.value) + Flat(WitnessBytes, tx.vin), w.rest, n1 && n2 && n3,
                locktime, [], true);
      Assoc4(VinBytes(tx.vin), VoutBytes(tx.vout), Flat(WitnessBytes, tx.vin), locktime);
    } else {
      ExactThen(b, VinBytes(ins.value) + VoutBytes(outs.value), outs.rest, n1 && n2, locktime, [], true);
      Assoc(VinBytes(tx.vin), VoutBytes(tx.vout), locktime);
    }
  }

  /** A transaction as the parser accepts it: whether it starts with a marker. */
  predicate Marked(data: bytes, segwitAllowed: bool) { |data| >= 4 && segwitAllowed && HasMarker(data[4..]) }

  /** Narrow lengths, and a marker only where some stack is not empty. */
  predicate NarrowTx(data: bytes, segwitAllowed: bool) {
    match ParseTx(data, segwitAllowed)
    case Err(_) => false
    case Ok(tx) =>
      |data| >= 4
      && if Marked(data, segwitAllowed) then NarrowBody(true, data[6..]) && HasWitness(tx) else NarrowBody(false, data[4..])
  }

  lemma ParsedVersion(data: bytes, segwitAllowed: bool)
    requires ParseTx(data, segwitAllowed).Ok?
    ensures |data| >= 4 && Exact(data, VersionBytes(ParseTx(data, segwitAllowed).value), data[4..], true)
    ensures var tx := ParseTx(data, segwitAllowed).value; var marked := Marked(data, segwitAllowed);
      && (marked ==> |data| >= 6)
      && ReadBody(tx.version, marked, if marked then data[6..] else data[4..]) == Ok(tx)
  {
    hide ReadBody, Exact, VersionBytes;
    Pow256Values();
    var v := ReadLE(data, 4).value;
    ExactLE(data, 4);
    assert v.rest == data[4..];
    var marked := Marked(data, segwitAllowed);
    if marked { SuffixTwice(data, 4, 6); }
    ExactBody(ToSigned(v.value), marked, if marked then data[6..] else data[4..]);
    VersionOf(v.value, ParseTx(data, segwitAllowed).value);
  }

  lemma VersionOf(n: u32, tx: Tx)
    requires tx.version == ToSigned(n)
    ensures VersionBytes(tx) == LE(n, 4)
  {}

  /** Writing a parsed transaction again never takes more bytes, and gives the same
      bytes exactly when they were narrow and had no redundant marker. */
  lemma ExactTx(data: bytes)
    requires ParseTx(data, true).Ok?
    ensures |WireBytes(ParseTx(data, true).value)| <= |data|
    ensures WireBytes(ParseTx(data, true).value) == data <==> NarrowTx(data, true)
  {
    hide NarrowBody, ReadBody, VersionBytes, StrippedBody, WitnessBody, ParseTx;
    var tx, marked := ParseTx(data, true).value, Marked(data, true);
    ParsedVersion(data, true);
    if marked {
      ExactBody(tx.version, true, data[6..]);
      MarkedTx(data, tx);
    } else {
      ExactBody(tx.version, false, data[4..]);
      ExactThen(data, VersionBytes(tx), data[4..], true, StrippedBody(tx), [], NarrowBody(false, data[4..]));
      UnmarkedTx(data, tx);
    }
  }

  lemma UnmarkedTx(data: bytes, tx: Tx)
    requires |data| >= 4 && Exact(data, VersionBytes(tx) + StrippedBody(tx), [], NarrowBody(false, data[4..]))
    ensures |Stripped(tx)| <= |data| && (Stripped(tx) == data <==> NarrowBody(false, data[4..]))
  {
    assert Stripped(tx) + [] == Stripped(tx);
  }

  lemma MarkedTx(data: bytes, tx: Tx)
    requires |data| >= 6 && HasMarker(data[4..])
    requires Exact(data, VersionBytes(tx), data[4..], true) && Exact(data[6..], WitnessBody(tx), [], NarrowBody(true, data[6..]))
    ensures |WireBytes(tx)| <= |data|
    ensures WireBytes(tx) == data <==> NarrowBody(true, data[6..]) && HasWitness(tx)
  {
    var body := data[4..];
    SuffixTwice(data, 4, 6);
    ExactTake(body, 2);
    assert body[..2] == MARKER_AND_FLAG;
    ExactThen(body, MARKER_AND_FLAG, body[2..], true, WitnessBody(tx), [], NarrowBody(true, data[6..]));
    ExactThen(data, VersionBytes(tx), body, true, MARKER_AND_FLAG + WitnessBody(tx), [], NarrowBody(true, data[6..]));
    var whole := VersionBytes(tx) + (MARKER_AND_FLAG + WitnessBody(tx));
    assert whole + [] == whole;
    if !HasWitness(tx) {
      BodyLengths(tx);
    }
    hide NarrowBody;
  }

  lemma BodyLengths(tx: Tx)
    ensures |WitnessBody(tx)| >= |StrippedBody(tx)|
  {}

  /** The same for the stripped layout of the unsigned transaction. */
  lemma ExactUnsigned(data: bytes)
    requires ParseTx(data, false).Ok?
    ensures |Stripped(ParseTx(data, false).value)| <= |data|
    ensures Stripped(ParseTx(data, false).value) == data <==> NarrowTx(data, false)
  {
    hide NarrowBody, ReadBody, VersionBytes, StrippedBody, ParseTx;
    var tx := ParseTx(data, false).value;
    ParsedVersion(data, false);
    ExactBody(tx.version, false, data[4..]);
    ExactThen(data, VersionBytes(tx), data[4..], true, StrippedBody(tx), [], NarrowBody(false, data[4..]));
    UnmarkedTx(data, tx);
  }
}
