/** The wire primitives: CompactSize integers, length-prefixed strings, and the
    bounds-checked sequential reader every parser is built on. */
module Wire {
  import opened Bytes

  datatype Error =
    | InvalidMagic | Truncated | NonMinimalCompactSize
    | InvalidKeyLength(fieldType: nat) | DuplicateKey
    | UnsupportedVersion(version: nat) | MissingUnsignedTx | InvalidUnsignedTx
    | MapCountMismatch | InvalidFieldValue | UnsupportedInputScript
    | UtxoMismatch | UnsupportedSighashType(sighashType: nat)
    | ConflictingField | ForeignTransaction | IncompleteInput(index: nat)
    | NotFinalized | TooLarge | PushTooLong | MissingSpendContext | SignerCountMismatch

  type Reading<+T> = Result<Parsed<T>, Error>

  // ------------------------------------------------------------- CompactSize

  function CompactSize(n: nat): (b: bytes)
    ensures 1 <= |b| <= 9
  {
    if n < 0xfd then [n]
    else if n <= 0xffff then [0xfd] + LE(n, 2)
    else if n <= 0xffff_ffff then [0xfe] + LE(n, 4)
    else [0xff] + LE(n, 8)
  }

  function Take(b: bytes, n: nat): (r: Reading<bytes>)
    ensures r.Ok? ==> n <= |b| && r.value == Parsed(b[..n], b[n..])
    ensures r.Err? ==> r.error == Truncated
  {
    if n > |b| then Err(Truncated) else Ok(Parsed(b[..n], b[n..]))
  }

  function ReadLE(b: bytes, k: nat): (r: Reading<nat>)
    ensures r.Ok? ==> |r.value.rest| == |b| - k && r.value.value < Pow256(k)
    ensures r.Err? ==> r.error == Truncated
  {
    var t :- Take(b, k);
    LEOfFromLE(t.value);
    Ok(Parsed(FromLE(t.value), t.rest))
  }

  /** Any of the four widths is accepted for any value. */
  function ReadCompactSize(b: bytes): (r: Reading<nat>)
    ensures r.Ok? ==> |r.value.rest| < |b|
    ensures r.Err? ==> r.error == Truncated
  {
    var prefix :- Take(b, 1);
    if prefix.value[0] <= 0xfc then Ok(Parsed(prefix.value[0], prefix.rest))
    else if prefix.value[0] == 0xfd then ReadLE(prefix.rest, 2)
    else if prefix.value[0] == 0xfe then ReadLE(prefix.rest, 4)
    else ReadLE(prefix.rest, 8)
  }

  lemma TakeOfConcat(b: bytes, rest: bytes)
    ensures Take(b + rest, |b|) == Ok(Parsed(b, rest))
  {
    assert (b + rest)[..|b|] == b && (b + rest)[|b|..] == rest;
  }

  lemma ReadLEOfLE(n: nat, k: nat, rest: bytes)
    requires n < Pow256(k)
    ensures ReadLE(LE(n, k) + rest, k) == Ok(Parsed(n, rest))
  {
    TakeOfConcat(LE(n, k), rest);
    FromLEOfLE(n, k);
  }

  /** Reading a CompactSize undoes writing it. */
  lemma ReadCompactSizeOfCompactSize(n: u64, rest: bytes)
    ensures ReadCompactSize(CompactSize(n) + rest) == Ok(Parsed(n, rest))
  {
    Pow256Values();
    var b := CompactSize(n);
    var body := b[1..] + rest;
    assert b + rest == [b[0]] + body;
    TakeOfConcat([b[0]], body);
    if n >= 0xfd {
      var k := if n <= 0xffff then 2 else if n <= 0xffff_ffff then 4 else 8;
      assert b[1..] == LE(n, k);
      ReadLEOfLE(n, k, rest);
    }
  }

  /** No encoding of a value is shorter than the one the writer emits. */
  lemma ReadCompactSizeCost(b: bytes)
    requires ReadCompactSize(b).Ok?
    ensures ReadCompactSize(b).value.value < 0x1_0000_0000_0000_0000
    ensures |b| - |ReadCompactSize(b).value.rest| >= |CompactSize(ReadCompactSize(b).value.value)|
  {
    Pow256Values();
    if b[0] > 0xfc {
      var k := if b[0] == 0xfd then 2 else if b[0] == 0xfe then 4 else 8;
      LEOfFromLE(b[1..][..k]);
    }
  }

  lemma CompactSizeMonotone(m: nat, n: nat)
    requires m <= n
    ensures |CompactSize(m)| <= |CompactSize(n)|
  {}

  // ---------------------------------------------------- length-prefixed bytes

  function VarBytes(b: bytes): bytes { CompactSize(|b|) + b }

  lemma VarBytesMonotone(a: bytes, b: bytes)
    requires |a| <= |b|
    ensures |VarBytes(a)| <= |VarBytes(b)|
  {
    CompactSizeMonotone(|a|, |b|);
  }

  function ReadVarBytes(b: bytes): (r: Reading<bytes>)
    ensures r.Ok? ==> |r.value.rest| < |b|
    ensures r.Err? ==> r.error == Truncated
  {
    var n :- ReadCompactSize(b);
    Take(n.rest, n.value)
  }

  lemma ReadVarBytesOfVarBytes(b: bytes, rest: bytes)
    requires |b| < 0x1_0000_0000_0000_0000
    ensures ReadVarBytes(VarBytes(b) + rest) == Ok(Parsed(b, rest))
  {
    assert VarBytes(b) + rest == CompactSize(|b|) + (b + rest);
    ReadCompactSizeOfCompactSize(|b|, b + rest);
    TakeOfConcat(b, rest);
  }

  // ------------------------------------------------------------ counted lists

  function ReadMany<T>(p: bytes -> Reading<T>, b: bytes, n: nat): Reading<seq<T>>
    decreases n
  {
    if n == 0 then Ok(Parsed([], b))
    else
      var x :- p(b);
      var xs :- ReadMany(p, x.rest, n - 1);
      Ok(Parsed([x.value] + xs.value, xs.rest))
  }

  /** What was read so far in front of what is still to be read. */
  function Prepend<T>(done: seq<T>, r: Reading<seq<T>>): Reading<seq<T>> {
    match r
    case Ok(p) => Ok(Parsed(done + p.value, p.rest))
    case Err(e) => Err(e)
  }

  lemma PrependAssoc<T>(a: seq<T>, b: seq<T>, r: Reading<seq<T>>)
    ensures Prepend(a, Prepend(b, r)) == Prepend(a + b, r)
  {
    if r.Ok? { assert a + (b + r.value.value) == a + b + r.value.value; }
  }

  lemma PrependNothing<T>(r: Reading<seq<T>>)
    ensures Prepend([], r) == r
  {
    if r.Ok? { assert [] + r.value.value == r.value.value; }
  }

  /** One turn of a reading loop. */
  lemma ReadManyStep<T>(p: bytes -> Reading<T>, done: seq<T>, b: bytes, n: nat)
    requires n > 0
    ensures p(b).Err? ==> Prepend(done, ReadMany(p, b, n)) == Err(p(b).error)
    ensures p(b).Ok? ==>
      Prepend(done, ReadMany(p, b, n)) == Prepend(done + [p(b).value.value], ReadMany(p, p(b).value.rest, n - 1))
  {
    if p(b).Ok? {
      PrependAssoc(done, [p(b).value.value], ReadMany(p, p(b).value.rest, n - 1));
    }
  }

  lemma ReadManyDone<T>(p: bytes -> Reading<T>, done: seq<T>, b: bytes)
    ensures Prepend(done, ReadMany(p, b, 0)) == Ok(Parsed(done, b))
  {
    assert done + [] == done;
  }

  /** If every item survives encoding and reading, so does the list. */
  lemma {:induction false} ReadManyOfFlat<S, T>(
      p: bytes -> Reading<T>, enc: S -> bytes, f: S -> T, xs: seq<S>, rest: bytes)
    requires forall x, r :: x in xs ==> p(enc(x) + r) == Ok(Parsed(f(x), r))
    ensures ReadMany(p, Flat(enc, xs) + rest, |xs|) == Ok(Parsed(MapSeq(f, xs), rest))
  {
    if xs == [] {
      assert Flat(enc, xs) + rest == rest;
    } else {
      var tail := Flat(enc, xs[1..]) + rest;
      Assoc(enc(xs[0]), Flat(enc, xs[1..]), rest);
      ReadManyOfFlat(p, enc, f, xs[1..], rest);
      assert [f(xs[0])] + MapSeq(f, xs[1..]) == MapSeq(f, xs);
    }
  }

  // -------------------------------------------------------------- the reader

  /** A cursor over an immutable byte string. */
  class Reader {
    const data: bytes
    var pos: nat

    ghost predicate Valid()
      reads this
    {
      pos <= |data|
    }

    function Rest(): bytes
      requires Valid()
      reads this
    {
      data[pos..]
    }

    /** The reader stands where the specification's reading ends. */
    ghost predicate Did<T>(spec: Reading<T>, r: Result<T, Error>)
      reads this
    {
      && Valid()
      && match spec
         case Ok(p) => r == Ok(p.value) && Rest() == p.rest
         case Err(e) => r == Err(e)
    }

    constructor (data: bytes)
      ensures Valid() && Rest() == data && this.data == data
    {
      this.data := data;
      this.pos := 0;
    }

    function Remaining(): nat
      requires Valid()
      reads this
    {
      |data| - pos
    }

    predicate AtEnd()
      requires Valid()
      reads this
    {
      pos >= |data|
    }

    method Peek(offset: nat) returns (r: Option<byte>)
      requires Valid()
      ensures r == if offset < |Rest()| then Some(Rest()[offset]) else None
    {
      var at := pos + offset;
      r := if at >= |data| then None else Some(data[at]);
    }

    method TakeBytes(n: nat) returns (r: Result<bytes, Error>)
      requires Valid()
      modifies this`pos
      ensures Did(Take(old(Rest()), n), r)
    {
      if n > Remaining() { return Err(Truncated); }
      r := Ok(data[pos..pos + n]);
      assert Rest()[..n] == data[pos..pos + n];
      pos := pos + n;
    }

    method ReadNumber(k: nat) returns (r: Result<nat, Error>)
      requires Valid()
      modifies this`pos
      ensures Did(ReadLE(old(Rest()), k), r)
    {
      var b :- TakeBytes(k);
      r := Ok(FromLE(b));
    }

    method ReadSize() returns (r: Result<nat, Error>)
      requires Valid()
      modifies this`pos
      ensures Did(ReadCompactSize(old(Rest())), r)
    {
      var b :- TakeBytes(1);
      var prefix := b[0];
      if prefix <= 0xfc { return Ok(prefix); }
      if prefix == 0xfd { r := ReadNumber(2); return; }
      if prefix == 0xfe { r := ReadNumber(4); return; }
      r := ReadNumber(8);
    }

    method ReadString() returns (r: Result<bytes, Error>)
      requires Valid()
      modifies this`pos
      ensures Did(ReadVarBytes(old(Rest())), r)
    {
      var n :- ReadSize();
      r := TakeBytes(n);
    }
  }
}
