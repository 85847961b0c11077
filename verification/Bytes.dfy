/** Byte strings, fixed-width little-endian integers and the byte order that
    every canonical form of the wallet is sorted by. */
module Bytes {

  type byte = b: int | 0 <= b < 256
  type bytes = seq<byte>

  type u32 = n: int | 0 <= n < 0x1_0000_0000
  type u64 = n: int | 0 <= n < 0x1_0000_0000_0000_0000
  type i32 = n: int | -0x8000_0000 <= n < 0x8000_0000

  type Hash20 = b: bytes | |b| == 20 witness seq(20, _ => 0)
  type Hash32 = b: bytes | |b| == 32 witness seq(32, _ => 0)
  type PubKey = b: bytes | |b| == 33 witness seq(33, _ => 0)

  datatype Option<+T> = None | Some(value: T)

  datatype Result<+T, +E> = Ok(value: T) | Err(error: E) {
    predicate IsFailure() { Err? }

    function PropagateFailure<U>(): Result<U, E>
      requires Err?
    {
      Err(error)
    }

    function Extract(): T
      requires Ok?
    {
      value
    }
  }

  /** A decoded value together with the input that follows it. */
  datatype Parsed<+T> = Parsed(value: T, rest: bytes)

  // ---------------------------------------------------------------- integers

  function Pow256(k: nat): (p: int)
    ensures p > 0
  {
    if k == 0 then 1 else 256 * Pow256(k - 1)
  }

  /** The low `k` bytes of `n`, least significant first (`pack('<...')`). */
  function LE(n: nat, k: nat): (b: bytes)
    ensures |b| == k
  {
    if k == 0 then [] else [n % 256] + LE(n / 256, k - 1)
  }

  function FromLE(b: bytes): nat {
    if b == [] then 0 else b[0] + 256 * FromLE(b[1..])
  }

  lemma {:induction false} FromLEOfLE(n: nat, k: nat)
    requires n < Pow256(k)
    ensures FromLE(LE(n, k)) == n
  {
    if k > 0 {
      FromLEOfLE(n / 256, k - 1);
      assert LE(n, k)[1..] == LE(n / 256, k - 1);
    }
  }

  lemma DivMod256(low: byte, high: nat)
    ensures (low + 256 * high) % 256 == low && (low + 256 * high) / 256 == high
  {}

  lemma {:induction false} LEOfFromLE(b: bytes)
    ensures FromLE(b) < Pow256(|b|)
    ensures LE(FromLE(b), |b|) == b
  {
    if b != [] {
      LEOfFromLE(b[1..]);
      DivMod256(b[0], FromLE(b[1..]));
      assert b == [b[0]] + b[1..];
    }
  }

  lemma Pow256Values()
    ensures Pow256(1) == 0x100 && Pow256(2) == 0x1_0000
    ensures Pow256(4) == 0x1_0000_0000 && Pow256(8) == 0x1_0000_0000_0000_0000
  {
    assert Pow256(3) == 0x100_0000;
    assert Pow256(5) == 0x100_0000_0000;
    assert Pow256(6) == 0x1_0000_0000_0000;
  }

  /** Two's complement of a signed 32-bit value, and back. */
  function ToUnsigned(v: i32): u32 {
    if v < 0 then v + 0x1_0000_0000 else v
  }

  function ToSigned(n: u32): i32 {
    if n >= 0x8000_0000 then n - 0x1_0000_0000 else n
  }

  // ------------------------------------------------------- lists of encodings

  function MapSeq<T, U>(f: T -> U, xs: seq<T>): (ys: seq<U>)
    ensures |ys| == |xs| && forall i :: 0 <= i < |xs| ==> ys[i] == f(xs[i])
  {
    seq(|xs|, i requires 0 <= i < |xs| => f(xs[i]))
  }

  /** The concatenation of the encodings of all items. */
  function Flat<T>(enc: T -> bytes, xs: seq<T>): bytes {
    if xs == [] then [] else enc(xs[0]) + Flat(enc, xs[1..])
  }

  lemma Assoc<T>(a: seq<T>, b: seq<T>, c: seq<T>)
    ensures a + b + c == a + (b + c)
  {}

  lemma Assoc4<T>(a: seq<T>, b: seq<T>, c: seq<T>, d: seq<T>)
    ensures a + b + c + d == a + (b + (c + d))
  {}

  lemma {:induction false} FlatSame<S, T>(f: S -> bytes, g: T -> bytes, xs: seq<S>, ys: seq<T>)
    requires |xs| == |ys| && forall i :: 0 <= i < |xs| ==> f(xs[i]) == g(ys[i])
    ensures Flat(f, xs) == Flat(g, ys)
  {
    if xs != [] { FlatSame(f, g, xs[1..], ys[1..]); }
  }

  lemma {:induction false} FlatConcat<T>(enc: T -> bytes, xs: seq<T>, ys: seq<T>)
    ensures Flat(enc, xs + ys) == Flat(enc, xs) + Flat(enc, ys)
  {
    if xs == [] {
      assert xs + ys == ys;
    } else {
      FlatConcat(enc, xs[1..], ys);
      assert (xs + ys)[1..] == xs[1..] + ys;
      Assoc(enc(xs[0]), Flat(enc, xs[1..]), Flat(enc, ys));
    }
  }

  lemma FlatSnoc<T>(enc: T -> bytes, xs: seq<T>, x: T)
    ensures Flat(enc, xs + [x]) == Flat(enc, xs) + enc(x)
  {
    FlatConcat(enc, xs, [x]);
    assert Flat(enc, [x]) == enc(x) + Flat(enc, []);
  }

  /** One turn of a loop that appends encodings. */
  lemma FlatStep<T>(enc: T -> bytes, start: bytes, xs: seq<T>, i: nat)
    requires i < |xs|
    ensures start + Flat(enc, xs[..i + 1]) == start + Flat(enc, xs[..i]) + enc(xs[i])
  {
    assert xs[..i + 1] == xs[..i] + [xs[i]];
    FlatSnoc(enc, xs[..i], xs[i]);
    Assoc(start, Flat(enc, xs[..i]), enc(xs[i]));
  }

  lemma MulSucc(a: nat, n: nat)
    ensures a * (n + 1) == a + a * n
  {}

  lemma {:induction false} FlatMinLength<T>(enc: T -> bytes, xs: seq<T>, each: nat)
    requires forall x :: x in xs ==> |enc(x)| >= each
    ensures |Flat(enc, xs)| >= each * |xs|
  {
    if xs != [] {
      FlatMinLength(enc, xs[1..], each);
      MulSucc(each, |xs[1..]|);
    }
  }

  // ------------------------------------------------------------- byte ordering

  /** Lexicographic order, a proper prefix first: Python's order on `bytes`. */
  predicate LexLe(a: bytes, b: bytes) {
    a == [] || (b != [] && (a[0] < b[0] || (a[0] == b[0] && LexLe(a[1..], b[1..]))))
  }

  lemma {:induction false} LexRefl(a: bytes)
    ensures LexLe(a, a)
  {
    if a != [] { LexRefl(a[1..]); }
  }

  lemma {:induction false} LexTotal(a: bytes, b: bytes)
    ensures LexLe(a, b) || LexLe(b, a)
  {
    if a != [] && b != [] { LexTotal(a[1..], b[1..]); }
  }

  lemma {:induction false} LexAntisym(a: bytes, b: bytes)
    requires LexLe(a, b) && LexLe(b, a)
    ensures a == b
  {
    if a != [] {
      LexAntisym(a[1..], b[1..]);
      assert a == [a[0]] + a[1..] && b == [b[0]] + b[1..];
    }
  }

  lemma {:induction false} LexTrans(a: bytes, b: bytes, c: bytes)
    requires LexLe(a, b) && LexLe(b, c)
    ensures LexLe(a, c)
  {
    if a != [] && a[0] == b[0] && b[0] == c[0] { LexTrans(a[1..], b[1..], c[1..]); }
  }

  /** A common prefix does not change the order. */
  lemma {:induction false} LexPrefixed(p: bytes, a: bytes, b: bytes)
    ensures LexLe(p + a, p + b) <==> LexLe(a, b)
  {
    if p == [] {
      assert p + a == a && p + b == b;
    } else {
      LexPrefixed(p[1..], a, b);
      assert (p + a)[1..] == p[1..] + a && (p + b)[1..] == p[1..] + b;
    }
  }
}
