/** Regrouping bytes into 5-bit values and back. The reference definition cuts one
    bit string in groups; the loops with their 12-bit accumulator refine it. */
module Regrouping {
  import opened Bytes

  function Pow2(k: nat): (p: int)
    ensures p > 0
  {
    if k == 0 then 1 else 2 * Pow2(k - 1)
  }

  type Bits = seq<bool>

  /** The low `k` bits of `v`, most significant first. */
  function ToBits(v: nat, k: nat): (b: Bits)
    ensures |b| == k
  {
    if k == 0 then [] else ToBits(v / 2, k - 1) + [v % 2 == 1]
  }

  function FromBits(b: Bits): nat {
    if b == [] then 0 else 2 * FromBits(b[..|b| - 1]) + (if b[|b| - 1] then 1 else 0)
  }

  /** All values written with `k` bits each. */
  function Spread(values: seq<nat>, k: nat): Bits {
    if values == [] then [] else Spread(values[..|values| - 1], k) + ToBits(values[|values| - 1], k)
  }

  /** Whole groups of `k` bits from the front; a shorter rest is dropped. */
  function Cut(b: Bits, k: nat): seq<nat>
    requires k > 0
    decreases |b|
  {
    if |b| < k then [] else [FromBits(b[..k])] + Cut(b[k..], k)
  }

  function Zeros(k: nat): Bits { seq(k, _ => false) }

  function PadLength(n: nat): nat { (5 - n % 5) % 5 }

  /** Zeros up to a multiple of five. */
  function Padded(b: Bits): Bits { b + Zeros(PadLength(|b|)) }

  function ToFive(data: seq<nat>): seq<nat> { Cut(Padded(Spread(data, 8)), 5) }

  predicate Below(values: seq<nat>, bound: nat) { forall v :: v in values ==> v < bound }

  function FromFive(values: seq<nat>): Option<seq<nat>> {
    if !Below(values, 32) then None
    else
      var b := Spread(values, 5);
      var whole := |b| / 8 * 8;
      if |b| - whole > 4 || b[whole..] != Zeros(|b| - whole) then None else Some(Cut(b[..whole], 8))
  }

  // -------------------------------------------------------------- bits and numbers

  lemma {:induction false} FromBitsOfToBits(v: nat, k: nat)
    requires v < Pow2(k)
    ensures FromBits(ToBits(v, k)) == v
  {
    if k > 0 {
      FromBitsOfToBits(v / 2, k - 1);
      assert ToBits(v, k)[..k - 1] == ToBits(v / 2, k - 1);
    }
  }

  lemma {:induction false} ToBitsOfFromBits(b: Bits)
    ensures FromBits(b) < Pow2(|b|) && ToBits(FromBits(b), |b|) == b
  {
    if b != [] {
      var front := b[..|b| - 1];
      ToBitsOfFromBits(front);
      assert FromBits(b) / 2 == FromBits(front);
      assert b == front + [b[|b| - 1]];
    }
  }

  lemma Pow2Values()
    ensures Pow2(5) == 32 && Pow2(8) == 256
  {
    assert Pow2(3) == 8 && Pow2(6) == 64;
  }

  lemma {:induction false} SpreadLength(values: seq<nat>)
    ensures |Spread(values, 5)| == 5 * |values| && |Spread(values, 8)| == 8 * |values|
  {
    if values != [] { SpreadLength(values[..|values| - 1]); }
  }

  lemma {:induction false} SpreadConcat(a: seq<nat>, b: seq<nat>, k: nat)
    ensures Spread(a + b, k) == Spread(a, k) + Spread(b, k)
  {
    if b == [] {
      assert a + b == a;
    } else {
      var front, last := b[..|b| - 1], b[|b| - 1];
      SpreadConcat(a, front, k);
      assert (a + b)[..|a + b| - 1] == a + front;
      Assoc(Spread(a, k), Spread(front, k), ToBits(last, k));
    }
  }

  lemma SpreadSnoc(out: seq<nat>, v: nat, k: nat)
    ensures Spread(out + [v], k) == Spread(out, k) + ToBits(v, k)
  {
    assert (out + [v])[..|out|] == out;
  }

  lemma SpreadCons(v: nat, tail: seq<nat>, k: nat)
    ensures Spread([v] + tail, k) == ToBits(v, k) + Spread(tail, k)
  {
    SpreadConcat([v], tail, k);
    assert [v][..0] == [] && [] + ToBits(v, k) == ToBits(v, k);
  }

  lemma CutCons(head: Bits, tail: Bits, k: nat)
    requires k > 0 && |head| == k
    ensures Cut(head + tail, k) == [FromBits(head)] + Cut(tail, k)
  {
    assert (head + tail)[..k] == head && (head + tail)[k..] == tail;
  }

  /** Cutting what was spread returns the values. */
  lemma {:induction false} CutOfSpread(values: seq<nat>, k: nat)
    requires k > 0 && Below(values, Pow2(k))
    ensures Cut(Spread(values, k), k) == values
  {
    if values != [] {
      var head, tail := values[0], values[1..];
      assert values == [head] + tail;
      assert head in values && forall v :: v in tail ==> v in values;
      SpreadCons(head, tail, k);
      CutCons(ToBits(head, k), Spread(tail, k), k);
      FromBitsOfToBits(head, k);
      CutOfSpread(tail, k);
    }
  }

  predicate WholeGroups(n: nat, k: nat) { (k == 5 && n % 5 == 0) || (k == 8 && n % 8 == 0) }

  /** Spreading what was cut from whole groups returns the bits. */
  lemma {:induction false} SpreadOfCut(b: Bits, k: nat)
    requires WholeGroups(|b|, k)
    ensures Spread(Cut(b, k), k) == b && Below(Cut(b, k), Pow2(k))
    decreases |b|
  {
    hide ToBits, FromBits, Pow2;
    if |b| >= k {
      var head, tail := b[..k], b[k..];
      assert b == head + tail;
      CutCons(head, tail, k);
      SpreadOfCut(tail, k);
      ToBitsOfFromBits(head);
      SpreadCons(FromBits(head), Cut(tail, k), k);
    }
  }

  // -------------------------------------------------------------------- bijection

  lemma SplitAt(head: Bits, tail: Bits)
    ensures (head + tail)[..|head|] == head && (head + tail)[|head|..] == tail
  {}

  lemma PadArithmetic(n: nat)
    ensures PadLength(n) <= 4 && (n + PadLength(n)) % 5 == 0
    ensures n % 8 == 0 ==> (n + PadLength(n)) / 8 * 8 == n
  {
    PadToFive(n / 5, n % 5);
    if n % 8 == 0 { WholeEights(n / 8, PadLength(n)); }
  }

  lemma PadToFive(q: nat, r: nat)
    requires r < 5
    ensures (5 - r) % 5 <= 4 && (5 * q + r + (5 - r) % 5) % 5 == 0
  {
    assert r == 0 || (5 - r) % 5 == 5 - r;
    assert 5 * q + 5 == 5 * (q + 1);
  }

  lemma WholeEights(k: nat, p: nat)
    requires p < 8
    ensures (8 * k + p) / 8 * 8 == 8 * k
  {}

  lemma PadUnique(whole: nat, n: nat)
    requires n % 5 == 0 && whole <= n <= whole + 4
    ensures PadLength(whole) == n - whole
  {}

  /** Regrouping to 5 bits and back returns the bytes. */
  lemma FromFiveOfToFive(data: seq<nat>)
    requires Below(data, 256)
    ensures Below(ToFive(data), 32) && FromFive(ToFive(data)) == Some(data)
  {
    hide Spread, Cut, Padded, Below, Pow2, Zeros;
    Pow2Values();
    var b := Spread(data, 8);
    SpreadLength(data);
    PaddedBytes(b);
    SpreadOfCut(Padded(b), 5);
    CutOfSpread(data, 8);
  }

  /** Padding whole bytes leaves the bytes and a short rest of zeros. */
  lemma PaddedBytes(b: Bits)
    requires |b| % 8 == 0
    ensures var p := Padded(b);
      && |p| % 5 == 0 && |p| / 8 * 8 == |b| && |b| <= |p| <= |b| + 4
      && p[..|b|] == b && p[|b|..] == Zeros(|p| - |b|)
  {
    hide PadLength, Zeros;
    PadArithmetic(|b|);
    ZerosLength(PadLength(|b|));
    SplitAt(b, Zeros(PadLength(|b|)));
  }

  lemma ZerosLength(k: nat)
    ensures |Zeros(k)| == k
  {}

  lemma WholePart(n: nat)
    ensures n / 8 * 8 <= n && n / 8 * 8 % 8 == 0
  {}

  /** Whole bytes and a short rest of zeros are what padding makes of the bytes. */
  lemma PaddedPrefix(b: Bits, whole: nat)
    requires whole <= |b| <= whole + 4 && |b| % 5 == 0 && b[whole..] == Zeros(|b| - whole)
    ensures Padded(b[..whole]) == b
  {
    hide Zeros, PadLength;
    PadUnique(whole, |b|);
    assert b == b[..whole] + b[whole..];
  }

  /** Whatever regroups to bytes is the regrouping of those bytes. */
  lemma ToFiveOfFromFive(values: seq<nat>)
    requires FromFive(values).Some?
    ensures Below(FromFive(values).value, 256) && ToFive(FromFive(values).value) == values
  {
    hide Spread, Cut, Padded, Below, Pow2, Zeros;
    Pow2Values();
    var b := Spread(values, 5);
    var whole := |b| / 8 * 8;
    WholePart(|b|);
    SpreadLength(values);
    SpreadOfCut(b[..whole], 8);
    PaddedPrefix(b, whole);
    CutOfSpread(values, 5);
  }

  // ------------------------------------------------------------- bits of integers

  /** `x >> k`. */
  function Shifted(x: nat, k: nat): nat { if k == 0 then x else Shifted(x / 2, k - 1) }

  /** The low `k` bits as a number: `x & ((1 << k) - 1)`. */
  function Low(x: nat, k: nat): (r: nat)
    ensures r < Pow2(k)
  {
    if k == 0 then 0 else 2 * Low(x / 2, k - 1) + x % 2
  }

  lemma {:induction false} LowBits(x: nat, m: nat, k: nat)
    requires k <= m
    ensures ToBits(Low(x, m), k) == ToBits(x, k)
    decreases k
  {
    if k > 0 { LowBits(x / 2, m - 1, k - 1); }
  }

  lemma {:induction false} SplitNumber(x: nat, a: nat, b: nat)
    ensures ToBits(x, a + b) == ToBits(Shifted(x, b), a) + ToBits(x, b)
    decreases b
  {
    if b == 0 {
      assert ToBits(x, a) + [] == ToBits(x, a);
    } else {
      SplitNumber(x / 2, a, b - 1);
      Assoc(ToBits(Shifted(x, b), a), ToBits(x / 2, b - 1), [x % 2 == 1]);
    }
  }

  lemma Doubled(a: nat, p: nat)
    ensures a * (2 * p) == 2 * (a * p)
  {}

  /** `(x << n) | v` has the bits of `x` followed by the `n` bits of `v`. */
  lemma {:induction false} JoinedBits(x: nat, bits: nat, v: nat, n: nat)
    requires v < Pow2(n)
    ensures ToBits(x * Pow2(n) + v, bits + n) == ToBits(x, bits) + ToBits(v, n)
    decreases n
  {
    if n == 0 {
      assert ToBits(x, bits) + [] == ToBits(x, bits);
    } else {
      Doubled(x, Pow2(n - 1));
      var y := x * Pow2(n - 1);
      assert (2 * y + v) / 2 == y + v / 2 && (2 * y + v) % 2 == v % 2;
      JoinedBits(x, bits, v / 2, n - 1);
      Assoc(ToBits(x, bits), ToBits(v / 2, n - 1), [v % 2 == 1]);
    }
  }

  /** Taking in `n` more bits under the 12-bit mask loses no live bit. */
  lemma TakeIn(acc: nat, bits: nat, v: nat, n: nat)
    requires bits + n <= 12 && v < Pow2(n)
    ensures ToBits(Low(acc * Pow2(n) + v, 12), bits + n) == ToBits(acc, bits) + ToBits(v, n)
  {
    JoinedBits(acc, bits, v, n);
    LowBits(acc * Pow2(n) + v, 12, bits + n);
  }

  /** Giving out the `n` oldest live bits. */
  lemma GiveOut(acc: nat, bits: nat, n: nat)
    ensures ToBits(acc, n + bits) == ToBits(Low(Shifted(acc, bits), n), n) + ToBits(acc, bits)
  {
    SplitNumber(acc, n, bits);
    LowBits(Shifted(acc, bits), n, n);
  }

  lemma {:induction false} ZeroBits(k: nat)
    ensures ToBits(0, k) == Zeros(k)
  {
    if k > 0 { ZeroBits(k - 1); }
  }

  lemma LowIsZero(x: nat, k: nat)
    ensures Low(x, k) == 0 <==> ToBits(x, k) == Zeros(k)
  {
    LowBits(x, k, k);
    ZeroBits(k);
    FromBitsOfToBits(Low(x, k), k);
    FromBitsOfToBits(0, k);
  }

  // -------------------------------------------------------------------- the loops

  /** One value of the inner loops: the oldest `k` live bits leave the accumulator. */
  lemma Emitted(out: seq<nat>, acc: nat, bits: nat, k: nat, all: Bits)
    requires Spread(out, k) + ToBits(acc, k + bits) == all
    ensures Spread(out + [Low(Shifted(acc, bits), k)], k) + ToBits(acc, bits) == all
  {
    var v := Low(Shifted(acc, bits), k);
    GiveOut(acc, bits, k);
    SpreadSnoc(out, v, k);
    Assoc(Spread(out, k), ToBits(v, k), ToBits(acc, bits));
  }

  /** One value of the outer loops: its bits join the live ones. */
  lemma Received(out: seq<nat>, k: nat, acc: nat, bits: nat, values: seq<nat>, i: nat, n: nat)
    requires i < |values| && values[i] < Pow2(n) && bits + n <= 12
    requires Spread(out, k) + ToBits(acc, bits) == Spread(values[..i], n)
    ensures Spread(out, k) + ToBits(Low(acc * Pow2(n) + values[i], 12), bits + n) == Spread(values[..i + 1], n)
  {
    TakeIn(acc, bits, values[i], n);
    assert values[..i + 1] == values[..i] + [values[i]];
    SpreadSnoc(values[..i], values[i], n);
    Assoc(Spread(out, k), ToBits(acc, bits), ToBits(values[i], n));
  }

  lemma BelowSnoc(out: seq<nat>, v: nat, bound: nat)
    requires Below(out, bound) && v < bound
    ensures Below(out + [v], bound)
  {}

  method BytesTo5Bit(data: bytes) returns (out: seq<nat>)
    ensures out == ToFive(data)
  {
    hide ToBits, Spread, Low, Shifted, Cut, Below, Pow2, LastValue;
    Pow2Values();
    var acc: nat, bits: nat := 0, 0;
    out := [];
    StartRegrouping(data);
    for i := 0 to |data|
      invariant bits <= 4 && Below(out, 32)
      invariant Spread(out, 5) + ToBits(acc, bits) == Spread(data[..i], 8)
    {
      Received(out, 5, acc, bits, data, i, 8);
      acc := Low(acc * 256 + data[i], 12);
      bits := bits + 8;
      while bits >= 5
        invariant bits <= 12 && Below(out, 32)
        invariant Spread(out, 5) + ToBits(acc, bits) == Spread(data[..i + 1], 8)
      {
        bits := bits - 5;
        Emitted(out, acc, bits, 5, Spread(data[..i + 1], 8));
        BelowSnoc(out, Low(Shifted(acc, bits), 5), 32);
        out := out + [Low(Shifted(acc, bits), 5)];
      }
    }
    assert data[..|data|] == data;
    LastGroup(out, acc, bits, Spread(data, 8));
    if bits > 0 {
      BelowSnoc(out, LastValue(acc, bits), 32);
      out := out + [LastValue(acc, bits)];
    }
    CutOfSpread(out, 5);
  }

  lemma StartRegrouping(values: seq<nat>)
    ensures Below([], 32) && Below([], 256)
    ensures Spread([], 5) + ToBits(0, 0) == Spread(values[..0], 8)
    ensures Spread([], 8) + ToBits(0, 0) == Spread(values[..0], 5)
  {
    assert values[..0] == [];
  }

  lemma NothingToPad(b: Bits, none: Bits)
    requires none == [] && |b| % 5 == 0
    ensures Padded(b + none) == b
  {}

  /** The live bits moved to the top of a 5-bit value. */
  function LastValue(acc: nat, bits: nat): (v: nat)
    requires bits <= 5
    ensures v < 32
  {
    Pow2Values();
    Low(acc * Pow2(5 - bits), 5)
  }

  lemma LastBits(acc: nat, bits: nat)
    requires 0 < bits <= 4
    ensures ToBits(LastValue(acc, bits), 5) == ToBits(acc, bits) + Zeros(5 - bits)
  {
    var x := acc * Pow2(5 - bits);
    JoinedBits(acc, bits, 0, 5 - bits);
    ZeroBits(5 - bits);
    LowBits(x, 5, 5);
    hide ToBits, Low, Zeros;
  }

  lemma PaddedWith(b: Bits, k: nat)
    requires PadLength(|b|) == k
    ensures Padded(b) == b + Zeros(k)
  {}

  lemma PadOf(n: nat, bits: nat)
    requires 0 < bits <= 4
    ensures PadLength(5 * n + bits) == 5 - bits
  {}

  /** The last, incomplete group is filled with zeros. */
  lemma LastGroup(out: seq<nat>, acc: nat, bits: nat, all: Bits)
    requires bits <= 4 && Spread(out, 5) + ToBits(acc, bits) == all
    ensures Padded(all) == if bits == 0 then Spread(out, 5) else Spread(out + [LastValue(acc, bits)], 5)
  {
    hide Spread, Zeros, LastValue, Padded;
    SpreadLength(out);
    if bits == 0 {
      NothingToPad(Spread(out, 5), ToBits(acc, 0));
    } else {
      PadOf(|out|, bits);
      PaddedWith(all, 5 - bits);
      LastSpread(out, acc, bits);
    }
  }

  lemma LastSpread(out: seq<nat>, acc: nat, bits: nat)
    requires 0 < bits <= 4
    ensures Spread(out, 5) + ToBits(acc, bits) + Zeros(5 - bits) == Spread(out + [LastValue(acc, bits)], 5)
  {
    hide Spread, Zeros, LastValue, ToBits;
    LastBits(acc, bits);
    SpreadSnoc(out, LastValue(acc, bits), 5);
    Assoc(Spread(out, 5), ToBits(acc, bits), Zeros(5 - bits));
  }

  method FiveBitToBytes(values: seq<nat>) returns (r: Option<seq<nat>>)
    ensures r == FromFive(values)
  {
    hide ToBits, Spread, Low, Shifted, Cut, Pow2, Zeros;
    Pow2Values();
    var acc: nat, bits: nat := 0, 0;
    var out: seq<nat> := [];
    StartRegrouping(values);
    for i := 0 to |values|
      invariant bits <= 7 && Below(out, 256) && Below(values[..i], 32)
      invariant Spread(out, 8) + ToBits(acc, bits) == Spread(values[..i], 5)
    {
      if values[i] > 31 {
        assert values[i] in values;
        return None;
      }
      Received(out, 8, acc, bits, values, i, 5);
      assert values[..i + 1] == values[..i] + [values[i]];
      acc := Low(acc * 32 + values[i], 12);
      bits := bits + 5;
      while bits >= 8
        invariant bits <= 12 && Below(out, 256)
        invariant Spread(out, 8) + ToBits(acc, bits) == Spread(values[..i + 1], 5)
      {
        bits := bits - 8;
        Emitted(out, acc, bits, 8, Spread(values[..i + 1], 5));
        BelowSnoc(out, Low(Shifted(acc, bits), 8), 256);
        out := out + [Low(Shifted(acc, bits), 8)];
      }
    }
    assert values[..|values|] == values;
    WholeBytes(Spread(values, 5), out, acc, bits);
    CutOfSpread(out, 8);
    if bits >= 5 { return None; }
    LowIsZero(acc, bits);
    if bits > 0 && Low(acc, bits) != 0 { return None; }
    if bits == 0 { NoBits(acc); }
    return Some(out);
  }

  lemma NoBits(x: nat)
    ensures ToBits(x, 0) == Zeros(0)
  {}

  lemma DropRest(n: nat, bits: nat)
    requires bits <= 7
    ensures (8 * n + bits) / 8 * 8 == 8 * n
  {}

  lemma WholeBytes(b: Bits, out: seq<nat>, acc: nat, bits: nat)
    requires b == Spread(out, 8) + ToBits(acc, bits) && bits <= 7
    ensures |b| / 8 * 8 == |Spread(out, 8)| && b[..|Spread(out, 8)|] == Spread(out, 8)
    ensures b[|Spread(out, 8)|..] == ToBits(acc, bits) && |b| - |Spread(out, 8)| == bits
  {
    hide Spread, ToBits;
    SpreadLength(out);
    DropRest(|out|, bits);
    SplitAt(Spread(out, 8), ToBits(acc, bits));
  }
}
