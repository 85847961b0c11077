/** The checksum of Bech32 and Bech32m (BIP-173, BIP-350) on a 30-bit register: its
    step is linear and injective, so that every prefix has exactly one checksum and no
    single change of a symbol goes unnoticed. */
module Bech32 {

  /** A 5-bit value. */
  type Five = v: nat | v < 32

  datatype Encoding = Classic | Modified

  type Check = bv30

  function ConstantOf(e: Encoding): Check { if e.Classic? then 1 else 0x2bc830a3 }

  // --------------------------------------------------------------------- checksum

  function Small(v: Five): bv5 { v as bv5 }

  function Number(x: bv5): Five { x as nat }

  function Wide(x: bv5): Check { x as Check }

  /** A symbol as the low bits of a register. */
  function Bv(v: Five): Check { Wide(Small(v)) }

  function Xor(a: Check, b: Check): Check { a ^ b }

  const GENERATORS: seq<Check> := [0x3b6a57b2, 0x26508e6d, 0x1ea119fa, 0x3d4233dd, 0x2a1462b3]

  /** Whether bit `25 + i` is set: bit `i` of the symbol that is shifted out. */
  function TopBit(c: Check, i: nat): bool
    requires i < 5
  {
    if i == 0 then c & 0x200_0000 != 0
    else if i == 1 then c & 0x400_0000 != 0
    else if i == 2 then c & 0x800_0000 != 0
    else if i == 3 then c & 0x1000_0000 != 0
    else c & 0x2000_0000 != 0
  }

  function Part(on: bool, g: Check): Check { if on then g else 0 }

  /** The generators of the first `n` bits shifted out. */
  function Feedback(c: Check, n: nat): Check
    requires n <= 5
  {
    if n == 0 then 0 else Xor(Feedback(c, n - 1), Part(TopBit(c, n - 1), GENERATORS[n - 1]))
  }

  function Shift(c: Check): Check { (c & 0x1ff_ffff) << 5 }

  /** The part of a step that does not read the symbol. */
  function Twist(c: Check): Check { Xor(Shift(c), Feedback(c, 5)) }

  function Step(c: Check, v: Five): Check { Xor(Twist(c), Bv(v)) }

  /** The checksum register after the symbols, started at `c`. */
  function Polymod(c: Check, values: seq<Five>): Check {
    if values == [] then c else Step(Polymod(c, values[..|values| - 1]), values[|values| - 1])
  }

  lemma XorZero(a: Check)
    ensures Xor(a, 0) == a && Xor(0, a) == a && Xor(a, a) == 0
  {}

  lemma XorAssoc(a: Check, b: Check, c: Check)
    ensures Xor(Xor(a, b), c) == Xor(a, Xor(b, c)) && Xor(a, b) == Xor(b, a)
  {}

  lemma XorSwap(a: Check, b: Check, c: Check, d: Check)
    ensures Xor(Xor(a, b), Xor(c, d)) == Xor(Xor(a, c), Xor(b, d))
  {
    hide Xor;
    XorAssoc(a, b, Xor(c, d));
    XorAssoc(b, c, d);
    XorAssoc(c, b, d);
    XorAssoc(a, c, Xor(b, d));
  }

  lemma XorIsZero(a: Check, b: Check)
    ensures Xor(a, b) == 0 <==> a == b
  {
    hide Xor;
    XorZero(a);
    XorZero(b);
    XorAssoc(a, a, b);
  }

  lemma PartXor(p: bool, q: bool, g: Check)
    ensures Part(p != q, g) == Xor(Part(p, g), Part(q, g))
  {
    hide Xor;
    XorZero(g);
    XorZero(0);
  }

  lemma TopBitXor(a: Check, b: Check, i: nat)
    requires i < 5
    ensures TopBit(Xor(a, b), i) == (TopBit(a, i) != TopBit(b, i))
  {}

  lemma ShiftXor(a: Check, b: Check)
    ensures Shift(Xor(a, b)) == Xor(Shift(a), Shift(b))
  {}

  lemma {:induction false} FeedbackLinear(a: Check, b: Check, n: nat)
    requires n <= 5
    ensures Feedback(Xor(a, b), n) == Xor(Feedback(a, n), Feedback(b, n))
  {
    hide Part, TopBit, Xor;
    if n == 0 {
      XorZero(0);
    } else {
      var g := GENERATORS[n - 1];
      FeedbackLinear(a, b, n - 1);
      TopBitXor(a, b, n - 1);
      PartXor(TopBit(a, n - 1), TopBit(b, n - 1), g);
      XorSwap(Feedback(a, n - 1), Feedback(b, n - 1), Part(TopBit(a, n - 1), g), Part(TopBit(b, n - 1), g));
    }
  }

  /** The checksum step is linear over GF(2). */
  lemma TwistLinear(a: Check, b: Check)
    ensures Twist(Xor(a, b)) == Xor(Twist(a), Twist(b))
  {
    hide Shift, Feedback, Xor;
    ShiftXor(a, b);
    FeedbackLinear(a, b, 5);
    XorSwap(Shift(a), Shift(b), Feedback(a, 5), Feedback(b, 5));
  }

  /** The whole feedback, written out. */
  function FeedbackBits(c: Check): Check {
    (if c & 0x200_0000 != 0 then 0x3b6a57b2 else 0) ^ (if c & 0x400_0000 != 0 then 0x26508e6d else 0)
    ^ (if c & 0x800_0000 != 0 then 0x1ea119fa else 0) ^ (if c & 0x1000_0000 != 0 then 0x3d4233dd else 0)
    ^ (if c & 0x2000_0000 != 0 then 0x2a1462b3 else 0)
  }

  lemma FeedbackUnrolled(c: Check)
    ensures Feedback(c, 5) == FeedbackBits(c)
  {
    hide TopBit, Xor, Part, FeedbackBits;
    var p0, p1, p2 := Part(TopBit(c, 0), GENERATORS[0]), Part(TopBit(c, 1), GENERATORS[1]), Part(TopBit(c, 2), GENERATORS[2]);
    var p3, p4 := Part(TopBit(c, 3), GENERATORS[3]), Part(TopBit(c, 4), GENERATORS[4]);
    XorZero(p0);
    assert Feedback(c, 0) == 0;
    assert Feedback(c, 1) == p0;
    assert Feedback(c, 2) == Xor(p0, p1);
    assert Feedback(c, 3) == Xor(Xor(p0, p1), p2);
    assert Feedback(c, 4) == Xor(Xor(Xor(p0, p1), p2), p3);
    assert Feedback(c, 5) == Xor(Xor(Xor(Xor(p0, p1), p2), p3), p4);
    PartsAreBits(c);
  }

  lemma PartsAreBits(c: Check)
    ensures FeedbackBits(c) ==
      Xor(Xor(Xor(Xor(Part(TopBit(c, 0), GENERATORS[0]), Part(TopBit(c, 1), GENERATORS[1])),
                  Part(TopBit(c, 2), GENERATORS[2])), Part(TopBit(c, 3), GENERATORS[3])),
          Part(TopBit(c, 4), GENERATORS[4]))
  {}

  lemma OnlyZeroTwistsToZero(c: Check)
    ensures Twist(c) == 0 <==> c == 0
  {
    FeedbackUnrolled(c);
    hide Feedback;
  }

  /** A step loses nothing of the register: distinct states stay distinct. */
  lemma TwistInjective(a: Check, b: Check)
    requires Twist(a) == Twist(b)
    ensures a == b
  {
    hide Twist, Xor;
    TwistLinear(a, b);
    XorIsZero(Twist(a), Twist(b));
    OnlyZeroTwistsToZero(Xor(a, b));
    XorIsZero(a, b);
  }

  /** A register that has room for one more symbol is only shifted. */
  lemma TwistSmall(c: Check)
    requires c < 0x200_0000
    ensures Twist(c) == c << 5
  {
    FeedbackUnrolled(c);
    hide Feedback;
  }

  // -------------------------------------------------------- symbols and the register

  lemma PolymodSnoc(c: Check, values: seq<Five>, v: Five)
    ensures Polymod(c, values + [v]) == Step(Polymod(c, values), v)
  {
    assert (values + [v])[..|values|] == values;
  }

  lemma {:induction false} PolymodConcat(c: Check, a: seq<Five>, b: seq<Five>)
    ensures Polymod(c, a + b) == Polymod(Polymod(c, a), b)
  {
    if b == [] {
      assert a + b == a;
    } else {
      PolymodConcat(c, a, b[..|b| - 1]);
      assert (a + b)[..|a + b| - 1] == a + b[..|b| - 1];
    }
  }

  /** The register that `k` symbols leave when it starts at zero, and that many zero
      symbols when it starts at `c`, add up to the register of the symbols from `c`. */
  lemma {:induction false} PolymodSplits(c: Check, values: seq<Five>)
    ensures Polymod(c, values) == Xor(Polymod(c, ZeroSymbols(|values|)), Polymod(0, values))
  {
    hide Xor, Twist, Bv;
    if values == [] {
      XorZero(c);
    } else {
      var front, v, n := values[..|values| - 1], values[|values| - 1], |values| - 1;
      PolymodSplits(c, front);
      assert ZeroSymbols(|values|)[..n] == ZeroSymbols(n);
      var x, y := Polymod(c, ZeroSymbols(n)), Polymod(0, front);
      TwistLinear(x, y);
      ZeroSymbol();
      XorZero(Twist(x));
      XorAssoc(Twist(x), Twist(y), Bv(v));
    }
  }

  lemma ZeroSymbol()
    ensures Bv(0) == 0
  {}

  function ZeroSymbols(n: nat): (z: seq<Five>)
    ensures |z| == n
  {
    seq(n, _ => 0)
  }

  /** The six symbols of a register, highest first. */
  function Symbols(c: Check): (r: seq<Five>)
    ensures |r| == 6
  {
    [Symbol(c >> 25), Symbol(c >> 20), Symbol(c >> 15), Symbol(c >> 10), Symbol(c >> 5), Symbol(c)]
  }

  function Symbol(c: Check): Five {
    SymbolBound(c);
    Number((c & 31) as bv5)
  }

  lemma SymbolBound(c: Check)
    ensures c & 31 < 32
  {}

  /** Six symbols run from an empty register simply fill it. */
  function Packed(s: seq<Five>): Check
    requires |s| == 6
  {
    Pack(Bv(s[0]), Bv(s[1]), Bv(s[2]), Bv(s[3]), Bv(s[4]), Bv(s[5]))
  }

  function Pack(a: Check, b: Check, c: Check, d: Check, e: Check, f: Check): Check {
    (a << 25) ^ (b << 20) ^ (c << 15) ^ (d << 10) ^ (e << 5) ^ f
  }

  lemma NumberOfSmall(v: Five)
    ensures Number(Small(v)) == v
  {}

  lemma SmallOfNumber(x: bv5)
    ensures Small(Number(x)) == x
  {}

  lemma WideFacts(c: Check, x: bv5, y: bv5)
    ensures c & 31 < 32 && Wide((c & 31) as bv5) == c & 31
    ensures Wide(x) < 32 && (Wide(x) == Wide(y) <==> x == y)
  {}

  lemma FiveRoundTrip(c: Check, v: Five)
    ensures Bv(Symbol(c)) == c & 31 && Bv(v) < 32
  {
    hide Small, Number, Wide;
    WideFacts(c, Small(v), Small(v));
    SmallOfNumber((c & 31) as bv5);
  }

  lemma FivesEqual(v: Five, w: Five)
    ensures Bv(v) == Bv(w) <==> v == w
  {
    hide Small, Number, Wide;
    NumberOfSmall(v);
    NumberOfSmall(w);
    WideFacts(0, Small(v), Small(w));
  }

  /** Packing the symbols of a register gives the register. */
  lemma PackOfSymbols(c: Check)
    ensures Pack((c >> 25) & 31, (c >> 20) & 31, (c >> 15) & 31, (c >> 10) & 31, (c >> 5) & 31, c & 31) == c
  {}

  lemma PackInjective(c: Check, s0: Check, s1: Check, s2: Check, s3: Check, s4: Check, s5: Check)
    requires s0 < 32 && s1 < 32 && s2 < 32 && s3 < 32 && s4 < 32 && s5 < 32
    requires Pack(s0, s1, s2, s3, s4, s5) == c
    ensures s0 == (c >> 25) & 31 && s1 == (c >> 20) & 31 && s2 == (c >> 15) & 31
    ensures s3 == (c >> 10) & 31 && s4 == (c >> 5) & 31 && s5 == c & 31
  {}

  lemma HornerStep(r: Check, v: Check)
    requires v < 32
    ensures r < 32 ==> (r << 5) ^ v < 0x400
    ensures r < 0x400 ==> (r << 5) ^ v < 0x8000
    ensures r < 0x8000 ==> (r << 5) ^ v < 0x10_0000
    ensures r < 0x10_0000 ==> (r << 5) ^ v < 0x200_0000
  {}

  lemma HornerIsPack(a: Check, b: Check, c: Check, d: Check, e: Check, f: Check)
    requires a < 32 && b < 32 && c < 32 && d < 32 && e < 32 && f < 32
    ensures (((((((((a << 5) ^ b) << 5) ^ c) << 5) ^ d) << 5) ^ e) << 5) ^ f == Pack(a, b, c, d, e, f)
  {}

  function Horner(r: Check, v: Five): Check { (r << 5) ^ Bv(v) }

  lemma StepIsHorner(r: Check, v: Five)
    requires r < 0x200_0000
    ensures Step(r, v) == Horner(r, v)
  {
    TwistSmall(r);
    hide Twist;
  }

  lemma HornerBound(r: Check, v: Five)
    ensures r < 32 ==> Horner(r, v) < 0x400
    ensures r < 0x400 ==> Horner(r, v) < 0x8000
    ensures r < 0x8000 ==> Horner(r, v) < 0x10_0000
    ensures r < 0x10_0000 ==> Horner(r, v) < 0x200_0000
  {
    FiveRoundTrip(0, v);
    HornerStep(r, Bv(v));
  }

  lemma PolymodStep(c: Check, values: seq<Five>, n: nat)
    requires n < |values|
    ensures Polymod(c, values[..n + 1]) == Step(Polymod(c, values[..n]), values[n])
  {
    assert values[..n + 1] == values[..n] + [values[n]];
    PolymodSnoc(c, values[..n], values[n]);
  }

  lemma FirstSymbol(v: Five)
    ensures Step(0, v) == Bv(v) && Bv(v) < 32
  {
    OnlyZeroTwistsToZero(0);
    XorZero(Bv(v));
    FiveRoundTrip(0, v);
    hide Xor, Twist;
  }

  /** Six symbols run from an empty register simply fill it. */
  lemma PolymodSix(s: seq<Five>)
    requires |s| == 6
    ensures Polymod(0, s) == Packed(s)
  {
    hide Step, Horner, Pack, Polymod, Bv;
    var r1 := Bv(s[0]);
    var r2 := Horner(r1, s[1]);
    var r3 := Horner(r2, s[2]);
    var r4 := Horner(r3, s[3]);
    var r5 := Horner(r4, s[4]);
    EmptyPolymod(s);
    PolymodStep(0, s, 0);
    FirstSymbol(s[0]);
    PolymodStep(0, s, 1);
    HornerBound(r1, s[1]);
    SmallStep(r1, s[1]);
    PolymodStep(0, s, 2);
    HornerBound(r2, s[2]);
    SmallStep(r2, s[2]);
    PolymodStep(0, s, 3);
    HornerBound(r3, s[3]);
    SmallStep(r3, s[3]);
    PolymodStep(0, s, 4);
    HornerBound(r4, s[4]);
    SmallStep(r4, s[4]);
    PolymodStep(0, s, 5);
    SmallStep(r5, s[5]);
    assert s[..6] == s;
    SixHorners(s);
  }

  lemma EmptyPolymod(s: seq<Five>)
    requires |s| > 0
    ensures Polymod(0, s[..0]) == 0
  {}

  lemma SmallStep(r: Check, v: Five)
    ensures r < 32 || r < 0x400 || r < 0x8000 || r < 0x10_0000 || r < 0x200_0000 ==> Step(r, v) == Horner(r, v)
  {
    if r < 0x200_0000 { StepIsHorner(r, v); }
    hide Step, Horner;
  }

  lemma SixHorners(s: seq<Five>)
    requires |s| == 6
    ensures Horner(Horner(Horner(Horner(Horner(Bv(s[0]), s[1]), s[2]), s[3]), s[4]), s[5]) == Packed(s)
  {
    hide Bv, Pack;
    forall i | 0 <= i < 6
      ensures Bv(s[i]) < 32
    {
      FiveRoundTrip(0, s[i]);
    }
    HornerIsPack(Bv(s[0]), Bv(s[1]), Bv(s[2]), Bv(s[3]), Bv(s[4]), Bv(s[5]));
  }

  /** Packing and taking apart are inverse. */
  lemma PackedSymbols(s: seq<Five>, c: Check)
    requires |s| == 6
    ensures Packed(s) == c <==> s == Symbols(c)
  {
    hide Pack, Symbols, Bv;
    forall i | 0 <= i < 6
      ensures Bv(s[i]) < 32
    {
      FiveRoundTrip(0, s[i]);
    }
    PackOfSymbols(c);
    SymbolsAreBits(c);
    if Packed(s) == c {
      PackInjective(c, Bv(s[0]), Bv(s[1]), Bv(s[2]), Bv(s[3]), Bv(s[4]), Bv(s[5]));
      SameSix(s, Symbols(c));
    }
  }

  lemma SameSix(s: seq<Five>, t: seq<Five>)
    requires |s| == |t| == 6
    requires Bv(s[0]) == Bv(t[0]) && Bv(s[1]) == Bv(t[1]) && Bv(s[2]) == Bv(t[2])
    requires Bv(s[3]) == Bv(t[3]) && Bv(s[4]) == Bv(t[4]) && Bv(s[5]) == Bv(t[5])
    ensures s == t
  {
    hide Bv;
    forall i | 0 <= i < 6
      ensures s[i] == t[i]
    {
      FivesEqual(s[i], t[i]);
    }
  }

  lemma SymbolsAreBits(c: Check)
    ensures var t := Symbols(c);
      && Bv(t[0]) == (c >> 25) & 31 && Bv(t[1]) == (c >> 20) & 31 && Bv(t[2]) == (c >> 15) & 31
      && Bv(t[3]) == (c >> 10) & 31 && Bv(t[4]) == (c >> 5) & 31 && Bv(t[5]) == c & 31
  {
    hide Symbol, Bv;
    FiveRoundTrip(c >> 25, 0);
    FiveRoundTrip(c >> 20, 0);
    FiveRoundTrip(c >> 15, 0);
    FiveRoundTrip(c >> 10, 0);
    FiveRoundTrip(c >> 5, 0);
    FiveRoundTrip(c, 0);
  }

  /** For every prefix and constant there is exactly one six-symbol checksum. */
  lemma ChecksumUnique(prefix: seq<Five>, s: seq<Five>, constant: Check)
    requires |s| == 6
    ensures Polymod(1, prefix + s) == constant <==>
              s == Symbols(Xor(Polymod(1, prefix + ZeroSymbols(6)), constant))
  {
    hide Xor, Polymod, Packed, Symbols, Bv;
    var c := Polymod(1, prefix);
    PolymodConcat(1, prefix, s);
    PolymodConcat(1, prefix, ZeroSymbols(6));
    PolymodSplits(c, s);
    PolymodSix(s);
    PackedSymbols(s, Xor(Polymod(c, ZeroSymbols(6)), constant));
    XorSolve(Polymod(c, ZeroSymbols(6)), Packed(s), constant);
  }

  lemma XorSolve(a: Check, b: Check, c: Check)
    ensures Xor(a, b) == c <==> b == Xor(a, c)
  {
    hide Xor;
    XorAssoc(a, a, b);
    XorAssoc(a, a, c);
    XorZero(a);
    XorZero(b);
    XorZero(c);
  }

  /** One changed symbol always changes the register, however many symbols follow. */
  lemma {:induction false} OneChangeShows(c: Check, v: seq<Five>, w: seq<Five>, at: nat)
    requires |v| == |w| && at < |v| && v[at] != w[at]
    requires forall i :: 0 <= i < |v| && i != at ==> v[i] == w[i]
    ensures Polymod(c, v) != Polymod(c, w)
  {
    hide Xor, Twist, Bv;
    var n := |v| - 1;
    var x, y := Polymod(c, v[..n]), Polymod(c, w[..n]);
    if at < n {
      OneChangeShows(c, v[..n], w[..n], at);
      if Twist(x) == Twist(y) { TwistInjective(x, y); }
      XorCancel(Twist(x), Twist(y), Bv(v[n]));
    } else {
      assert v[..n] == w[..n];
      FivesEqual(v[n], w[n]);
      XorCancel(Bv(v[n]), Bv(w[n]), Twist(x));
    }
  }

  lemma XorCancel(a: Check, b: Check, c: Check)
    ensures Xor(a, c) == Xor(b, c) <==> a == b
    ensures Xor(c, a) == Xor(c, b) <==> a == b
  {}

  lemma LoopOrder(s: Check, v: Check, f: Check, g: Check)
    ensures Xor(Xor(Xor(s, v), f), g) == Xor(Xor(s, v), Xor(f, g))
    ensures Xor(Xor(s, v), f) == Xor(Xor(s, f), v)
  {
    hide Xor;
    XorAssoc(Xor(s, v), f, g);
    XorAssoc(s, v, f);
    XorAssoc(v, f, 0);
    XorAssoc(s, f, v);
  }

  /** The nested loops of the codec, which mix the symbol in before the generators. */
  method PolymodLoop(values: seq<Five>) returns (chk: Check)
    ensures chk == Polymod(1, values)
  {
    hide Xor, Shift, TopBit, Bv;
    chk := 1;
    for k := 0 to |values|
      invariant chk == Polymod(1, values[..k])
    {
      var top, v := chk, Bv(values[k]);
      chk := Xor(Shift(top), v);
      XorZero(chk);
      for i := 0 to 5
        invariant chk == Xor(Xor(Shift(top), v), Feedback(top, i))
      {
        var g := Part(TopBit(top, i), GENERATORS[i]);
        LoopOrder(Shift(top), v, Feedback(top, i), g);
        XorZero(chk);
        if TopBit(top, i) { chk := Xor(chk, GENERATORS[i]); }
      }
      LoopOrder(Shift(top), v, Feedback(top, 5), 0);
      PolymodStep(1, values, k);
    }
    assert values[..|values|] == values;
  }
}
