/** One PSBT key/value map on the wire: sorted pairs behind a terminator, read
    back with duplicate keys refused. */
module PsbtMaps {
  import opened Bytes
  import opened Wire
  import opened KeyMaps

  function PairBytes(p: Pair): bytes { VarBytes(p.key) + VarBytes(p.value) }

  /** The canonical form of one map. */
  function MapBytes(ps: seq<Pair>): bytes { Flat(PairBytes, Sort(ps)) + [0] }

  function ReadPairs(b: bytes, seen: set<bytes>): Reading<seq<Pair>>
    decreases |b|
  {
    if b == [] then Err(Truncated)
    else
      var keyLen :- ReadCompactSize(b);
      if keyLen.value == 0 then Ok(Parsed([], keyLen.rest))
      else
        var key :- Take(keyLen.rest, keyLen.value);
        if key.value in seen then Err(DuplicateKey)
        else
          var value :- ReadVarBytes(key.rest);
          var more :- ReadPairs(value.rest, seen + {key.value});
          Ok(Parsed([Pair(key.value, value.value)] + more.value, more.rest))
  }

  predicate PairFits(p: Pair) {
    0 < |p.key| < 0x1_0000_0000_0000_0000 && |p.value| < 0x1_0000_0000_0000_0000
  }

  lemma ReadPairsStep(p: Pair, tail: bytes, seen: set<bytes>)
    requires PairFits(p) && p.key !in seen
    requires ReadPairs(tail, seen + {p.key}).Ok?
    ensures var more := ReadPairs(tail, seen + {p.key}).value;
            ReadPairs(PairBytes(p) + tail, seen) == Ok(Parsed([p] + more.value, more.rest))
  {
    var afterKey := VarBytes(p.value) + tail;
    Assoc(VarBytes(p.key), VarBytes(p.value), tail);
    Assoc(CompactSize(|p.key|), p.key, afterKey);
    ReadCompactSizeOfCompactSize(|p.key|, p.key + afterKey);
    TakeOfConcat(p.key, afterKey);
    ReadVarBytesOfVarBytes(p.value, tail);
  }

  lemma TailUnseen(ps: seq<Pair>, seen: set<bytes>)
    requires Distinct(ps) && ps != [] && forall p :: p in ps ==> PairFits(p) && p.key !in seen
    ensures Distinct(ps[1..]) && forall q :: q in ps[1..] ==> PairFits(q) && q.key !in seen + {ps[0].key}
  {
    forall q | q in ps[1..]
      ensures PairFits(q) && q.key !in seen + {ps[0].key}
    {
      TailEntries(ps, q);
      var i :| 0 <= i < |ps[1..]| && ps[1..][i] == q;
      assert ps[i + 1] == q;
    }
  }

  lemma {:induction false} ReadPairsOfFlat(ps: seq<Pair>, seen: set<bytes>, rest: bytes)
    requires Distinct(ps)
    requires forall p :: p in ps ==> PairFits(p) && p.key !in seen
    ensures ReadPairs(Flat(PairBytes, ps) + ([0] + rest), seen) == Ok(Parsed(ps, rest))
  {
    if ps == [] {
      ReadCompactSizeOfCompactSize(0, rest);
      assert Flat(PairBytes, ps) + ([0] + rest) == CompactSize(0) + rest;
    } else {
      hide PairBytes, ReadPairs;
      var p, tail := ps[0], Flat(PairBytes, ps[1..]) + ([0] + rest);
      assert p in ps;
      TailUnseen(ps, seen);
      ReadPairsOfFlat(ps[1..], seen + {p.key}, rest);
      ReadPairsStep(p, tail, seen);
      Assoc(PairBytes(p), Flat(PairBytes, ps[1..]), [0] + rest);
      assert ps == [p] + ps[1..];
    }
  }

  /** A written map is read back as its sorted list of pairs. */
  lemma ReadPairsOfMapBytes(ps: seq<Pair>, rest: bytes)
    requires Distinct(ps)
    requires forall p :: p in ps ==> PairFits(p)
    ensures ReadPairs(MapBytes(ps) + rest, {}) == Ok(Parsed(Sort(ps), rest))
  {
    SortCorrect(ps);
    Assoc(Flat(PairBytes, Sort(ps)), [0], rest);
    ReadPairsOfFlat(Sort(ps), {}, rest);
  }

  /** Whatever is read has unique, non-empty keys that were not seen before. */
  lemma {:induction false} ReadPairsWellFormed(b: bytes, seen: set<bytes>)
    requires ReadPairs(b, seen).Ok?
    ensures Distinct(ReadPairs(b, seen).value.value)
    ensures forall p :: p in ReadPairs(b, seen).value.value ==> PairFits(p) && p.key !in seen
    decreases |b|
  {
    var keyLen := ReadCompactSize(b).value;
    ReadCompactSizeCost(b);
    if keyLen.value != 0 {
      var key := Take(keyLen.rest, keyLen.value).value;
      ReadCompactSizeCost(key.rest);
      var value := ReadVarBytes(key.rest).value;
      ReadPairsWellFormed(value.rest, seen + {key.value});
      var more := ReadPairs(value.rest, seen + {key.value}).value.value;
      forall i | 0 <= i < |more|
        ensures more[i].key != key.value
      {
        assert more[i] in more;
      }
    }
  }

  /** The canonical bytes depend on the denoted map alone. */
  lemma MapBytesDeterminedByMap(a: seq<Pair>, b: seq<Pair>)
    requires Distinct(a) && Distinct(b) && ToMap(a) == ToMap(b)
    ensures MapBytes(a) == MapBytes(b)
  {
    SortDeterminedByMap(a, b);
  }

  method ReadMap(r: Reader) returns (res: Result<seq<Pair>, Error>)
    requires r.Valid()
    modifies r`pos
    ensures r.Did(ReadPairs(old(r.Rest()), {}), res)
  {
    var out: seq<Pair> := [];
    var seen: set<bytes> := {};
    ghost var all := ReadPairs(r.Rest(), {});
    PrependNothing(all);
    while true
      invariant r.Valid()
      invariant all == Prepend(out, ReadPairs(r.Rest(), seen))
      decreases |r.Rest()|
    {
      if r.AtEnd() { return Err(Truncated); }
      var keyLen :- r.ReadSize();
      if keyLen == 0 {
        assert out + [] == out;
        return Ok(out);
      }
      var key :- r.TakeBytes(keyLen);
      if key in seen { return Err(DuplicateKey); }
      seen := seen + {key};
      var value :- r.ReadString();
      PrependAssoc(out, [Pair(key, value)], ReadPairs(r.Rest(), seen));
      out := out + [Pair(key, value)];
    }
  }

  /** Appends one map to the output written so far. */
  method WriteMap(start: bytes, pairs: seq<Pair>) returns (out: bytes)
    ensures out == start + MapBytes(pairs)
  {
    var sorted := Sort(pairs);
    out := start;
    for i := 0 to |sorted|
      invariant out == start + Flat(PairBytes, sorted[..i])
    {
      FlatStep(PairBytes, start, sorted, i);
      out := out + PairBytes(sorted[i]);
    }
    assert sorted[..|sorted|] == sorted;
    out := out + [0];
    Assoc(start, Flat(PairBytes, sorted), [0]);
  }
}
