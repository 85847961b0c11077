/** Keyed lists: the lists of (key, value) byte pairs a PSBT map is made of,
    their canonical order, and the map they denote. */
module KeyMaps {
  import opened Bytes

  datatype Pair = Pair(key: bytes, value: bytes)

  ghost predicate Distinct(ps: seq<Pair>) {
    forall i, j :: 0 <= i < j < |ps| ==> ps[i].key != ps[j].key
  }

  predicate Sorted(ps: seq<Pair>) {
    forall i, j :: 0 <= i < j < |ps| ==> LexLe(ps[i].key, ps[j].key)
  }

  /** The map a keyed list denotes (the last entry of a repeated key counts). */
  function ToMap(ps: seq<Pair>): map<bytes, bytes> {
    if ps == [] then map[] else ToMap(ps[..|ps| - 1])[ps[|ps| - 1].key := ps[|ps| - 1].value]
  }

  lemma {:induction false} ToMapKeys(ps: seq<Pair>)
    ensures forall k :: k in ToMap(ps) <==> exists i :: 0 <= i < |ps| && ps[i].key == k
  {
    if ps != [] {
      var front := ps[..|ps| - 1];
      ToMapKeys(front);
      forall k
        ensures k in ToMap(ps) <==> exists i :: 0 <= i < |ps| && ps[i].key == k
      {
        if k in ToMap(ps) {
          if k == ps[|ps| - 1].key {
          } else {
            var i :| 0 <= i < |front| && front[i].key == k;
            assert ps[i].key == k;
          }
        }
        if i :| 0 <= i < |ps| && ps[i].key == k {
          if i < |front| { assert front[i].key == k; }
        }
      }
    }
  }

  /** A keyed list with unique keys holds exactly the entries of its map. */
  lemma {:induction false} ToMapMember(ps: seq<Pair>)
    requires Distinct(ps)
    ensures forall p :: p in ps <==> p.key in ToMap(ps) && ToMap(ps)[p.key] == p.value
  {
    if ps != [] {
      var front, last := ps[..|ps| - 1], ps[|ps| - 1];
      ToMapMember(front);
      assert ps == front + [last];
      forall p
        ensures p in ps <==> p.key in ToMap(ps) && ToMap(ps)[p.key] == p.value
      {
        if p in front {
          var i :| 0 <= i < |front| && front[i] == p;
          assert ps[i].key != last.key;
        }
      }
    }
  }

  /** Lists with unique keys and the same entries denote the same map. */
  lemma SameEntriesSameMap(a: seq<Pair>, b: seq<Pair>)
    requires Distinct(a) && Distinct(b)
    requires forall p :: p in a <==> p in b
    ensures ToMap(a) == ToMap(b)
  {
    ToMapMember(a);
    ToMapMember(b);
    forall k | k in ToMap(a)
      ensures k in ToMap(b) && ToMap(a)[k] == ToMap(b)[k]
    {
      assert Pair(k, ToMap(a)[k]) in a;
    }
    forall k | k in ToMap(b)
      ensures k in ToMap(a)
    {
      assert Pair(k, ToMap(b)[k]) in b;
    }
  }

  lemma SameMapSameEntries(a: seq<Pair>, b: seq<Pair>)
    requires Distinct(a) && Distinct(b) && ToMap(a) == ToMap(b)
    ensures forall p :: p in a <==> p in b
  {
    ToMapMember(a);
    ToMapMember(b);
  }

  lemma DistinctParts(a: seq<Pair>, b: seq<Pair>)
    requires Distinct(a + b)
    ensures Distinct(a) && Distinct(b)
    ensures forall i, j :: 0 <= i < |a| && 0 <= j < |b| ==> a[i].key != b[j].key
  {
    var ab := a + b;
    assert forall i :: 0 <= i < |a| ==> a[i] == ab[i];
    forall i, j | 0 <= i < j < |b|
      ensures b[i].key != b[j].key
    {
      assert ab[|a| + i] == b[i] && ab[|a| + j] == b[j];
    }
    forall i, j | 0 <= i < |a| && 0 <= j < |b|
      ensures a[i].key != b[j].key
    {
      assert ab[i] == a[i] && ab[|a| + j] == b[j];
    }
  }

  lemma LastKeyNew(a: seq<Pair>, b: seq<Pair>)
    requires Distinct(a + b) && b != []
    ensures b[|b| - 1].key !in ToMap(a)
  {
    DistinctParts(a, b);
    ToMapKeys(a);
  }

  lemma {:induction false} ToMapConcat(a: seq<Pair>, b: seq<Pair>)
    requires Distinct(a + b)
    ensures Distinct(a) && Distinct(b)
    ensures ToMap(a + b) == ToMap(a) + ToMap(b)
    ensures ToMap(a).Keys !! ToMap(b).Keys
  {
    DistinctParts(a, b);
    if b == [] {
      assert a + b == a;
    } else {
      var front, last := b[..|b| - 1], b[|b| - 1];
      assert (a + b)[..|a + b| - 1] == a + front;
      assert a + b == a + front + [last];
      DistinctParts(a + front, [last]);
      ToMapConcat(a, front);
      LastKeyNew(a, b);
    }
  }

  // ------------------------------------------------------------------ sorting

  /** Insert behind every key not above `x`'s. */
  function Insert(x: Pair, ps: seq<Pair>): (r: seq<Pair>)
    ensures |r| == |ps| + 1
  {
    if ps != [] && LexLe(ps[0].key, x.key) then [ps[0]] + Insert(x, ps[1..]) else [x] + ps
  }

  function Sort(ps: seq<Pair>): (r: seq<Pair>)
    ensures |r| == |ps|
  {
    if ps == [] then [] else Insert(ps[|ps| - 1], Sort(ps[..|ps| - 1]))
  }

  lemma {:induction false} InsertMembers(x: Pair, ps: seq<Pair>)
    ensures forall p :: p in Insert(x, ps) <==> p == x || p in ps
  {
    if ps != [] && LexLe(ps[0].key, x.key) {
      InsertMembers(x, ps[1..]);
      assert ps == [ps[0]] + ps[1..];
    }
  }

  lemma {:induction false} InsertSorted(x: Pair, ps: seq<Pair>)
    requires Sorted(ps)
    ensures Sorted(Insert(x, ps))
  {
    if ps != [] && LexLe(ps[0].key, x.key) {
      var tail := Insert(x, ps[1..]);
      InsertSorted(x, ps[1..]);
      InsertMembers(x, ps[1..]);
      forall i | 0 <= i < |tail|
        ensures LexLe(ps[0].key, tail[i].key)
      {
        assert tail[i] in tail;
        if tail[i] != x {
          var j :| 0 <= j < |ps[1..]| && ps[1..][j] == tail[i];
          assert ps[j + 1] == tail[i];
        }
      }
    } else if ps != [] {
      LexTotal(ps[0].key, x.key);
      forall i | 0 <= i < |ps|
        ensures LexLe(x.key, ps[i].key)
      {
        if i > 0 { LexTrans(x.key, ps[0].key, ps[i].key); }
      }
    }
  }

  lemma {:induction false} InsertDistinct(x: Pair, ps: seq<Pair>)
    requires Distinct(ps)
    requires forall p :: p in ps ==> p.key != x.key
    ensures Distinct(Insert(x, ps))
  {
    if ps != [] && LexLe(ps[0].key, x.key) {
      var tail := Insert(x, ps[1..]);
      forall p | p in ps[1..]
        ensures p.key != x.key
      {
        assert p in ps;
      }
      InsertDistinct(x, ps[1..]);
      InsertMembers(x, ps[1..]);
      forall i | 0 <= i < |tail|
        ensures tail[i].key != ps[0].key
      {
        assert tail[i] in tail;
        if tail[i] == x {
          assert ps[0] in ps;
        } else {
          var j :| 0 <= j < |ps[1..]| && ps[1..][j] == tail[i];
          assert ps[j + 1] == tail[i];
        }
      }
    } else {
      forall i | 0 <= i < |ps|
        ensures ps[i].key != x.key
      {
        assert ps[i] in ps;
      }
    }
  }

  /** Sorting keeps the entries, orders the keys and keeps them unique. */
  lemma {:induction false} SortCorrect(ps: seq<Pair>)
    ensures Sorted(Sort(ps))
    ensures forall p :: p in Sort(ps) <==> p in ps
    ensures Distinct(ps) ==> Distinct(Sort(ps)) && ToMap(Sort(ps)) == ToMap(ps)
  {
    if ps != [] {
      var front, last := ps[..|ps| - 1], ps[|ps| - 1];
      SortCorrect(front);
      InsertSorted(last, Sort(front));
      InsertMembers(last, Sort(front));
      assert ps == front + [last];
      if Distinct(ps) {
        forall p | p in Sort(front)
          ensures p.key != last.key
        {
          var i :| 0 <= i < |front| && front[i] == p;
          assert ps[i].key != last.key;
        }
        InsertDistinct(last, Sort(front));
        SameEntriesSameMap(Sort(ps), ps);
      }
    }
  }

  lemma NonEmptyHasMember(a: seq<Pair>)
    ensures a != [] ==> exists p :: p in a
  {
    if a != [] { assert a[0] in a; }
  }

  lemma TailEntries(a: seq<Pair>, p: Pair)
    requires Distinct(a) && a != []
    ensures p in a[1..] <==> p in a && p != a[0]
  {
    assert a == [a[0]] + a[1..];
    if p in a[1..] {
      var k :| 0 <= k < |a[1..]| && a[1..][k] == p;
      assert a[k + 1] == p;
    }
  }

  /** There is only one sorted list of a given map. */
  lemma {:induction false} SortedUnique(a: seq<Pair>, b: seq<Pair>)
    requires Sorted(a) && Distinct(a) && Sorted(b) && Distinct(b)
    requires forall p :: p in a <==> p in b
    ensures a == b
  {
    if a == [] {
      NonEmptyHasMember(b);
    } else {
      assert a[0] in b;
      var i :| 0 <= i < |b| && b[i] == a[0];
      assert b[0] in a;
      var j :| 0 <= j < |a| && a[j] == b[0];
      assert a[0] == b[0] by {
        LexRefl(a[0].key);
        LexAntisym(a[0].key, b[0].key);
      }
      forall p
        ensures p in a[1..] <==> p in b[1..]
      {
        TailEntries(a, p);
        TailEntries(b, p);
      }
      SortedUnique(a[1..], b[1..]);
      assert a == [a[0]] + a[1..] && b == [b[0]] + b[1..];
    }
  }

  lemma SortOfSorted(ps: seq<Pair>)
    requires Sorted(ps) && Distinct(ps)
    ensures Sort(ps) == ps
  {
    SortCorrect(ps);
    SortedUnique(Sort(ps), ps);
  }

  /** The canonical list depends on the denoted map alone. */
  lemma SortDeterminedByMap(a: seq<Pair>, b: seq<Pair>)
    requires Distinct(a) && Distinct(b) && ToMap(a) == ToMap(b)
    ensures Sort(a) == Sort(b)
  {
    SortCorrect(a);
    SortCorrect(b);
    SameMapSameEntries(a, b);
    SortedUnique(Sort(a), Sort(b));
  }

  // ---------------------------------------------------------------- filtering

  function Filter(p: Pair -> bool, ps: seq<Pair>): seq<Pair> {
    if ps == [] then []
    else Filter(p, ps[..|ps| - 1]) + (if p(ps[|ps| - 1]) then [ps[|ps| - 1]] else [])
  }

  lemma FilterSnoc(p: Pair -> bool, ps: seq<Pair>, x: Pair)
    ensures Filter(p, ps + [x]) == Filter(p, ps) + if p(x) then [x] else []
  {
    assert (ps + [x])[..|ps|] == ps;
  }

  lemma {:induction false} FilterMembers(p: Pair -> bool, ps: seq<Pair>)
    ensures forall q :: q in Filter(p, ps) <==> q in ps && p(q)
  {
    if ps != [] {
      FilterMembers(p, ps[..|ps| - 1]);
      assert ps == ps[..|ps| - 1] + [ps[|ps| - 1]];
    }
  }

  lemma {:induction false} FilterSorted(p: Pair -> bool, ps: seq<Pair>)
    requires Sorted(ps)
    ensures Sorted(Filter(p, ps))
  {
    if ps != [] {
      var front, last := ps[..|ps| - 1], ps[|ps| - 1];
      FilterSorted(p, front);
      FilterMembers(p, front);
      forall q | q in Filter(p, front)
        ensures LexLe(q.key, last.key)
      {
        var j :| 0 <= j < |front| && front[j] == q;
        assert ps[j] == q;
      }
    }
  }

  lemma {:induction false} FilterDistinct(p: Pair -> bool, ps: seq<Pair>)
    requires Distinct(ps)
    ensures Distinct(Filter(p, ps))
  {
    if ps != [] {
      var front, last := ps[..|ps| - 1], ps[|ps| - 1];
      FilterDistinct(p, front);
      FilterMembers(p, front);
      forall q | q in Filter(p, front)
        ensures q.key != last.key
      {
        var j :| 0 <= j < |front| && front[j] == q;
        assert ps[j] == q;
      }
    }
  }

  lemma FilterSort(p: Pair -> bool, ps: seq<Pair>)
    requires Distinct(ps)
    ensures Filter(p, Sort(ps)) == Sort(Filter(p, ps))
  {
    SortCorrect(ps);
    FilterMembers(p, ps);
    FilterDistinct(p, ps);
    FilterMembers(p, Sort(ps));
    FilterSorted(p, Sort(ps));
    FilterDistinct(p, Sort(ps));
    SortCorrect(Filter(p, ps));
    SortedUnique(Filter(p, Sort(ps)), Sort(Filter(p, ps)));
  }

  lemma {:induction false} FilterConcat(p: Pair -> bool, a: seq<Pair>, b: seq<Pair>)
    ensures Filter(p, a + b) == Filter(p, a) + Filter(p, b)
  {
    if b == [] {
      assert a + b == a;
    } else {
      FilterConcat(p, a, b[..|b| - 1]);
      assert (a + b)[..|a + b| - 1] == a + b[..|b| - 1];
    }
  }

  lemma {:induction false} FilterAll(p: Pair -> bool, ps: seq<Pair>)
    requires forall q :: q in ps ==> p(q)
    ensures Filter(p, ps) == ps
  {
    if ps != [] {
      FilterAll(p, ps[..|ps| - 1]);
      assert ps == ps[..|ps| - 1] + [ps[|ps| - 1]];
    }
  }

  lemma {:induction false} FilterNone(p: Pair -> bool, ps: seq<Pair>)
    requires forall q :: q in ps ==> !p(q)
    ensures Filter(p, ps) == []
  {
    if ps != [] { FilterNone(p, ps[..|ps| - 1]); }
  }

  lemma FilterFirst(p: Pair -> bool, a: seq<Pair>, b: seq<Pair>)
    requires forall q :: q in a ==> p(q)
    requires forall q :: q in b ==> !p(q)
    ensures Filter(p, a + b) == a
  {
    FilterConcat(p, a, b);
    FilterAll(p, a);
    FilterNone(p, b);
  }

  lemma FilterSecond(p: Pair -> bool, a: seq<Pair>, b: seq<Pair>)
    requires forall q :: q in a ==> !p(q)
    requires forall q :: q in b ==> p(q)
    ensures Filter(p, a + b) == b
  {
    FilterConcat(p, a, b);
    FilterNone(p, a);
    FilterAll(p, b);
  }

  // ------------------------------------------------------- typed key prefixes

  /** Entries of field type `t`: the one-byte type in front of the key data. */
  function WithType(t: byte, ps: seq<Pair>): (r: seq<Pair>)
    ensures |r| == |ps|
    ensures forall i :: 0 <= i < |ps| ==> r[i] == Pair([t] + ps[i].key, ps[i].value)
  {
    seq(|ps|, i requires 0 <= i < |ps| => Pair([t] + ps[i].key, ps[i].value))
  }

  function StripType(ps: seq<Pair>): (r: seq<Pair>)
    requires forall p :: p in ps ==> p.key != []
    ensures |r| == |ps|
    ensures forall i :: 0 <= i < |ps| ==> r[i] == Pair(ps[i].key[1..], ps[i].value)
  {
    seq(|ps|, i requires 0 <= i < |ps| => Pair(ps[i].key[1..], ps[i].value))
  }

  lemma StripWithType(t: byte, ps: seq<Pair>)
    ensures StripType(WithType(t, ps)) == ps
  {
    var r := WithType(t, ps);
    forall i | 0 <= i < |ps|
      ensures StripType(r)[i] == ps[i]
    {
      assert r[i].key[1..] == ps[i].key;
    }
  }

  lemma WithTypeDistinct(t: byte, ps: seq<Pair>)
    ensures Distinct(WithType(t, ps)) <==> Distinct(ps)
  {
    var r := WithType(t, ps);
    forall i, j | 0 <= i < j < |ps|
      ensures r[i].key == r[j].key <==> ps[i].key == ps[j].key
    {
      assert r[i].key[1..] == ps[i].key && r[j].key[1..] == ps[j].key;
    }
  }

  lemma WithTypeMember(t: byte, ps: seq<Pair>, p: Pair)
    ensures p in WithType(t, ps) <==> p.key != [] && p.key[0] == t && Pair(p.key[1..], p.value) in ps
  {
    var r := WithType(t, ps);
    if p in r {
      var i :| 0 <= i < |r| && r[i] == p;
      assert p.key[1..] == ps[i].key;
      assert ps[i] == Pair(p.key[1..], p.value);
    }
    if p.key != [] && p.key[0] == t && Pair(p.key[1..], p.value) in ps {
      var i :| 0 <= i < |ps| && ps[i] == Pair(p.key[1..], p.value);
      assert p.key == [t] + p.key[1..];
      assert r[i] == p;
    }
  }

  lemma SortWithType(t: byte, ps: seq<Pair>)
    requires Distinct(ps)
    ensures Sort(WithType(t, ps)) == WithType(t, Sort(ps))
  {
    var a, b := Sort(WithType(t, ps)), WithType(t, Sort(ps));
    SortCorrect(ps);
    SortCorrect(WithType(t, ps));
    WithTypeDistinct(t, ps);
    WithTypeDistinct(t, Sort(ps));
    forall i, j | 0 <= i < j < |b|
      ensures LexLe(b[i].key, b[j].key)
    {
      LexPrefixed([t], Sort(ps)[i].key, Sort(ps)[j].key);
    }
    forall p
      ensures p in a <==> p in b
    {
      WithTypeMember(t, ps, p);
      WithTypeMember(t, Sort(ps), p);
    }
    SortedUnique(a, b);
  }

  // ------------------------------------------------------------------ merging

  ghost predicate Compatible(a: map<bytes, bytes>, b: map<bytes, bytes>) {
    forall k :: k in a && k in b ==> a[k] == b[k]
  }

  /** Index of the first entry with this key. */
  function Find(ps: seq<Pair>, key: bytes): (r: Option<nat>)
    ensures r.Some? ==> r.value < |ps| && ps[r.value].key == key
                        && forall i :: 0 <= i < r.value ==> ps[i].key != key
    ensures r.None? ==> forall i :: 0 <= i < |ps| ==> ps[i].key != key
  {
    if ps == [] then None
    else if ps[0].key == key then Some(0)
    else match Find(ps[1..], key)
      case None =>
        assert forall i :: 0 < i < |ps| ==> ps[i] == ps[1..][i - 1];
        None
      case Some(i) =>
        assert forall j :: 0 < j < |ps| ==> ps[j] == ps[1..][j - 1];
        Some(i + 1)
  }

  /** `b`'s entries added behind `a`'s; a key with two values is a conflict. */
  function Merge(a: seq<Pair>, b: seq<Pair>): Option<seq<Pair>>
    decreases |b|
  {
    if b == [] then Some(a)
    else match Find(a, b[0].key)
      case None => Merge(a + [b[0]], b[1..])
      case Some(i) => if a[i].value == b[0].value then Merge(a, b[1..]) else None
  }

  lemma ToMapCons(b: seq<Pair>)
    requires Distinct(b) && b != []
    ensures Distinct(b[1..]) && b[0].key !in ToMap(b[1..])
    ensures ToMap(b) == map[b[0].key := b[0].value] + ToMap(b[1..])
  {
    assert b == [b[0]] + b[1..];
    ToMapConcat([b[0]], b[1..]);
    assert [b[0]][..0] == [];
    assert ToMap([b[0]]) == map[b[0].key := b[0].value];
  }

  lemma ToMapSnoc(a: seq<Pair>, x: Pair)
    requires Distinct(a) && forall i :: 0 <= i < |a| ==> a[i].key != x.key
    ensures Distinct(a + [x]) && x.key !in ToMap(a)
    ensures ToMap(a + [x]) == ToMap(a)[x.key := x.value]
  {
    ToMapKeys(a);
    assert (a + [x])[..|a|] == a;
  }

  /** Moving one entry across a union. */
  lemma UnionMove(a: map<bytes, bytes>, k: bytes, v: bytes, rest: map<bytes, bytes>)
    requires k !in rest
    ensures k !in a ==> (Compatible(a[k := v], rest) <==> Compatible(a, map[k := v] + rest))
    ensures k in a && a[k] == v ==> (Compatible(a, rest) <==> Compatible(a, map[k := v] + rest))
    ensures k in a && a[k] != v ==> !Compatible(a, map[k := v] + rest)
    ensures a[k := v] + rest == a + (map[k := v] + rest)
  {
    var b := map[k := v] + rest;
    assert forall x :: x in rest ==> x in b && b[x] == rest[x];
    assert k in b && b[k] == v;
  }

  /** Merging is the union of the two maps, and fails exactly when they disagree. */
  lemma {:induction false} MergeIsUnion(a: seq<Pair>, b: seq<Pair>)
    requires Distinct(a) && Distinct(b)
    ensures Merge(a, b).Some? <==> Compatible(ToMap(a), ToMap(b))
    ensures Merge(a, b).Some? ==> Distinct(Merge(a, b).value)
                                  && ToMap(Merge(a, b).value) == ToMap(a) + ToMap(b)
    decreases |b|
  {
    if b != [] {
      var x, rest := b[0], b[1..];
      ToMapCons(b);
      UnionMove(ToMap(a), x.key, x.value, ToMap(rest));
      if Find(a, x.key).None? {
        ToMapSnoc(a, x);
        MergeIsUnion(a + [x], rest);
      } else {
        FoundEntry(a, x.key);
        assert ToMap(a)[x.key := x.value] == ToMap(a) || ToMap(a)[x.key] != x.value;
        MergeIsUnion(a, rest);
      }
    }
  }

  lemma FoundEntry(a: seq<Pair>, k: bytes)
    requires Distinct(a) && Find(a, k).Some?
    ensures k in ToMap(a) && ToMap(a)[k] == a[Find(a, k).value].value
  {
    ToMapMember(a);
    assert a[Find(a, k).value] in a;
  }

  /** The merging loop: `b` is walked once, `out` grows behind `a`. */
  method MergeLists(a: seq<Pair>, b: seq<Pair>) returns (r: Option<seq<Pair>>)
    ensures r == Merge(a, b)
  {
    var out := a;
    assert b[0..] == b;
    for n := 0 to |b|
      invariant Merge(a, b) == Merge(out, b[n..])
    {
      assert b[n..][1..] == b[n + 1..];
      var existing := Find(out, b[n].key);
      if existing.Some? {
        if out[existing.value].value != b[n].value { return None; }
      } else {
        out := out + [b[n]];
      }
    }
    assert b[|b|..] == [];
    return Some(out);
  }
}
