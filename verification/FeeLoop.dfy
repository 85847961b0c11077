/** The fee loop: build with a fee, take the fee that the size asks for, and stop
    when a size comes back; then pick a candidate. Nothing is assumed of how the
    size depends on the fee except that it is bounded. */
module FeeLoop {
  import opened Bytes

  const MIN_RELAY_TX_FEE: nat := 1000

  /** What a fee leads to: a transaction of some size, or a refusal. */
  datatype Built<T> = Built(size: nat, made: T)

  type Builder<!T, !E> = nat -> Result<Built<T>, E>

  datatype Attempt<T> = Attempt(fee: nat, size: nat, made: T)

  /** The fee that `feekb` per 1000 bytes asks for a size. */
  function Rate(size: nat, feekb: nat): nat { size * feekb / 1000 }

  predicate Pays(a: Attempt, feekb: nat) { a.fee >= Rate(a.size, feekb) && a.fee >= Rate(a.size, MIN_RELAY_TX_FEE) }

  /** Attempts in the order they were made: the first pays nothing, each further one
      the rate of the size before it. */
  ghost predicate Chain<T, E>(build: Builder<T, E>, feekb: nat, tried: seq<Attempt<T>>) {
    && (forall k :: 0 <= k < |tried| ==> build(tried[k].fee) == Ok(Built(tried[k].size, tried[k].made)))
    && (tried != [] ==> tried[0].fee == 0)
    && forall k :: 0 < k < |tried| ==> tried[k].fee == Rate(tried[k - 1].size, feekb)
  }

  function NextFee<T>(feekb: nat, tried: seq<Attempt<T>>): nat {
    if tried == [] then 0 else Rate(tried[|tried| - 1].size, feekb)
  }

  ghost predicate NewSizes<T>(tried: seq<Attempt<T>>) {
    forall j, k :: 0 <= j < k < |tried| ==> tried[j].size != tried[k].size
  }

  /** The last size occurred before, and no earlier one repeats. */
  ghost predicate ClosesCycle<T>(tried: seq<Attempt<T>>) {
    && tried != [] && NewSizes(tried[..|tried| - 1])
    && exists j :: 0 <= j < |tried| - 1 && tried[j].size == tried[|tried| - 1].size
  }

  lemma RateMonotone(a: nat, b: nat, feekb: nat)
    requires a <= b
    ensures Rate(a, feekb) <= Rate(b, feekb)
  {
    MulMonotone(a, b, feekb);
  }

  lemma MulMonotone(a: nat, b: nat, k: nat)
    requires a <= b
    ensures a * k <= b * k
  {
    assert b * k - a * k == (b - a) * k;
  }

  lemma RateAboveRelay(size: nat, feekb: nat)
    requires feekb >= MIN_RELAY_TX_FEE
    ensures Rate(size, feekb) >= Rate(size, MIN_RELAY_TX_FEE)
  {
    MulMonotone(MIN_RELAY_TX_FEE, feekb, size);
  }

  /** While nothing pays its rate, the sizes grow strictly. */
  lemma {:induction false} UnpaidGrows<T, E>(build: Builder<T, E>, feekb: nat, tried: seq<Attempt<T>>, j: nat, k: nat)
    requires Chain(build, feekb, tried) && j < k < |tried| && feekb >= MIN_RELAY_TX_FEE
    requires forall i :: 0 <= i < |tried| ==> !Pays(tried[i], feekb)
    ensures tried[j].size < tried[k].size
    decreases k
  {
    hide Rate;
    RateAboveRelay(tried[k].size, feekb);
    assert !Pays(tried[k], feekb);
    if tried[k].size <= tried[k - 1].size { RateMonotone(tried[k].size, tried[k - 1].size, feekb); }
    if j < k - 1 { UnpaidGrows(build, feekb, tried, j, k - 1); }
  }

  /** A size that comes back proves that some attempt paid: a cycle of sizes cannot
      be strictly increasing. */
  lemma CyclePays<T, E>(build: Builder<T, E>, feekb: nat, tried: seq<Attempt<T>>)
    requires Chain(build, feekb, tried) && ClosesCycle(tried) && feekb >= MIN_RELAY_TX_FEE
    ensures exists i :: 0 <= i < |tried| && Pays(tried[i], feekb)
  {
    if forall i :: 0 <= i < |tried| ==> !Pays(tried[i], feekb) {
      var j :| 0 <= j < |tried| - 1 && tried[j].size == tried[|tried| - 1].size;
      UnpaidGrows(build, feekb, tried, j, |tried| - 1);
    }
  }

  // ------------------------------------------------------------------- the picker

  type Groups<T> = map<nat, seq<Attempt<T>>>

  function AddTo<T>(groups: Groups<T>, a: Attempt<T>): Groups<T> {
    groups[a.size := (if a.size in groups then groups[a.size] else []) + [a]]
  }

  /** The attempts by size, each group in the order of making. */
  function Group<T>(tried: seq<Attempt<T>>): Groups<T> {
    if tried == [] then map[] else AddTo(Group(tried[..|tried| - 1]), tried[|tried| - 1])
  }

  ghost predicate In<T>(a: Attempt<T>, groups: Groups<T>) { a.size in groups && a in groups[a.size] }

  ghost predicate Grouped<T>(groups: Groups<T>) {
    forall s :: s in groups ==> groups[s] != [] && forall a :: a in groups[s] ==> a.size == s
  }

  lemma {:induction false} GroupIs<T>(tried: seq<Attempt<T>>)
    ensures Grouped(Group(tried)) && forall a :: In(a, Group(tried)) <==> a in tried
  {
    if tried != [] {
      var front, last := tried[..|tried| - 1], tried[|tried| - 1];
      GroupIs(front);
      assert tried == front + [last];
      forall a
        ensures In(a, Group(tried)) <==> a in tried
      {
        if a.size != last.size { assert In(a, Group(tried)) <==> In(a, Group(front)); }
      }
    }
  }

  /** At most as large, and at equal size at most as dear. */
  predicate NoWorse(a: Attempt, b: Attempt) { a.size < b.size || (a.size == b.size && a.fee <= b.fee) }

  /** The least attempt that pays; without one, the first of the smallest. */
  ghost predicate Picked<T(!new)>(groups: Groups<T>, feekb: nat, best: Attempt<T>) {
    && In(best, groups)
    && if exists a :: In(a, groups) && Pays(a, feekb)
       then Pays(best, feekb) && forall a :: In(a, groups) && Pays(a, feekb) ==> NoWorse(best, a)
       else (forall s :: s in groups ==> best.size <= s) && best == groups[best.size][0]
  }

  lemma Least(s: set<nat>) returns (x: nat)
    requires s != {}
    ensures x in s && forall y :: y in s ==> x <= y
  {
    var first :| first in s;
    if s == {first} {
      x := first;
    } else {
      var rest := s - {first};
      assert s == rest + {first};
      x := Least(rest);
      if first < x { x := first; }
    }
  }

  /** The smallest size moves from the ones to come to the ones seen. */
  lemma MoveLeast(seen: set<nat>, sizes: set<nat>, size: nat)
    requires size in sizes && (forall s :: s in sizes ==> size <= s) && seen !! sizes
    requires forall s, t :: s in seen && t in sizes ==> s < t
    ensures seen + {size} !! sizes - {size} && (seen + {size}) + (sizes - {size}) == seen + sizes
    ensures forall s, t :: s in seen + {size} && t in sizes - {size} ==> s < t
    ensures |sizes - {size}| < |sizes|
  {}

  /** The best of the attempts whose size is in `seen`, if any of them pays. */
  ghost predicate BestSoFar<T(!new)>(groups: Groups<T>, feekb: nat, seen: set<nat>, found: Option<Attempt<T>>) {
    match found
    case None => forall a :: In(a, groups) && a.size in seen ==> !Pays(a, feekb)
    case Some(best) =>
      && In(best, groups) && best.size in seen && Pays(best, feekb)
      && forall a :: In(a, groups) && a.size in seen && Pays(a, feekb) ==> NoWorse(best, a)
  }

  lemma BestGrows<T(!new)>(groups: Groups<T>, feekb: nat, seen: set<nat>, size: nat,
                           before: Option<Attempt<T>>, found: Option<Attempt<T>>)
    requires Grouped(groups) && size in groups && forall s :: s in seen ==> s < size
    requires BestSoFar(groups, feekb, seen, before)
    requires before.Some? ==> found == before
    requires before.None? && found.Some? ==>
      found.value in groups[size] && Pays(found.value, feekb)
      && forall a :: a in groups[size] && Pays(a, feekb) ==> NoWorse(found.value, a)
    requires found.None? ==> forall a :: a in groups[size] ==> !Pays(a, feekb)
    ensures BestSoFar(groups, feekb, seen + {size}, found)
  {
    hide Pays;
  }

  method Pick<T(!new)>(groups: Groups<T>, feekb: nat) returns (best: Attempt<T>)
    requires Grouped(groups) && groups != map[]
    ensures Picked(groups, feekb, best)
  {
    hide Pays, BestSoFar, Picked;
    var found: Option<Attempt<T>> := None;
    var sizes := groups.Keys;
    ghost var seen: set<nat> := {};
    NoneSeen(groups, feekb);
    while sizes != {}
      invariant seen !! sizes && seen + sizes == groups.Keys
      invariant forall s, t :: s in seen && t in sizes ==> s < t
      invariant BestSoFar(groups, feekb, seen, found)
      decreases |sizes|
    {
      ghost var least := Least(sizes);
      var size :| size in sizes && forall s :: s in sizes ==> size <= s;
      MoveLeast(seen, sizes, size);
      FoundBelow(groups, feekb, seen, found);
      var next := PickAmong(groups[size], size, feekb, found);
      BestGrows(groups, feekb, seen, size, found, next);
      found, seen, sizes := next, seen + {size}, sizes - {size};
    }
    assert seen == groups.Keys;
    if found.Some? {
      BestIsPicked(groups, feekb, found);
      return found.value;
    }
    ghost var least := Least(groups.Keys);
    var smallest :| smallest in groups.Keys && forall s :: s in groups.Keys ==> smallest <= s;
    best := groups[smallest][0];
    FallbackIsPicked(groups, feekb, smallest);
  }

  lemma NoneSeen<T(!new)>(groups: Groups<T>, feekb: nat)
    ensures BestSoFar(groups, feekb, {}, None)
  {}

  lemma FoundBelow<T(!new)>(groups: Groups<T>, feekb: nat, seen: set<nat>, found: Option<Attempt<T>>)
    requires BestSoFar(groups, feekb, seen, found)
    ensures found.Some? ==> found.value.size in seen
  {}

  lemma BestIsPicked<T(!new)>(groups: Groups<T>, feekb: nat, found: Option<Attempt<T>>)
    requires BestSoFar(groups, feekb, groups.Keys, found) && found.Some?
    ensures Picked(groups, feekb, found.value)
  {
    hide Pays;
  }

  lemma FallbackIsPicked<T(!new)>(groups: Groups<T>, feekb: nat, smallest: nat)
    requires Grouped(groups) && smallest in groups && forall s :: s in groups ==> smallest <= s
    requires BestSoFar(groups, feekb, groups.Keys, None)
    ensures Picked(groups, feekb, groups[smallest][0])
  {
    hide Pays;
    assert groups[smallest][0] in groups[smallest];
  }

  /** One size: its attempts in order, against the best of the smaller sizes. */
  method PickAmong<T>(attempts: seq<Attempt<T>>, size: nat, feekb: nat, before: Option<Attempt<T>>)
    returns (found: Option<Attempt<T>>)
    requires forall a :: a in attempts ==> a.size == size
    requires before.Some? ==> before.value.size < size
    ensures before.Some? ==> found == before
    ensures before.None? && found.Some? ==>
      found.value in attempts && Pays(found.value, feekb)
      && forall a :: a in attempts && Pays(a, feekb) ==> NoWorse(found.value, a)
    ensures found.None? ==> forall a :: a in attempts ==> !Pays(a, feekb)
  {
    found := before;
    for i := 0 to |attempts|
      invariant before.Some? ==> found == before
      invariant before.None? && found.Some? ==>
        found.value in attempts && Pays(found.value, feekb)
        && forall j :: 0 <= j < i && Pays(attempts[j], feekb) ==> NoWorse(found.value, attempts[j])
      invariant found.None? ==> forall j :: 0 <= j < i ==> !Pays(attempts[j], feekb)
    {
      var a := attempts[i];
      assert a in attempts;
      if a.fee >= Rate(size, feekb) && a.fee >= Rate(size, MIN_RELAY_TX_FEE) {
        if found.None? || size < found.value.size || (size == found.value.size && a.fee < found.value.fee) {
          found := Some(a);
        }
      }
    }
  }

  // --------------------------------------------------------------------- the loop

  ghost predicate Bounded<T(!new), E(!new)>(build: Builder<T, E>, bound: nat) {
    forall fee :: build(fee).Ok? ==> build(fee).value.size <= bound
  }

  ghost predicate Finished<T, E>(build: Builder<T, E>, feekb: nat, tried: seq<Attempt<T>>) {
    Chain(build, feekb, tried) && ClosesCycle(tried)
  }

  ghost predicate Unfinished<T, E>(build: Builder<T, E>, feekb: nat, tried: seq<Attempt<T>>) {
    Chain(build, feekb, tried) && NewSizes(tried)
  }

  /** What the loop may end with: the least paying attempt of a chain that closed a
      cycle, or the builder's refusal of the fee that came next. */
  ghost predicate Chosen<T(!new), E(!new)>(build: Builder<T, E>, feekb: nat, r: Result<Attempt<T>, E>) {
    match r
    case Ok(best) => exists tried :: Finished(build, feekb, tried) && Picked(Group(tried), feekb, best)
    case Err(e) => exists tried :: Unfinished(build, feekb, tried) && build(NextFee(feekb, tried)) == Err(e)
  }

  lemma NothingTried<T>()
    ensures Group<T>([]) == map[] && Sizes<T>([]) == {}
  {}

  lemma GroupStep<T>(tried: seq<Attempt<T>>, a: Attempt<T>)
    ensures Group(tried + [a]) == AddTo(Group(tried), a) && Group(tried + [a]) != map[]
  {
    assert (tried + [a])[..|tried|] == tried;
    assert a.size in AddTo(Group(tried), a);
  }

  lemma EndsPicked<T(!new), E(!new)>(build: Builder<T, E>, feekb: nat, tried: seq<Attempt<T>>, best: Attempt<T>)
    requires Chain(build, feekb, tried) && ClosesCycle(tried) && Picked(Group(tried), feekb, best)
    ensures Chosen(build, feekb, Ok(best))
  {
    assert Finished(build, feekb, tried);
  }

  lemma EndsRefused<T(!new), E(!new)>(build: Builder<T, E>, feekb: nat, tried: seq<Attempt<T>>, e: E)
    requires Chain(build, feekb, tried) && NewSizes(tried) && build(NextFee(feekb, tried)) == Err(e)
    ensures Chosen(build, feekb, Err(e))
  {
    assert Unfinished(build, feekb, tried);
  }

  /** The loop ends, for every bounded size function. */
  method ChooseFee<T(!new), E(!new)>(build: Builder<T, E>, feekb: nat, ghost bound: nat) returns (r: Result<Attempt<T>, E>)
    requires Bounded(build, bound)
    ensures Chosen(build, feekb, r)
  {
    NothingTried<T>();
    hide Chain, NewSizes, ClosesCycle, Picked, NextFee, Chosen, Rate, UpTo, Group, AddTo, Grouped, Sizes;
    var groups: Groups<T> := map[];
    var seen: set<nat> := {};
    var fee: nat := 0;
    ghost var tried: seq<Attempt<T>> := [];
    StartOfChain(build, feekb);
    while true
      invariant Chain(build, feekb, tried) && NewSizes(tried) && fee == NextFee(feekb, tried)
      invariant groups == Group(tried)
      invariant seen == Sizes(tried)
      invariant seen <= UpTo(bound)
      decreases |UpTo(bound) - seen|
    {
      var built := build(fee);
      if built.Err? {
        EndsRefused(build, feekb, tried, built.error);
        return Err(built.error);
      }
      var a := Attempt(fee, built.value.size, built.value.made);
      ChainStep(build, feekb, tried, a);
      SizesStep(tried, a);
      UpToMember(bound, a.size);
      GroupStep(tried, a);
      tried := tried + [a];
      groups := AddTo(groups, a);
      if a.size in seen {
        GroupIs(tried);
        var best := Pick(groups, feekb);
        EndsPicked(build, feekb, tried, best);
        return Ok(best);
      }
      SmallerSet(UpTo(bound) - (seen + {a.size}), UpTo(bound) - seen);
      seen := seen + {a.size};
      fee := Rate(a.size, feekb);
    }
  }

  ghost function Sizes<T>(tried: seq<Attempt<T>>): set<nat> { set a | a in tried :: a.size }

  ghost function UpTo(bound: nat): set<nat> { if bound == 0 then {0} else UpTo(bound - 1) + {bound} }

  lemma UpToMember(bound: nat, n: nat)
    ensures n in UpTo(bound) <==> n <= bound
  {}

  lemma StartOfChain<T, E>(build: Builder<T, E>, feekb: nat)
    ensures Chain(build, feekb, []) && NewSizes<T>([]) && NextFee<T>(feekb, []) == 0
  {}

  lemma ChainStep<T, E>(build: Builder<T, E>, feekb: nat, tried: seq<Attempt<T>>, a: Attempt<T>)
    requires Chain(build, feekb, tried) && a.fee == NextFee(feekb, tried)
    requires build(a.fee) == Ok(Built(a.size, a.made))
    ensures Chain(build, feekb, tried + [a]) && NextFee(feekb, tried + [a]) == Rate(a.size, feekb)
  {
    hide Rate;
  }

  lemma SizesStep<T>(tried: seq<Attempt<T>>, a: Attempt<T>)
    requires NewSizes(tried)
    ensures Sizes(tried + [a]) == Sizes(tried) + {a.size}
    ensures a.size !in Sizes(tried) ==> NewSizes(tried + [a])
    ensures a.size in Sizes(tried) ==> ClosesCycle(tried + [a])
  {
    var next := tried + [a];
    assert next[..|next| - 1] == tried;
    assert forall x :: x in next <==> x in tried || x == a;
    if a.size in Sizes(tried) {
      var x :| x in tried && x.size == a.size;
      var j :| 0 <= j < |tried| && tried[j] == x;
      assert next[j].size == next[|next| - 1].size;
    } else {
      assert forall j :: 0 <= j < |tried| ==> tried[j] in tried;
    }
  }

  lemma SmallerSet(a: set<nat>, b: set<nat>)
    requires a < b
    ensures |a| < |b|
  {
    var x :| x in b && x !in a;
    assert b == (b - {x}) + {x};
    SubsetSize(a, b - {x});
  }

  lemma SubsetSize(a: set<nat>, b: set<nat>)
    requires a <= b
    ensures |a| <= |b|
  {
    if a != {} {
      var x :| x in a;
      SubsetSize(a - {x}, b - {x});
    }
  }

  /** From the relay floor up, what is picked always pays: the fallback is never
      taken. */
  lemma PickedPays<T(!new), E>(build: Builder<T, E>, feekb: nat, tried: seq<Attempt<T>>, best: Attempt<T>)
    requires Finished(build, feekb, tried) && Picked(Group(tried), feekb, best)
    requires feekb >= MIN_RELAY_TX_FEE
    ensures best in tried && Pays(best, feekb)
    ensures forall a :: a in tried && Pays(a, feekb) ==> NoWorse(best, a)
    ensures build(best.fee) == Ok(Built(best.size, best.made))
  {
    hide Group, Pays, Picked;
    GroupIs(tried);
    CyclePays(build, feekb, tried);
    var i :| 0 <= i < |tried| && Pays(tried[i], feekb);
    assert In(tried[i], Group(tried)) by { assert tried[i] in tried; }
    PickedWhenPaid(Group(tried), feekb, best, tried[i]);
    assert In(best, Group(tried));
    var k :| 0 <= k < |tried| && tried[k] == best;
  }

  lemma PickedWasBuilt<T(!new), E>(build: Builder<T, E>, feekb: nat, tried: seq<Attempt<T>>, best: Attempt<T>)
    requires Finished(build, feekb, tried) && Picked(Group(tried), feekb, best)
    ensures build(best.fee) == Ok(Built(best.size, best.made))
  {
    hide Group;
    GroupIs(tried);
    assert In(best, Group(tried));
    var k :| 0 <= k < |tried| && tried[k] == best;
  }

  /** A choice is an attempt that was built, and from the relay floor up it pays. */
  lemma ChosenPays<T(!new), E(!new)>(build: Builder<T, E>, feekb: nat, best: Attempt<T>)
    requires Chosen(build, feekb, Ok(best))
    ensures build(best.fee) == Ok(Built(best.size, best.made))
    ensures feekb >= MIN_RELAY_TX_FEE ==> Pays(best, feekb)
  {
    hide Finished, Picked, Group, Pays;
    var tried :| Finished(build, feekb, tried) && Picked(Group(tried), feekb, best);
    PickedWasBuilt(build, feekb, tried, best);
    if feekb >= MIN_RELAY_TX_FEE { PickedPays(build, feekb, tried, best); }
  }

  /** The chosen fee is never above the rate of the largest size that can occur. */
  lemma ChosenFeeBounded<T(!new), E(!new)>(build: Builder<T, E>, feekb: nat, best: Attempt<T>, bound: nat)
    requires Chosen(build, feekb, Ok(best)) && Bounded(build, bound)
    ensures best.fee <= Rate(bound, feekb)
  {
    hide Picked, Group, Rate, ClosesCycle;
    var tried: seq<Attempt<T>> :| Finished(build, feekb, tried) && Picked(Group(tried), feekb, best);
    PickedIsIn(Group(tried), feekb, best);
    GroupIs(tried);
    var k :| 0 <= k < |tried| && tried[k] == best;
    if k > 0 { RateMonotone(tried[k - 1].size, bound, feekb); }
  }

  lemma PickedIsIn<T(!new)>(groups: Groups<T>, feekb: nat, best: Attempt<T>)
    requires Picked(groups, feekb, best)
    ensures In(best, groups)
  {}

  lemma PickedWhenPaid<T(!new)>(groups: Groups<T>, feekb: nat, best: Attempt<T>, a: Attempt<T>)
    requires Picked(groups, feekb, best) && In(a, groups) && Pays(a, feekb)
    ensures In(best, groups) && Pays(best, feekb)
    ensures forall a :: In(a, groups) && Pays(a, feekb) ==> NoWorse(best, a)
  {
    hide Pays;
  }

  lemma {:induction false} NewSizesCount<T>(tried: seq<Attempt<T>>)
    requires NewSizes(tried)
    ensures |Sizes(tried)| == |tried|
  {
    if tried != [] {
      var front, last := tried[..|tried| - 1], tried[|tried| - 1];
      NewSizesCount(front);
      SizesStep(front, last);
      assert tried == front + [last];
      assert last.size !in Sizes(front);
    }
  }

  /** The loop makes at most one attempt more than there are sizes: three, when the
      only choice left is a change output or none. */
  lemma AttemptsBounded<T>(tried: seq<Attempt<T>>, sizes: set<nat>)
    requires ClosesCycle(tried) && forall a :: a in tried ==> a.size in sizes
    ensures 2 <= |tried| <= |sizes| + 1
  {
    var front := tried[..|tried| - 1];
    NewSizesCount(front);
    assert forall a :: a in front ==> a in tried;
    SubsetSize(Sizes(front), sizes);
  }
}
