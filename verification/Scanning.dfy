/** Finding the wallet's money: the walk over nonces against one view of the chain,
    and the greedy choice of a quorum's outputs. */
module Scanning {
  import opened Bytes
  import opened Accounting

  /** What the backend says of one address: whether it ever received anything, and
      what it holds now. */
  datatype Form = Form(key: PubKey, address: seq<nat>, used: bool, unspent: seq<Utxo>)

  /** The forms of every nonce; from `bound` on nothing was ever used. */
  datatype View = View(forms: nat -> seq<Form>, bound: nat)

  predicate Gap(v: View, nonce: nat) { forall i :: 0 <= i < |v.forms(nonce)| ==> !v.forms(nonce)[i].used }

  ghost predicate Finite(v: View) { forall nonce :: nonce >= v.bound ==> Gap(v, nonce) }

  predicate Contributes(f: Form) { f.used && f.unspent != [] }

  /** The contributing forms among the first `n`, in order. */
  function Contributing(forms: seq<Form>, n: nat): seq<Form>
    requires n <= |forms|
  {
    if n == 0 then []
    else Contributing(forms, n - 1) + (if Contributes(forms[n - 1]) then [forms[n - 1]] else [])
  }

  function AtNonce(v: View, nonce: nat): seq<Form> { Contributing(v.forms(nonce), |v.forms(nonce)|) }

  /** Everything below nonce `n`. */
  function Collected(v: View, n: nat): seq<Form> { if n == 0 then [] else Collected(v, n - 1) + AtNonce(v, n - 1) }

  function Value(us: seq<Utxo>): nat { if us == [] then 0 else Value(us[..|us| - 1]) + us[|us| - 1].amount }

  function Worth(fs: seq<Form>): nat { if fs == [] then 0 else Worth(fs[..|fs| - 1]) + Value(fs[|fs| - 1].unspent) }

  lemma {:induction false} WorthConcat(a: seq<Form>, b: seq<Form>)
    ensures Worth(a + b) == Worth(a) + Worth(b)
  {
    if b == [] {
      assert a + b == a;
    } else {
      assert (a + b)[..|a + b| - 1] == a + b[..|b| - 1];
      WorthConcat(a, b[..|b| - 1]);
    }
  }

  lemma WorthSnoc(fs: seq<Form>, f: Form)
    ensures Worth(fs + [f]) == Worth(fs) + Value(f.unspent)
  {
    assert (fs + [f])[..|fs|] == fs;
  }

  /** The walk passed nonce `k`: it is no gap, and if it contributed anything the
      target was still out of reach. */
  ghost predicate Passed(v: View, target: Option<nat>, k: nat) {
    !Gap(v, k) && (target.Some? && AtNonce(v, k) != [] ==> Worth(Collected(v, k + 1)) < target.value)
  }

  datatype Stop = AtGap(nonce: nat) | AtTarget(nonce: nat)

  /** Where the walk ended, and with what. */
  ghost predicate Stopped(v: View, target: Option<nat>, stop: Stop, found: seq<Form>) {
    && (forall k :: 0 <= k < stop.nonce ==> Passed(v, target, k))
    && match stop
       case AtGap(s) => Gap(v, s) && found == Collected(v, s)
       case AtTarget(s) =>
         && !Gap(v, s) && target.Some? && AtNonce(v, s) != []
         && found == Collected(v, s + 1) && Worth(found) >= target.value
  }

  datatype Scan = Scan(found: seq<Form>, cashback: seq<nat>)

  /** Change goes to the own form of the gap, or to the last contributing address. */
  predicate ChangeGoesTo(v: View, stop: Stop, ownType: nat, r: Scan) {
    match stop
    case AtGap(s) => ownType < |v.forms(s)| && r.cashback == v.forms(s)[ownType].address
    case AtTarget(_) => r.found != [] && r.cashback == r.found[|r.found| - 1].address
  }

  method NonceIsUsed(v: View, nonce: nat) returns (used: bool)
    ensures used <==> !Gap(v, nonce)
  {
    var forms := v.forms(nonce);
    for i := 0 to |forms|
      invariant forall j :: 0 <= j < i ==> !forms[j].used
    {
      if forms[i].used { return true; }
    }
    return false;
  }

  /** The contributing forms of one nonce and what they hold. */
  method CollectNonce(v: View, nonce: nat) returns (found: seq<Form>, total: nat)
    ensures found == AtNonce(v, nonce) && total == Worth(found)
  {
    var forms := v.forms(nonce);
    found, total := [], 0;
    for i := 0 to |forms|
      invariant found == Contributing(forms, i) && total == Worth(found)
    {
      var f := forms[i];
      if f.used && f.unspent != [] {
        WorthSnoc(found, f);
        for j := 0 to |f.unspent|
          invariant total == Worth(found) + Value(f.unspent[..j])
        {
          assert f.unspent[..j + 1][..j] == f.unspent[..j];
          total := total + f.unspent[j].amount;
        }
        assert f.unspent[..|f.unspent|] == f.unspent;
        found := found + [f];
      }
    }
  }

  /** The walk, with the form that change goes to after a gap. It ends on every finite
      view; it stops at the first gap, or at the first contributing nonce where the
      total reaches the target, and returns all that lies below. */
  method ScanInputs(v: View, target: Option<nat>, ownType: nat) returns (r: Scan)
    requires Finite(v) && forall nonce :: ownType < |v.forms(nonce)|
    ensures exists stop :: Stopped(v, target, stop, r.found) && ChangeGoesTo(v, stop, ownType, r)
  {
    hide Worth, Gap, AtNonce;
    var found: seq<Form> := [];
    var total: nat := 0;
    var nonce: nat := 0;
    NothingFound();
    while true
      invariant found == Collected(v, nonce) && total == Worth(found)
      invariant forall k :: 0 <= k < nonce ==> Passed(v, target, k)
      invariant nonce <= v.bound
      decreases v.bound - nonce
    {
      var used := NonceIsUsed(v, nonce);
      if !used {
        assert Stopped(v, target, AtGap(nonce), found);
        return Scan(found, v.forms(nonce)[ownType].address);
      }
      assert nonce < v.bound;
      var here, value := CollectNonce(v, nonce);
      WorthConcat(found, here);
      found := found + here;
      total := total + value;
      assert found == Collected(v, nonce + 1);
      if here != [] && target.Some? && total >= target.value {
        assert found[|found| - 1] == here[|here| - 1];
        assert Stopped(v, target, AtTarget(nonce), found);
        return Scan(found, found[|found| - 1].address);
      }
      nonce := nonce + 1;
    }
  }

  lemma NothingFound()
    ensures Worth([]) == 0
  {}

  // ------------------------------------------------------------ what the walk means

  /** Every output of every used form below the stop is among what was found. */
  lemma {:induction false} NothingMissed(v: View, n: nat, nonce: nat, i: nat, u: Utxo)
    requires nonce < n && i < |v.forms(nonce)| && v.forms(nonce)[i].used && u in v.forms(nonce)[i].unspent
    ensures v.forms(nonce)[i] in Collected(v, n)
    decreases n
  {
    assert Contributes(v.forms(nonce)[i]);
    assert Collected(v, n) == Collected(v, n - 1) + AtNonce(v, n - 1);
    if nonce == n - 1 {
      InContributing(v.forms(nonce), |v.forms(nonce)|, i);
    } else {
      hide Contributes, AtNonce;
      NothingMissed(v, n - 1, nonce, i, u);
    }
    hide Collected, Contributes, AtNonce;
  }

  lemma {:induction false} InContributing(forms: seq<Form>, n: nat, i: nat)
    requires i < n <= |forms| && Contributes(forms[i])
    ensures forms[i] in Contributing(forms, n)
    decreases n
  {
    if i < n - 1 { InContributing(forms, n - 1, i); }
  }

  /** While the walk goes on, what was found stays below a positive target. */
  lemma {:induction false} BelowTarget(v: View, target: nat, n: nat)
    requires target > 0 && forall k :: 0 <= k < n ==> Passed(v, Some(target), k)
    ensures Worth(Collected(v, n)) < target
  {
    if n > 0 {
      BelowTarget(v, target, n - 1);
      assert Passed(v, Some(target), n - 1);
      if AtNonce(v, n - 1) == [] { assert Collected(v, n - 1) + [] == Collected(v, n - 1); }
    }
  }

  /** A walk that met its target met it at its last nonce: without that nonce the sum
      falls short. */
  lemma TargetFirstMet(v: View, target: nat, s: nat, found: seq<Form>)
    requires target > 0 && Stopped(v, Some(target), AtTarget(s), found)
    ensures Worth(Collected(v, s)) < target <= Worth(found) && found == Collected(v, s) + AtNonce(v, s)
  {
    BelowTarget(v, target, s);
  }

  /** The end of the walk is a property of the view alone. */
  lemma StopUnique(v: View, target: Option<nat>, a: Stop, b: Stop, found: seq<Form>, found': seq<Form>)
    requires Stopped(v, target, a, found) && Stopped(v, target, b, found')
    ensures a == b && found == found'
  {
    hide Worth, AtNonce;
    assert a.nonce < b.nonce ==> Passed(v, target, a.nonce);
    assert b.nonce < a.nonce ==> Passed(v, target, b.nonce);
  }

  // -------------------------------------------------------------- quorum selection

  /** The smallest non-empty prefix that reaches the target, or everything. */
  ghost predicate Selected(us: seq<Utxo>, target: Option<nat>, out: seq<Utxo>) {
    && out <= us
    && match target
       case None => out == us
       case Some(t) =>
         && (out != us ==> out != [] && Value(out) >= t)
         && forall k :: 0 < k < |out| ==> Value(us[..k]) < t
  }

  method SelectUtxos(us: seq<Utxo>, target: Option<nat>) returns (out: seq<Utxo>)
    ensures Selected(us, target, out)
    ensures target.Some? && Value(us) >= target.value && us != [] ==> Value(out) >= target.value
  {
    out := [];
    var total: nat := 0;
    for i := 0 to |us|
      invariant out == us[..i] && total == Value(out)
      invariant target.Some? ==> forall k :: 0 < k <= i ==> Value(us[..k]) < target.value
    {
      assert us[..i + 1][..i] == us[..i];
      out := out + [us[i]];
      total := total + us[i].amount;
      if target.Some? && total >= target.value { return; }
    }
    assert us[..|us|] == us;
  }
}
