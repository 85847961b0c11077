/** The Signer over a whole container: a wallet that keeps no map from UTXOs to keys
    tries every key it may own on every input it has not signed yet. */
module SigningWalk {
  import opened Bytes
  import opened Wire
  import opened KeyMaps
  import opened Psbts
  import opened Sighashes
  import opened Signing
  import opened Confluence
  import opened PsbtObjects

  const PSBT_SIGN_MAX_NONCE: nat := 1000
  const ADDRESS_FORMS: nat := 3

  /** `key` signs the input, or has signed it already. */
  predicate CanSign(c: Crypto, p: Psbt, index: nat, key: PubKey)
    requires Parallel(p) && index < |p.inputs|
  {
    match OwnEntry(c, p, index, key)
    case Ok(Some(e)) => Present(p.inputs[index], e) || e.sig.Some?
    case _ => false
  }

  /** The first of the keys that signs the input. */
  function FirstSigner(c: Crypto, p: Psbt, index: nat, keys: seq<PubKey>): Option<PubKey>
    requires Parallel(p) && index < |p.inputs|
  {
    if keys == [] then None
    else match FirstSigner(c, p, index, keys[..|keys| - 1])
      case Some(key) => Some(key)
      case None => if CanSign(c, p, index, keys[|keys| - 1]) then Some(keys[|keys| - 1]) else None
  }

  /** An input after its signer, if it has one. */
  function SignedInput(c: Crypto, p: Psbt, index: nat, signer: Option<PubKey>): Input
    requires Parallel(p) && index < |p.inputs|
  {
    match signer
    case None => p.inputs[index]
    case Some(key) => AfterEntry(p.inputs[index], OwnEntry(c, p, index, key))
  }

  function WalkedInput(c: Crypto, p: Psbt, index: nat, keys: seq<PubKey>): Input
    requires Parallel(p) && index < |p.inputs|
  {
    SignedInput(c, p, index, FirstSigner(c, p, index, keys))
  }

  function Walked(c: Crypto, p: Psbt, keys: seq<PubKey>): Psbt
    requires Parallel(p)
  {
    p.(inputs := seq(|p.inputs|, i requires 0 <= i < |p.inputs| => WalkedInput(c, p, i, keys)))
  }

  /** An error that ends the walk; an unsupported sighash is passed over. */
  predicate Refuses(c: Crypto, p: Psbt, index: nat, key: PubKey)
    requires Parallel(p)
  {
    match OwnEntry(c, p, index, key)
    case Ok(_) => false
    case Err(e) => !e.UnsupportedSighashType?
  }

  /** Where `key` runs into an error, among the inputs from `index` on that no key in
      `seen` signs; behind the last input if nowhere. */
  function AbortIndex(c: Crypto, p: Psbt, seen: seq<PubKey>, key: PubKey, index: nat): (k: nat)
    requires Parallel(p) && index <= |p.inputs|
    ensures index <= k <= |p.inputs|
    ensures k < |p.inputs| ==> FirstSigner(c, p, k, seen).None? && Refuses(c, p, k, key)
    decreases |p.inputs| - index
  {
    if index == |p.inputs| || (FirstSigner(c, p, index, seen).None? && Refuses(c, p, index, key)) then index
    else AbortIndex(c, p, seen, key, index + 1)
  }

  function KeyAborts(c: Crypto, p: Psbt, seen: seq<PubKey>, key: PubKey): Option<Error>
    requires Parallel(p)
  {
    var k := AbortIndex(c, p, seen, key, 0);
    if k < |p.inputs| then Some(OwnEntry(c, p, k, key).error) else None
  }

  function WalkAborts(c: Crypto, p: Psbt, keys: seq<PubKey>): Option<Error>
    requires Parallel(p)
  {
    if keys == [] then None
    else match WalkAborts(c, p, keys[..|keys| - 1])
      case Some(e) => Some(e)
      case None => KeyAborts(c, p, keys[..|keys| - 1], keys[|keys| - 1])
  }

  /** The signer of each input when the walk ends: at the first error, the inputs before
      it have met the failing key as well, the others only the keys before that one. */
  function ReachedSigners(c: Crypto, p: Psbt, keys: seq<PubKey>): (r: seq<Option<PubKey>>)
    requires Parallel(p)
    ensures |r| == |p.inputs|
  {
    if keys == [] then seq(|p.inputs|, _ => None)
    else
      var front, last := keys[..|keys| - 1], keys[|keys| - 1];
      if WalkAborts(c, p, front).Some? then ReachedSigners(c, p, front)
      else StageSigners(c, p, front, last, AbortIndex(c, p, front, last, 0))
  }

  function StageSigners(c: Crypto, p: Psbt, seen: seq<PubKey>, key: PubKey, n: nat): (r: seq<Option<PubKey>>)
    requires Parallel(p)
    ensures |r| == |p.inputs|
  {
    seq(|p.inputs|, i requires 0 <= i < |p.inputs| => FirstSigner(c, p, i, if i < n then seen + [key] else seen))
  }

  /** The inputs no key signs, in order. */
  function LeftUnsigned(c: Crypto, p: Psbt, keys: seq<PubKey>, n: nat): seq<nat>
    requires Parallel(p) && n <= |p.inputs|
  {
    if n == 0 then []
    else LeftUnsigned(c, p, keys, n - 1) + (if FirstSigner(c, p, n - 1, keys).None? then [n - 1] else [])
  }

  // ------------------------------------------------------------ what the walk finds

  lemma {:induction false} FirstSignerFinds(c: Crypto, p: Psbt, index: nat, keys: seq<PubKey>)
    requires Parallel(p) && index < |p.inputs|
    ensures FirstSigner(c, p, index, keys).Some? <==> exists key :: key in keys && CanSign(c, p, index, key)
    ensures FirstSigner(c, p, index, keys).Some? ==>
      FirstSigner(c, p, index, keys).value in keys && CanSign(c, p, index, FirstSigner(c, p, index, keys).value)
  {
    hide CanSign;
    if keys != [] {
      var front, last := keys[..|keys| - 1], keys[|keys| - 1];
      assert keys == front + [last];
      FirstSignerFinds(c, p, index, front);
    }
  }

  /** The walk reports exactly the inputs that none of its keys can sign. */
  lemma {:induction false} ReportsTheUnsigned(c: Crypto, p: Psbt, keys: seq<PubKey>, n: nat)
    requires Parallel(p) && n <= |p.inputs|
    ensures forall i: nat :: i in LeftUnsigned(c, p, keys, n) <==> i < n && forall key :: key in keys ==> !CanSign(c, p, i, key)
    ensures forall a, b :: 0 <= a < b < |LeftUnsigned(c, p, keys, n)| ==> LeftUnsigned(c, p, keys, n)[a] < LeftUnsigned(c, p, keys, n)[b]
  {
    hide CanSign, FirstSigner;
    if n > 0 {
      ReportsTheUnsigned(c, p, keys, n - 1);
      FirstSignerFinds(c, p, n - 1, keys);
      var l, r := LeftUnsigned(c, p, keys, n - 1), LeftUnsigned(c, p, keys, n);
      assert forall a :: 0 <= a < |l| ==> l[a] in l;
      assert forall i: nat :: i in r <==> i in l || (i == n - 1 && FirstSigner(c, p, n - 1, keys).None?);
    }
  }

  /** Every input that a key of the wallet can sign carries that wallet's signature
      afterwards; every other input is as it was. */
  lemma WalkSigns(c: Crypto, p: Psbt, keys: seq<PubKey>, index: nat)
    requires Parallel(p) && index < |p.inputs|
    ensures var after := Walked(c, p, keys).inputs[index];
      && ((forall key :: key in keys ==> !CanSign(c, p, index, key)) ==> after == p.inputs[index])
      && ((exists key :: key in keys && CanSign(c, p, index, key)) ==>
            exists key :: key in keys && CanSign(c, p, index, key) && Present(after, OwnEntry(c, p, index, key).value.value))
  {
    hide FirstSigner, OwnEntry;
    FirstSignerFinds(c, p, index, keys);
    if exists key :: key in keys && CanSign(c, p, index, key) {
      var key := FirstSigner(c, p, index, keys).value;
      var e := OwnEntry(c, p, index, key).value.value;
      if !Present(p.inputs[index], e) { AddedIsPresent(p.inputs[index], e, e.sig.value); }
    }
  }

  lemma AddedIsPresent(i: Input, e: Contribution, sig: bytes)
    ensures Present(AddSignature(i, e, sig), e)
  {
    var ps := if e.tap then i.tapScriptSigs else i.partialSigs;
    InsertMembers(Pair(e.key, sig), ps);
    assert Pair(e.key, sig) in Insert(Pair(e.key, sig), ps);
  }

  // -------------------------------------------------------- the walk among the runs

  /** The signing steps of the first `n` inputs. */
  function SignerSteps(signers: seq<Option<PubKey>>, n: nat): seq<Step>
    requires n <= |signers|
  {
    if n == 0 then []
    else
      SignerSteps(signers, n - 1)
      + match signers[n - 1]
        case None => []
        case Some(key) => [Sign(0, n - 1, key)]
  }

  /** The first `n` inputs signed, each by its signer. */
  function SignedFirst(c: Crypto, p: Psbt, signers: seq<Option<PubKey>>, n: nat): Psbt
    requires Parallel(p) && n <= |signers| == |p.inputs|
  {
    p.(inputs := seq(|p.inputs|, i requires 0 <= i < |p.inputs| =>
        if i < n then SignedInput(c, p, i, signers[i]) else p.inputs[i]))
  }

  /** The container when the walk ends, at an error or not. */
  function Reached(c: Crypto, p: Psbt, keys: seq<PubKey>): Psbt
    requires Parallel(p)
  {
    SignedFirst(c, p, ReachedSigners(c, p, keys), |p.inputs|)
  }

  lemma SignedFirstKeepsSkeleton(c: Crypto, p: Psbt, signers: seq<Option<PubKey>>, n: nat)
    requires Parallel(p) && n <= |signers| == |p.inputs|
    ensures SameSkeletonAs(SignedFirst(c, p, signers, n), p)
  {
    hide OwnEntry;
    forall i | 0 <= i < |p.inputs|
      ensures SameButSigs(SignedFirst(c, p, signers, n).inputs[i], p.inputs[i])
    {
      if signers[i].Some? {
        AfterEntrySameButSigs(p.inputs[i], p.inputs[i], OwnEntry(c, p, i, signers[i].value));
      }
    }
  }

  /** One more input is one signing step, or none. */
  lemma SignOneMore(c: Crypto, p: Psbt, signers: seq<Option<PubKey>>, n: nat)
    requires Parallel(p) && n < |signers| == |p.inputs|
    ensures var before, after := SignedFirst(c, p, signers, n), SignedFirst(c, p, signers, n + 1);
      match signers[n]
      case None => after == before
      case Some(key) => Parallel(before) && AfterSignInput(c, before, n, key) == after
  {
    hide OwnEntry, AfterEntry;
    var before, after := SignedFirst(c, p, signers, n), SignedFirst(c, p, signers, n + 1);
    SignedFirstKeepsSkeleton(c, p, signers, n);
    assert before.inputs[n] == p.inputs[n];
    if signers[n].Some? {
      var key := signers[n].value;
      EntryIgnoresSigs(c, before, p, n, key);
      SignInputEffect(c, before, n, key);
      assert after.inputs == before.inputs[n := SignedInput(c, p, n, signers[n])];
      hide AfterSignInput;
    } else {
      assert after.inputs == before.inputs;
    }
  }

  lemma RunSnoc(c: Crypto, copies: seq<Copy>, steps: seq<Step>, s: Step)
    requires Run(c, copies, steps).Ok?
    ensures Run(c, copies, steps + [s]) == Take1(c, Run(c, copies, steps).value, s)
  {
    hide Take1;
    assert (steps + [s])[..|steps + [s]| - 1] == steps;
  }

  function AppliedBy(signers: seq<Option<PubKey>>, n: nat): (r: seq<set<PubKey>>)
    ensures |r| == |signers|
  {
    seq(|signers|, i requires 0 <= i < |signers| => if i < n && signers[i].Some? then {signers[i].value} else {})
  }

  lemma TakeSign(c: Crypto, x: Copy, i: nat, key: PubKey)
    ensures Take1(c, [x], Sign(0, i, key)) == Ok([AfterSign(c, x, i, key)])
  {
    hide AfterSign;
    assert [x][0 := AfterSign(c, x, i, key)] == [AfterSign(c, x, i, key)];
  }

  lemma {:induction false} SignersAreRun(c: Crypto, p: Psbt, signers: seq<Option<PubKey>>, n: nat)
    requires Parallel(p) && n <= |signers| == |p.inputs|
    ensures Run(c, [Fresh(p)], SignerSteps(signers, n)) == Ok([Copy(SignedFirst(c, p, signers, n), AppliedBy(signers, n))])
  {
    hide AfterSignInput, SignedFirst, Run;
    if n == 0 {
      RunNothing(c, p);
      SignedNothing(c, p, signers);
      assert AppliedBy(signers, 0) == Fresh(p).applied;
    } else {
      SignersAreRun(c, p, signers, n - 1);
      SignOneMore(c, p, signers, n - 1);
      var steps, before := SignerSteps(signers, n - 1), AppliedBy(signers, n - 1);
      if signers[n - 1].Some? {
        RunSnoc(c, [Fresh(p)], steps, Sign(0, n - 1, signers[n - 1].value));
        assert before[n - 1] + {signers[n - 1].value} == {signers[n - 1].value};
        assert AppliedBy(signers, n) == before[n - 1 := {signers[n - 1].value}];
        TakeSign(c, Copy(SignedFirst(c, p, signers, n - 1), before), n - 1, signers[n - 1].value);
      } else {
        assert steps + [] == steps && AppliedBy(signers, n) == before;
      }
    }
  }

  lemma RunNothing(c: Crypto, p: Psbt)
    ensures Run(c, [Fresh(p)], []) == Ok([Fresh(p)])
  {}

  lemma SignedNothing(c: Crypto, p: Psbt, signers: seq<Option<PubKey>>)
    requires Parallel(p) && |signers| == |p.inputs|
    ensures SignedFirst(c, p, signers, 0) == p
  {
    assert SignedFirst(c, p, signers, 0).inputs == p.inputs;
  }

  /** The walk, whether it ends at an error or not, is one run of the signing protocol: it
      applies to each input the first key that could sign it by then. What holds of every
      run holds of it. */
  lemma WalkIsRun(c: Crypto, p: Psbt, keys: seq<PubKey>)
    requires Parallel(p)
    ensures var signers := ReachedSigners(c, p, keys);
      Run(c, [Fresh(p)], SignerSteps(signers, |signers|)) == Ok([Copy(Reached(c, p, keys), AppliedBy(signers, |signers|))])
    ensures WalkAborts(c, p, keys) == None ==> Reached(c, p, keys) == Walked(c, p, keys)
  {
    hide FirstSigner, Run, SignerSteps, KeyAborts, AppliedBy, ReachedSigners, SignedFirst, Walked;
    SignersAreRun(c, p, ReachedSigners(c, p, keys), |p.inputs|);
    if WalkAborts(c, p, keys) == None { ReachedAll(c, p, keys); }
  }

  /** Without an error the walk reaches its end. */
  lemma ReachedAll(c: Crypto, p: Psbt, keys: seq<PubKey>)
    requires Parallel(p) && WalkAborts(c, p, keys) == None
    ensures Reached(c, p, keys) == Walked(c, p, keys)
  {
    hide CanSign, OwnEntry, AfterEntry;
    if keys != [] {
      var front, last := keys[..|keys| - 1], keys[|keys| - 1];
      assert keys == front + [last] && KeyAborts(c, p, front, last) == None;
    }
    assert Reached(c, p, keys).inputs == Walked(c, p, keys).inputs;
  }

  // --------------------------------------------------------------------- the loops

  /** Inputs before `i` have met `key` as well, the others only the keys in `seen`. */
  ghost predicate MidWalk(c: Crypto, p: Psbt, q: Psbt, signed: seq<bool>, seen: seq<PubKey>, key: PubKey, i: nat)
    requires Parallel(p)
  {
    && q == p.(inputs := q.inputs) && |q.inputs| == |p.inputs| == |signed| && i <= |p.inputs|
    && forall j :: 0 <= j < |p.inputs| ==>
         var met := if j < i then seen + [key] else seen;
         q.inputs[j] == WalkedInput(c, p, j, met) && signed[j] == FirstSigner(c, p, j, met).Some?
  }

  lemma FirstSignerSnoc(c: Crypto, p: Psbt, index: nat, seen: seq<PubKey>, key: PubKey)
    requires Parallel(p) && index < |p.inputs|
    ensures FirstSigner(c, p, index, seen + [key]) ==
      if FirstSigner(c, p, index, seen).Some? then FirstSigner(c, p, index, seen)
      else if CanSign(c, p, index, key) then Some(key) else None
  {
    hide CanSign;
    assert (seen + [key])[..|seen|] == seen;
  }

  lemma MidWalkSkeleton(c: Crypto, p: Psbt, q: Psbt, signed: seq<bool>, seen: seq<PubKey>, key: PubKey, i: nat)
    requires Parallel(p) && MidWalk(c, p, q, signed, seen, key, i)
    ensures SameSkeletonAs(q, p)
  {
    hide FirstSigner, OwnEntry;
    forall j | 0 <= j < |p.inputs|
      ensures SameButSigs(q.inputs[j], p.inputs[j])
    {
      var met := if j < i then seen + [key] else seen;
      assert q.inputs[j] == WalkedInput(c, p, j, met);
      if FirstSigner(c, p, j, met).Some? {
        AfterEntrySameButSigs(p.inputs[j], p.inputs[j], OwnEntry(c, p, j, FirstSigner(c, p, j, met).value));
      }
    }
  }

  /** What signing the next input does to a container in the middle of the walk. */
  lemma MidWalkSign(c: Crypto, p: Psbt, q: Psbt, signed: seq<bool>, seen: seq<PubKey>, key: PubKey, i: nat)
    requires Parallel(p) && MidWalk(c, p, q, signed, seen, key, i) && i < |p.inputs| && !signed[i]
    ensures Parallel(q) && (SignInput(c, q, i, key).Err? <==> OwnEntry(c, p, i, key).Err?)
    ensures SignInput(c, q, i, key).Err? ==> OwnEntry(c, p, i, key).error == SignInput(c, q, i, key).error
    ensures SignInput(c, q, i, key).Err? ==> MidWalk(c, p, q, signed, seen, key, i + 1)
    ensures SignInput(c, q, i, key).Ok? ==>
      var s := SignInput(c, q, i, key).value;
      MidWalk(c, p, s.psbt, signed[i := s.done], seen, key, i + 1)
  {
    hide FirstSigner, OwnEntry, AddSignature;
    MidWalkSkeleton(c, p, q, signed, seen, key, i);
    EntryIgnoresSigs(c, q, p, i, key);
    FirstSignerSnoc(c, p, i, seen, key);
    assert q.inputs[i] == p.inputs[i];
    assert signed[i := false] == signed && q.inputs[i := q.inputs[i]] == q.inputs;
  }

  lemma MidWalkSkip(c: Crypto, p: Psbt, q: Psbt, signed: seq<bool>, seen: seq<PubKey>, key: PubKey, i: nat)
    requires Parallel(p) && MidWalk(c, p, q, signed, seen, key, i) && i < |p.inputs| && signed[i]
    ensures MidWalk(c, p, q, signed, seen, key, i + 1)
  {
    hide FirstSigner, OwnEntry;
    FirstSignerSnoc(c, p, i, seen, key);
    assert q.inputs[i] == WalkedInput(c, p, i, seen);
  }

  /** One key on every input that is not signed yet. */
  method WalkKey(c: Crypto, r: Container, key: PubKey, start: seq<bool>, ghost p: Psbt, ghost seen: seq<PubKey>)
      returns (signed: seq<bool>, failed: Option<Error>)
    requires Proper(r) && Parallel(p) && MidWalk(c, p, Contents(r), start, seen, key, 0)
    modifies r.inputs
    ensures failed == KeyAborts(c, p, seen, key)
    ensures failed == None ==> MidWalk(c, p, Contents(r), signed, seen, key, |p.inputs|)
    ensures failed.Some? ==>
      Contents(r) == SignedFirst(c, p, StageSigners(c, p, seen, key, AbortIndex(c, p, seen, key, 0)), |p.inputs|)
  {
    hide SignInput, OwnEntry, FirstSigner, MidWalk, SignedFirst, StageSigners;
    signed := start;
    MidWalkCounts(c, p, Contents(r), start, seen, key, 0);
    for i := 0 to |r.inputs|
      invariant MidWalk(c, p, Contents(r), signed, seen, key, i) && |signed| == |r.inputs| == |p.inputs|
      invariant AbortIndex(c, p, seen, key, 0) == AbortIndex(c, p, seen, key, i)
    {
      MidWalkCounts(c, p, Contents(r), signed, seen, key, i);
      if signed[i] {
        MidWalkSkip(c, p, Contents(r), signed, seen, key, i);
      } else {
        MidWalkSign(c, p, Contents(r), signed, seen, key, i);
        var ok := SignPsbtInput(c, r, i, key);
        if ok.Err? {
          if !ok.error.UnsupportedSighashType? {
            MidWalkStage(c, p, Contents(r), signed, seen, key, i);
            return signed, Some(ok.error);
          }
        } else {
          signed := signed[i := ok.value];
        }
      }
    }
    return signed, None;
  }

  lemma MidWalkStage(c: Crypto, p: Psbt, q: Psbt, signed: seq<bool>, seen: seq<PubKey>, key: PubKey, i: nat)
    requires Parallel(p) && MidWalk(c, p, q, signed, seen, key, i)
    ensures q == SignedFirst(c, p, StageSigners(c, p, seen, key, i), |p.inputs|)
  {
    hide FirstSigner, SignedInput;
    assert q.inputs == SignedFirst(c, p, StageSigners(c, p, seen, key, i), |p.inputs|).inputs;
  }

  lemma MidWalkCounts(c: Crypto, p: Psbt, q: Psbt, signed: seq<bool>, seen: seq<PubKey>, key: PubKey, i: nat)
    requires Parallel(p) && MidWalk(c, p, q, signed, seen, key, i)
    ensures |signed| == |p.inputs| == |q.inputs| && i <= |p.inputs|
    ensures forall j :: i <= j < |signed| ==> signed[j] == FirstSigner(c, p, j, seen).Some?
  {}

  /** Everything before the next key. */
  ghost predicate AfterKeys(c: Crypto, p: Psbt, q: Psbt, signed: seq<bool>, seen: seq<PubKey>)
    requires Parallel(p)
  {
    && q == Walked(c, p, seen) && |signed| == |p.inputs|
    && forall j :: 0 <= j < |p.inputs| ==> signed[j] == FirstSigner(c, p, j, seen).Some?
  }

  lemma NextKey(c: Crypto, p: Psbt, q: Psbt, signed: seq<bool>, seen: seq<PubKey>, key: PubKey)
    requires Parallel(p)
    ensures AfterKeys(c, p, q, signed, seen) ==> MidWalk(c, p, q, signed, seen, key, 0)
    ensures MidWalk(c, p, q, signed, seen, key, |p.inputs|) ==> AfterKeys(c, p, q, signed, seen + [key])
  {
    hide WalkedInput, FirstSigner;
    if MidWalk(c, p, q, signed, seen, key, |p.inputs|) {
      assert q.inputs == Walked(c, p, seen + [key]).inputs;
    }
  }

  lemma NoKeys(c: Crypto, p: Psbt)
    requires Parallel(p)
    ensures AfterKeys(c, p, p, seq(|p.inputs|, _ => false), [])
  {
    assert Walked(c, p, []).inputs == p.inputs;
  }

  /** The keys of the walk before `form` of `nonce`: every form of each earlier nonce. */
  function WalkKeys(keyAt: (nat, nat) -> PubKey, nonce: nat, form: nat): seq<PubKey>
    decreases nonce, form
  {
    if form > 0 then WalkKeys(keyAt, nonce, form - 1) + [keyAt(nonce, form - 1)]
    else if nonce > 0 then WalkKeys(keyAt, nonce - 1, ADDRESS_FORMS)
    else []
  }

  lemma {:induction false} FormsPrefix(keyAt: (nat, nat) -> PubKey, nonce: nat, a: nat, b: nat)
    requires a <= b
    ensures WalkKeys(keyAt, nonce, a) <= WalkKeys(keyAt, nonce, b)
    decreases b
  {
    if a < b { FormsPrefix(keyAt, nonce, a, b - 1); }
  }

  lemma {:induction false} WalkKeysPrefix(keyAt: (nat, nat) -> PubKey, nonce: nat, form: nat, max: nat)
    requires nonce < max && form <= ADDRESS_FORMS
    ensures WalkKeys(keyAt, nonce, form) <= WalkKeys(keyAt, max, 0)
    decreases max
  {
    if nonce == max - 1 {
      FormsPrefix(keyAt, nonce, form, ADDRESS_FORMS);
    } else {
      WalkKeysPrefix(keyAt, nonce, form, max - 1);
      FormsPrefix(keyAt, max - 1, 0, ADDRESS_FORMS);
    }
  }

  /** The first error ends the walk. */
  lemma {:induction false} AbortStays(c: Crypto, p: Psbt, keys: seq<PubKey>, all: seq<PubKey>)
    requires Parallel(p) && keys <= all && WalkAborts(c, p, keys).Some?
    ensures WalkAborts(c, p, all) == WalkAborts(c, p, keys) && Reached(c, p, all) == Reached(c, p, keys)
    decreases |all|
  {
    hide KeyAborts, SignedFirst, StageSigners;
    if |keys| == |all| {
      assert keys == all;
    } else {
      AbortStays(c, p, keys, all[..|all| - 1]);
    }
  }

  lemma {:induction false} NothingLeft(c: Crypto, p: Psbt, seen: seq<PubKey>, key: PubKey, index: nat)
    requires Parallel(p) && index <= |p.inputs|
    requires forall i :: 0 <= i < |p.inputs| ==> FirstSigner(c, p, i, seen).Some?
    ensures AbortIndex(c, p, seen, key, index) == |p.inputs|
    decreases |p.inputs| - index
  {
    hide FirstSigner, OwnEntry;
    if index < |p.inputs| { NothingLeft(c, p, seen, key, index + 1); }
  }

  /** Once every input is signed, the remaining keys change nothing. */
  lemma {:induction false} AllSignedStays(c: Crypto, p: Psbt, keys: seq<PubKey>, all: seq<PubKey>)
    requires Parallel(p) && keys <= all
    requires forall i :: 0 <= i < |p.inputs| ==> FirstSigner(c, p, i, keys).Some?
    ensures forall i :: 0 <= i < |p.inputs| ==> FirstSigner(c, p, i, all) == FirstSigner(c, p, i, keys)
    ensures WalkAborts(c, p, all) == WalkAborts(c, p, keys)
    decreases |all|
  {
    hide CanSign, AbortIndex;
    if |keys| == |all| {
      assert keys == all;
    } else {
      AllSignedStays(c, p, keys, all[..|all| - 1]);
      NothingLeft(c, p, all[..|all| - 1], all[|all| - 1], 0);
    }
  }

  lemma AllSignedEnds(c: Crypto, p: Psbt, q: Psbt, signed: seq<bool>, keys: seq<PubKey>, all: seq<PubKey>)
    requires Parallel(p) && keys <= all && AfterKeys(c, p, q, signed, keys)
    requires forall i :: 0 <= i < |signed| ==> signed[i]
    ensures AfterKeys(c, p, q, signed, all) && WalkAborts(c, p, all) == WalkAborts(c, p, keys)
  {
    hide FirstSigner, OwnEntry;
    AllSignedStays(c, p, keys, all);
    assert Walked(c, p, keys).inputs == Walked(c, p, all).inputs;
  }

  method AllSigned(signed: seq<bool>) returns (all: bool)
    ensures all <==> forall i :: 0 <= i < |signed| ==> signed[i]
  {
    for i := 0 to |signed|
      invariant forall j :: 0 <= j < i ==> signed[j]
    {
      if !signed[i] { return false; }
    }
    return true;
  }

  method Remaining(c: Crypto, ghost p: Psbt, ghost keys: seq<PubKey>, signed: seq<bool>) returns (r: seq<nat>)
    requires Parallel(p) && |signed| == |p.inputs|
    requires forall j :: 0 <= j < |p.inputs| ==> signed[j] == FirstSigner(c, p, j, keys).Some?
    ensures r == LeftUnsigned(c, p, keys, |p.inputs|)
  {
    hide FirstSigner;
    r := [];
    for i := 0 to |signed|
      invariant r == LeftUnsigned(c, p, keys, i)
    {
      if !signed[i] { r := r + [i]; }
    }
  }

  /** The forms of one nonce in turn. */
  method WalkNonce(c: Crypto, r: Container, keyAt: (nat, nat) -> PubKey, nonce: nat, start: seq<bool>, ghost p: Psbt)
      returns (signed: seq<bool>, failed: Option<Error>)
    requires Proper(r) && Parallel(p) && nonce < PSBT_SIGN_MAX_NONCE
    requires AfterKeys(c, p, Contents(r), start, WalkKeys(keyAt, nonce, 0))
    requires WalkAborts(c, p, WalkKeys(keyAt, nonce, 0)) == None
    modifies r.inputs
    ensures failed == None ==>
      AfterKeys(c, p, Contents(r), signed, WalkKeys(keyAt, nonce + 1, 0)) && WalkAborts(c, p, WalkKeys(keyAt, nonce + 1, 0)) == None
    ensures failed.Some? ==>
      var all := WalkKeys(keyAt, PSBT_SIGN_MAX_NONCE, 0);
      failed == WalkAborts(c, p, all) && Contents(r) == Reached(c, p, all)
  {
    hide KeyAborts, AfterKeys, FirstSigner, MidWalk, SignedFirst, StageSigners;
    signed := start;
    for form := 0 to ADDRESS_FORMS
      invariant AfterKeys(c, p, Contents(r), signed, WalkKeys(keyAt, nonce, form))
      invariant WalkAborts(c, p, WalkKeys(keyAt, nonce, form)) == None
    {
      var key := keyAt(nonce, form);
      ghost var seen := WalkKeys(keyAt, nonce, form);
      NextKey(c, p, Contents(r), signed, seen, key);
      signed, failed := WalkKey(c, r, key, signed, p, seen);
      assert WalkKeys(keyAt, nonce, form + 1) == seen + [key] && (seen + [key])[..|seen|] == seen;
      if failed.Some? {
        WalkKeysPrefix(keyAt, nonce, form + 1, PSBT_SIGN_MAX_NONCE);
        AbortStays(c, p, seen + [key], WalkKeys(keyAt, PSBT_SIGN_MAX_NONCE, 0));
        return;
      }
      NextKey(c, p, Contents(r), signed, seen, key);
    }
    return signed, None;
  }

  /** The walk: the forms of each nonce in turn, until all inputs are signed. It returns
      the inputs left unsigned, or stops at the first error with what was signed by then. */
  method SignPsbt(c: Crypto, r: Container, keyAt: (nat, nat) -> PubKey) returns (res: Result<seq<nat>, Error>)
    requires Proper(r)
    modifies r.inputs
    ensures var p := old(Contents(r)); var keys := WalkKeys(keyAt, PSBT_SIGN_MAX_NONCE, 0);
      match WalkAborts(c, p, keys)
      case Some(e) => res == Err(e) && Contents(r) == Reached(c, p, keys)
      case None => res == Ok(LeftUnsigned(c, p, keys, |p.inputs|)) && Contents(r) == Walked(c, p, keys)
  {
    hide KeyAborts, Walked, FirstSigner, MidWalk, Reached;
    ghost var p := Contents(r);
    ghost var all := WalkKeys(keyAt, PSBT_SIGN_MAX_NONCE, 0);
    var signed := seq(|r.inputs|, _ => false);
    NoKeys(c, p);
    var nonce := 0;
    while nonce < PSBT_SIGN_MAX_NONCE
      invariant nonce <= PSBT_SIGN_MAX_NONCE
      invariant AfterKeys(c, p, Contents(r), signed, WalkKeys(keyAt, nonce, 0))
      invariant WalkAborts(c, p, WalkKeys(keyAt, nonce, 0)) == None
    {
      var done := AllSigned(signed);
      if done {
        WalkKeysPrefix(keyAt, nonce, 0, PSBT_SIGN_MAX_NONCE);
        AllSignedEnds(c, p, Contents(r), signed, WalkKeys(keyAt, nonce, 0), all);
        break;
      }
      var failed: Option<Error>;
      signed, failed := WalkNonce(c, r, keyAt, nonce, signed, p);
      if failed.Some? { return Err(failed.value); }
      nonce := nonce + 1;
    }
    var left := Remaining(c, p, all, signed);
    return Ok(left);
  }
}
