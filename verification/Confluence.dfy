/** The signing protocol: parties hold copies of one container and sign, combine,
    carry and copy them in any order. No run raises a conflict, and what a copy
    holds depends on the keys applied to it, not on the schedule. */
module Confluence {
  import opened Bytes
  import opened Wire
  import opened KeyMaps
  import opened Transactions
  import opened Psbts
  import opened PsbtCodec
  import opened PsbtRoundTrip
  import opened PsbtCombine
  import opened Base64
  import opened Scripts
  import opened Multisig
  import opened Sighashes
  import opened Signing

  // ------------------------------------------------------------------- the runs

  /** A copy, and for each input the keys it was signed with so far, directly or
      through a copy combined into it. */
  datatype Copy = Copy(psbt: Psbt, applied: seq<set<PubKey>>)

  datatype Step =
    | Sign(at: nat, index: nat, key: PubKey)
    | Merge2(into: nat, from: nat)
    | Carry(at: nat)
    | Fork(from: nat)

  /** A refusal leaves the container as it was. */
  function AfterSignInput(c: Crypto, p: Psbt, index: nat, key: PubKey): Psbt
    requires Parallel(p)
  {
    match SignInput(c, p, index, key)
    case Ok(s) => s.psbt
    case Err(_) => p
  }

  function AfterSign(c: Crypto, x: Copy, index: nat, key: PubKey): Copy {
    if !Parallel(x.psbt) || index >= |x.applied| then x
    else
      Copy(AfterSignInput(c, x.psbt, index, key), x.applied[index := x.applied[index] + {key}])
  }

  function UnionSets(a: seq<set<PubKey>>, b: seq<set<PubKey>>): (r: seq<set<PubKey>>)
    ensures |r| == |a| && forall i :: 0 <= i < |a| && i < |b| ==> r[i] == a[i] + b[i]
  {
    seq(|a|, i requires 0 <= i < |a| => if i < |b| then a[i] + b[i] else a[i])
  }

  function AfterCombine(x: Copy, y: Copy): Result<Copy, Error> {
    var psbt :- Combine(x.psbt, y.psbt);
    Ok(Copy(psbt, UnionSets(x.applied, y.applied)))
  }

  /** Serialized, sent as base64 and parsed; a copy too large to be sent stays. */
  function AfterCarry(x: Copy): Copy {
    match FromBase64(ToBase64(x.psbt))
    case Ok(p) => x.(psbt := p)
    case Err(_) => x
  }

  function Take1(c: Crypto, copies: seq<Copy>, s: Step): Result<seq<Copy>, Error> {
    match s
    case Sign(at, index, key) =>
      if at >= |copies| then Ok(copies) else Ok(copies[at := AfterSign(c, copies[at], index, key)])
    case Merge2(into, from) =>
      if into >= |copies| || from >= |copies| then Ok(copies)
      else
        var x :- AfterCombine(copies[into], copies[from]);
        Ok(copies[into := x])
    case Carry(at) =>
      if at >= |copies| then Ok(copies) else Ok(copies[at := AfterCarry(copies[at])])
    case Fork(from) =>
      if from >= |copies| then Ok(copies) else Ok(copies + [copies[from]])
  }

  function Run(c: Crypto, copies: seq<Copy>, steps: seq<Step>): Result<seq<Copy>, Error> {
    if steps == [] then Ok(copies)
    else
      var before :- Run(c, copies, steps[..|steps| - 1]);
      Take1(c, before, steps[|steps| - 1])
  }

  function Fresh(base: Psbt): Copy { Copy(base, seq(|base.inputs|, _ => {})) }

  // ------------------------------------------------------------------ invariant

  /** A container the codec carries, with every list in key order. */
  ghost predicate Base(base: Psbt) { Carried(base) && CanonicalPsbt(base) == base }

  predicate SameButSigs(a: Input, b: Input) {
    a.(partialSigs := b.partialSigs, tapScriptSigs := b.tapScriptSigs) == b
  }

  predicate SameSkeletonAs(p: Psbt, base: Psbt) {
    && p == base.(inputs := p.inputs) && |p.inputs| == |base.inputs|
    && forall i :: 0 <= i < |p.inputs| ==> SameButSigs(p.inputs[i], base.inputs[i])
  }

  function SigList(i: Input, tap: bool): seq<Pair> { if tap then i.tapScriptSigs else i.partialSigs }

  /** `key` adds this entry to input `index` of the base. */
  predicate Adds(c: Crypto, base: Psbt, index: nat, tap: bool, key: PubKey, entry: Pair)
    requires Parallel(base) && index < |base.inputs|
  {
    OwnEntry(c, base, index, key) == Ok(Some(Contribution(tap, entry.key, Some(entry.value))))
    && !HasKey(SigList(base.inputs[index], tap), entry.key)
  }

  ghost predicate Expected(c: Crypto, base: Psbt, index: nat, tap: bool, keys: set<PubKey>, entry: Pair)
    requires Parallel(base) && index < |base.inputs|
  {
    entry in SigList(base.inputs[index], tap)
    || exists key :: key in keys && Adds(c, base, index, tap, key, entry)
  }

  /** Unique keys in order, and exactly the entries of the applied keys. */
  ghost predicate ListHolds(c: Crypto, base: Psbt, index: nat, tap: bool, keys: set<PubKey>, ps: seq<Pair>)
    requires Parallel(base) && index < |base.inputs|
  {
    Sorted(ps) && Distinct(ps) && forall e :: e in ps <==> Expected(c, base, index, tap, keys, e)
  }

  ghost predicate Holds(c: Crypto, base: Psbt, x: Copy)
    requires Parallel(base)
  {
    && SameSkeletonAs(x.psbt, base) && |x.applied| == |base.inputs|
    && forall i, tap :: 0 <= i < |base.inputs| ==>
         ListHolds(c, base, i, tap, x.applied[i], SigList(x.psbt.inputs[i], tap))
  }

  lemma BaseIsParallel(base: Psbt)
    requires Base(base)
    ensures Parallel(base)
  {}

  /** A copy is determined by the keys applied to it. */
  lemma HoldsDetermines(c: Crypto, base: Psbt, x: Copy, y: Copy)
    requires Parallel(base) && Holds(c, base, x) && Holds(c, base, y) && x.applied == y.applied
    ensures x.psbt == y.psbt
  {
    forall i | 0 <= i < |base.inputs|
      ensures x.psbt.inputs[i] == y.psbt.inputs[i]
    {
      forall tap: bool
        ensures SigList(x.psbt.inputs[i], tap) == SigList(y.psbt.inputs[i], tap)
      {
        assert ListHolds(c, base, i, tap, x.applied[i], SigList(x.psbt.inputs[i], tap));
        assert ListHolds(c, base, i, tap, y.applied[i], SigList(y.psbt.inputs[i], tap));
        SortedUnique(SigList(x.psbt.inputs[i], tap), SigList(y.psbt.inputs[i], tap));
      }
      assert SigList(x.psbt.inputs[i], true) == SigList(y.psbt.inputs[i], true);
      assert SigList(x.psbt.inputs[i], false) == SigList(y.psbt.inputs[i], false);
      assert SameButSigs(x.psbt.inputs[i], base.inputs[i]) && SameButSigs(y.psbt.inputs[i], base.inputs[i]);
    }
    assert x.psbt.inputs == y.psbt.inputs;
  }

  // ------------------------------------------------ entries do not read signatures

  lemma SameUtxos(p: Psbt, base: Psbt)
    requires Parallel(base) && SameSkeletonAs(p, base)
    ensures Parallel(p) && SpendContext(p) == SpendContext(base)
    ensures forall i: nat :: UtxoData(p, i) == UtxoData(base, i)
  {
    forall i: nat
      ensures UtxoData(p, i) == UtxoData(base, i)
    {
      if i < |p.inputs| { assert SameButSigs(p.inputs[i], base.inputs[i]); }
    }
    assert AllUtxosKnown(p) == AllUtxosKnown(base);
    if AllUtxosKnown(p) { assert SpendContext(p).value == SpendContext(base).value; }
  }

  /** What a Signer reads of an input and of the container around it. */
  ghost predicate SameReading(p: Psbt, base: Psbt, index: nat) {
    && Parallel(p) && Parallel(base) && p.unsignedTx == base.unsignedTx && index < |p.inputs| == |base.inputs|
    && SameButSigs(p.inputs[index], base.inputs[index]) && SpendContext(p) == SpendContext(base)
  }

  lemma TapEntryIgnoresSigs(c: Crypto, p: Psbt, base: Psbt, index: nat, key: PubKey, utxo: TxOut)
    requires SameReading(p, base, index) && IsP2tr(utxo.script) && p.inputs[index].tapLeafScripts != []
    ensures TapEntry(c, p, index, key, utxo) == TapEntry(c, base, index, key, utxo)
  {
    hide SpendContext, UtxoData, ScriptpathDigest, ExtractTapscript;
    assert ReadLeaf(c, p.inputs[index], utxo) == ReadLeaf(c, base.inputs[index], utxo);
    hide ReadLeaf;
  }

  lemma QuorumEntryIgnoresSigs(c: Crypto, p: Psbt, base: Psbt, index: nat, key: PubKey, utxo: TxOut)
    requires SameReading(p, base, index)
    ensures IsP2sh(utxo.script) ==> P2shEntry(c, p, index, key, utxo) == P2shEntry(c, base, index, key, utxo)
    ensures IsP2wsh(utxo.script) ==> P2wshEntry(c, p, index, key, utxo) == P2wshEntry(c, base, index, key, utxo)
  {
    hide SpendContext, UtxoData, LegacyDigest, Bip143Digest, ExtractQuorum;
  }

  lemma KeyEntryIgnoresSigs(c: Crypto, p: Psbt, base: Psbt, index: nat, key: PubKey, utxo: TxOut)
    requires SameReading(p, base, index)
    ensures KeyEntry(c, p, index, key, utxo) == KeyEntry(c, base, index, key, utxo)
  {
    hide SpendContext, UtxoData, LegacyDigest, Bip143Digest, KeypathDigest;
  }

  lemma EntryIgnoresSigs(c: Crypto, p: Psbt, base: Psbt, index: nat, key: PubKey)
    requires Parallel(base) && SameSkeletonAs(p, base)
    ensures Parallel(p) && OwnEntry(c, p, index, key) == OwnEntry(c, base, index, key)
  {
    hide SpendContext, UtxoData, P2shEntry, P2wshEntry, TapEntry, KeyEntry;
    SameUtxos(p, base);
    if UtxoData(p, index).Some? && index < |p.inputs| {
      var utxo := UtxoData(p, index).value;
      assert SameButSigs(p.inputs[index], base.inputs[index]);
      QuorumEntryIgnoresSigs(c, p, base, index, key, utxo);
      KeyEntryIgnoresSigs(c, p, base, index, key, utxo);
      if IsP2tr(utxo.script) && p.inputs[index].tapLeafScripts != [] {
        TapEntryIgnoresSigs(c, p, base, index, key, utxo);
      }
    } else if UtxoData(p, index).Some? {
      KnownUtxoInRange(p, index);
    }
  }

  lemma KnownUtxoInRange(p: Psbt, index: nat)
    requires Parallel(p) && UtxoData(p, index).Some?
    ensures index < |p.inputs|
  {}

  // ----------------------------------------------------- entries are functional

  /** A partial signature is keyed by its signer, a tapscript signature by the
      signer's x-only key and the leaf; only the latter kind comes from a leaf. */
  lemma EntryShape(c: Crypto, p: Psbt, index: nat, key: PubKey)
    requires Parallel(p) && OwnEntry(c, p, index, key).Ok? && OwnEntry(c, p, index, key).value.Some?
    ensures index < |p.inputs| && UtxoData(p, index).Some?
    ensures var e := OwnEntry(c, p, index, key).value.value;
      && (!e.tap ==> e.key == key)
      && (e.tap ==> |e.key| == 64 && e.key[..32] == XOnly(key))
  {
    hide SpendContext, LegacyDigest, Bip143Digest, KeypathDigest, ScriptpathDigest, ExtractQuorum, ReadLeaf;
  }

  lemma SameTapEntry(c: Crypto, p: Psbt, index: nat, a: PubKey, b: PubKey)
    requires Parallel(p) && OwnEntry(c, p, index, a).Ok? && OwnEntry(c, p, index, a).value.Some?
    requires OwnEntry(c, p, index, a).value.value.tap && XOnly(a) == XOnly(b)
    ensures OwnEntry(c, p, index, a) == OwnEntry(c, p, index, b)
  {
    hide SpendContext, UtxoData, LegacyDigest, Bip143Digest, KeypathDigest, ScriptpathDigest, ExtractQuorum, ReadLeaf;
  }

  lemma AddsFunctional(c: Crypto, base: Psbt, index: nat, tap: bool, a: PubKey, b: PubKey, x: Pair, y: Pair)
    requires Parallel(base) && index < |base.inputs|
    requires Adds(c, base, index, tap, a, x) && Adds(c, base, index, tap, b, y) && x.key == y.key
    ensures x == y
  {
    hide OwnEntry;
    EntryShape(c, base, index, a);
    EntryShape(c, base, index, b);
    if tap { SameTapEntry(c, base, index, a, b); }
  }

  /** No two entries a copy may hold disagree on a key. */
  lemma ExpectedFunctional(c: Crypto, base: Psbt, index: nat, tap: bool,
      a: set<PubKey>, b: set<PubKey>, x: Pair, y: Pair)
    requires Parallel(base) && index < |base.inputs| && Distinct(SigList(base.inputs[index], tap))
    requires Expected(c, base, index, tap, a, x) && Expected(c, base, index, tap, b, y) && x.key == y.key
    ensures x == y
  {
    hide OwnEntry;
    var ps := SigList(base.inputs[index], tap);
    if x in ps && y in ps {
      ToMapMember(ps);
    } else if x !in ps && y !in ps {
      var ka :| ka in a && Adds(c, base, index, tap, ka, x);
      var kb :| kb in b && Adds(c, base, index, tap, kb, y);
      AddsFunctional(c, base, index, tap, ka, kb, x, y);
    }
  }

  // -------------------------------------------------------------------- signing

  lemma ListMayGrow(c: Crypto, base: Psbt, index: nat, tap: bool, keys: set<PubKey>, key: PubKey, ps: seq<Pair>)
    requires Parallel(base) && index < |base.inputs| && ListHolds(c, base, index, tap, keys, ps)
    requires forall e :: Adds(c, base, index, tap, key, e) ==> e in ps
    ensures ListHolds(c, base, index, tap, keys + {key}, ps)
  {
    hide OwnEntry, Adds;
    forall e
      ensures e in ps <==> Expected(c, base, index, tap, keys + {key}, e)
    {
      if e in ps && e !in SigList(base.inputs[index], tap) {
        var k :| k in keys && Adds(c, base, index, tap, k, e);
        assert k in keys + {key};
      }
    }
  }

  lemma AddsOnce(c: Crypto, base: Psbt, index: nat, tap: bool, key: PubKey, x: Pair, y: Pair)
    requires Parallel(base) && index < |base.inputs|
    requires Adds(c, base, index, tap, key, x) && Adds(c, base, index, tap, key, y)
    ensures x == y
  {
    hide OwnEntry;
  }

  lemma ListGrows(c: Crypto, base: Psbt, index: nat, tap: bool, keys: set<PubKey>, key: PubKey, ps: seq<Pair>, e: Pair)
    requires Parallel(base) && index < |base.inputs| && ListHolds(c, base, index, tap, keys, ps)
    requires Adds(c, base, index, tap, key, e) && !HasKey(ps, e.key)
    ensures ListHolds(c, base, index, tap, keys + {key}, Insert(e, ps))
  {
    hide OwnEntry, Adds;
    InsertMembers(e, ps);
    InsertSorted(e, ps);
    InsertDistinct(e, ps) by {
      forall p | p in ps
        ensures p.key != e.key
      {
        var i :| 0 <= i < |ps| && ps[i] == p;
      }
    }
    var r := Insert(e, ps);
    forall p
      ensures p in r <==> Expected(c, base, index, tap, keys + {key}, p)
    {
      if Expected(c, base, index, tap, keys + {key}, p) && p !in SigList(base.inputs[index], tap) {
        var k :| k in keys + {key} && Adds(c, base, index, tap, k, p);
        if k == key { AddsOnce(c, base, index, tap, key, p, e); }
      } else if Expected(c, base, index, tap, keys + {key}, p) {
        assert Expected(c, base, index, tap, keys, p);
      }
      if p in r && p != e && p !in SigList(base.inputs[index], tap) {
        var k :| k in keys && Adds(c, base, index, tap, k, p);
        assert k in keys + {key};
      }
    }
  }

  lemma PresentIsAdded(c: Crypto, base: Psbt, index: nat, keys: set<PubKey>, key: PubKey, e: Contribution, ps: seq<Pair>)
    requires Parallel(base) && index < |base.inputs| && Distinct(SigList(base.inputs[index], e.tap))
    requires OwnEntry(c, base, index, key) == Ok(Some(e))
    requires ListHolds(c, base, index, e.tap, keys, ps) && HasKey(ps, e.key)
    ensures forall p :: Adds(c, base, index, e.tap, key, p) ==> p in ps
  {
    hide OwnEntry;
    var i :| 0 <= i < |ps| && ps[i].key == e.key;
    assert ps[i] in ps;
    forall p | Adds(c, base, index, e.tap, key, p)
      ensures p in ps
    {
      assert Expected(c, base, index, e.tap, {key}, p) by { assert key in {key}; }
      ExpectedFunctional(c, base, index, e.tap, {key}, keys, p, ps[i]);
    }
  }

  lemma AbsentInBase(c: Crypto, base: Psbt, index: nat, tap: bool, keys: set<PubKey>, ps: seq<Pair>, key: bytes)
    requires Parallel(base) && index < |base.inputs| && ListHolds(c, base, index, tap, keys, ps)
    requires !HasKey(ps, key)
    ensures !HasKey(SigList(base.inputs[index], tap), key)
  {
    hide Adds;
    var bs := SigList(base.inputs[index], tap);
    forall i | 0 <= i < |bs|
      ensures bs[i].key != key
    {
      assert bs[i] in bs && bs[i] in ps;
    }
  }

  /** What an attempt to sign leaves of the input. */
  function AfterEntry(i: Input, entry: Result<Option<Contribution>, Error>): Input {
    match entry
    case Ok(Some(e)) => if e.sig.None? || Present(i, e) then i else AddSignature(i, e, e.sig.value)
    case _ => i
  }

  lemma SignInputEffect(c: Crypto, p: Psbt, index: nat, key: PubKey)
    requires Parallel(p) && index < |p.inputs|
    ensures AfterSignInput(c, p, index, key)
         == p.(inputs := p.inputs[index := AfterEntry(p.inputs[index], OwnEntry(c, p, index, key))])
  {
    hide OwnEntry;
    assert p.inputs[index := p.inputs[index]] == p.inputs;
  }

  /** Each list of an input after an attempt to sign it. */
  lemma ListAfterSign(c: Crypto, base: Psbt, i: Input, index: nat, keys: set<PubKey>, key: PubKey, tap: bool)
    requires Parallel(base) && index < |base.inputs| && Distinct(SigList(base.inputs[index], tap))
    requires ListHolds(c, base, index, tap, keys, SigList(i, tap))
    ensures ListHolds(c, base, index, tap, keys + {key}, SigList(AfterEntry(i, OwnEntry(c, base, index, key)), tap))
  {
    hide OwnEntry, ListHolds, Insert;
    var entry, ps := OwnEntry(c, base, index, key), SigList(i, tap);
    if entry.Ok? && entry.value.Some? && entry.value.value.tap == tap && entry.value.value.sig.Some? {
      var e := entry.value.value;
      if HasKey(ps, e.key) {
        PresentIsAdded(c, base, index, keys, key, e, ps);
        ListMayGrow(c, base, index, tap, keys, key, ps);
      } else {
        AbsentInBase(c, base, index, tap, keys, ps, e.key);
        ListGrows(c, base, index, tap, keys, key, ps, Pair(e.key, e.sig.value));
      }
    } else {
      ListMayGrow(c, base, index, tap, keys, key, ps);
    }
  }

  lemma AfterEntrySameButSigs(i: Input, base: Input, entry: Result<Option<Contribution>, Error>)
    requires SameButSigs(i, base)
    ensures SameButSigs(AfterEntry(i, entry), base)
  {}

  lemma SignKeeps(c: Crypto, base: Psbt, x: Copy, index: nat, key: PubKey)
    requires Base(base) && Holds(c, base, x)
    ensures Holds(c, base, AfterSign(c, x, index, key))
  {
    hide ListHolds, SignInput, OwnEntry, AfterEntry, Base, SigList, SameButSigs;
    BaseIsParallel(base);
    BaseSigsDistinct(base);
    if index < |x.applied| {
      EntryIgnoresSigs(c, x.psbt, base, index, key);
      SignInputEffect(c, x.psbt, index, key);
      var entry, inputs := OwnEntry(c, base, index, key), AfterSignInput(c, x.psbt, index, key).inputs;
      AfterEntrySameButSigs(x.psbt.inputs[index], base.inputs[index], entry);
      forall tap: bool
        ensures ListHolds(c, base, index, tap, x.applied[index] + {key}, SigList(inputs[index], tap))
      {
        ListAfterSign(c, base, x.psbt.inputs[index], index, x.applied[index], key, tap);
      }
      hide AfterSignInput;
    }
  }

  lemma BaseSigsDistinct(base: Psbt)
    requires Base(base)
    ensures forall i, tap :: 0 <= i < |base.inputs| ==> Distinct(SigList(base.inputs[i], tap))
  {}

  // ------------------------------------------------------------------ combining

  lemma {:induction false} MergeContained(a: seq<Pair>, b: seq<Pair>)
    requires Distinct(a) && forall p :: p in b ==> p in a
    ensures Merge(a, b) == Some(a)
    decreases |b|
  {
    if b != [] {
      assert b[0] in b && b == [b[0]] + b[1..];
      var i :| 0 <= i < |a| && a[i] == b[0];
      assert Find(a, b[0].key) == Some(i);
      MergeContained(a, b[1..]);
    }
  }

  lemma MergeSelf(a: seq<Pair>)
    requires Distinct(a)
    ensures MergeUnknown(a, a) == Ok(a)
    ensures Sorted(a) ==> MergeKeyed(a, a) == Ok(a)
  {
    MergeContained(a, a);
    if Sorted(a) { SortOfSorted(a); }
  }

  /** The entries of two copies never disagree, and merge to those of both key sets. */
  lemma ListsMerge(c: Crypto, base: Psbt, index: nat, tap: bool, a: set<PubKey>, b: set<PubKey>, ps: seq<Pair>, qs: seq<Pair>)
    requires Parallel(base) && index < |base.inputs| && Distinct(SigList(base.inputs[index], tap))
    requires ListHolds(c, base, index, tap, a, ps) && ListHolds(c, base, index, tap, b, qs)
    ensures MergeKeyed(ps, qs).Ok? && ListHolds(c, base, index, tap, a + b, MergeKeyed(ps, qs).value)
  {
    hide Adds;
    ToMapMember(ps);
    ToMapMember(qs);
    forall k | k in ToMap(ps) && k in ToMap(qs)
      ensures ToMap(ps)[k] == ToMap(qs)[k]
    {
      ExpectedFunctional(c, base, index, tap, a, b, Pair(k, ToMap(ps)[k]), Pair(k, ToMap(qs)[k]));
    }
    MergeIsUnion(ps, qs);
    var m := Merge(ps, qs).value;
    ToMapMember(m);
    SortCorrect(m);
    forall e
      ensures e in m <==> Expected(c, base, index, tap, a + b, e)
    {
      MergedMember(ps, qs, e);
      ExpectedUnion(c, base, index, tap, a, b, e);
    }
  }

  lemma MergedMember(ps: seq<Pair>, qs: seq<Pair>, e: Pair)
    requires Distinct(ps) && Distinct(qs) && Merge(ps, qs).Some?
    ensures e in Merge(ps, qs).value <==> e in ps || e in qs
  {
    MergeIsUnion(ps, qs);
    ToMapMember(ps);
    ToMapMember(qs);
    ToMapMember(Merge(ps, qs).value);
  }

  lemma ExpectedUnion(c: Crypto, base: Psbt, index: nat, tap: bool, a: set<PubKey>, b: set<PubKey>, e: Pair)
    requires Parallel(base) && index < |base.inputs|
    ensures Expected(c, base, index, tap, a + b, e) <==>
              Expected(c, base, index, tap, a, e) || Expected(c, base, index, tap, b, e)
  {
    hide Adds;
    if e !in SigList(base.inputs[index], tap) {
      if key :| key in a + b && Adds(c, base, index, tap, key, e) { assert key in a || key in b; }
      if key :| key in a && Adds(c, base, index, tap, key, e) { assert key in a + b; }
      if key :| key in b && Adds(c, base, index, tap, key, e) { assert key in a + b; }
    }
  }

  ghost predicate InputCanonical(i: Input) { InputWellFormed(i) && Canonical(i) == i }

  lemma MergeInputsOfBase(i: Input, a: Input, b: Input)
    requires InputCanonical(i) && SameButSigs(a, i) && SameButSigs(b, i)
    requires MergeKeyed(a.partialSigs, b.partialSigs).Ok? && MergeKeyed(a.tapScriptSigs, b.tapScriptSigs).Ok?
    ensures MergeInput(a, b) == Ok(i.(partialSigs := MergeKeyed(a.partialSigs, b.partialSigs).value,
                                      tapScriptSigs := MergeKeyed(a.tapScriptSigs, b.tapScriptSigs).value))
  {
    SortCorrect(i.tapLeafScripts);
    MergeSelf(i.tapLeafScripts);
    MergeSelf(i.unknown);
    hide Merge, Sort, InputWellFormed;
  }

  lemma BaseInputs(base: Psbt)
    requires Base(base)
    ensures forall i :: 0 <= i < |base.inputs| ==> InputCanonical(base.inputs[i])
    ensures forall i :: 0 <= i < |base.outputs| ==> Distinct(base.outputs[i])
    ensures MergeUnknown(base.unknownGlobal, base.unknownGlobal) == Ok(base.unknownGlobal)
  {
    assert forall i :: 0 <= i < |base.inputs| ==> CanonicalPsbt(base).inputs[i] == Canonical(base.inputs[i]);
    MergeSelf(base.unknownGlobal);
  }

  lemma {:induction false} MergeAllSelf(o: seq<seq<Pair>>)
    requires forall i :: 0 <= i < |o| ==> Distinct(o[i])
    ensures MergeAll(MergeUnknown, o, o) == Ok(o)
  {
    if o != [] {
      MergeSelf(o[0]);
      MergeAllSelf(o[1..]);
      assert o == [o[0]] + o[1..];
    }
  }

  lemma InputsCombine(c: Crypto, base: Psbt, x: Copy, y: Copy, i: nat)
    requires Base(base) && Holds(c, base, x) && Holds(c, base, y) && i < |base.inputs|
    ensures MergeInput(x.psbt.inputs[i], y.psbt.inputs[i]).Ok?
    ensures var m := MergeInput(x.psbt.inputs[i], y.psbt.inputs[i]).value;
      && SameButSigs(m, base.inputs[i])
      && forall tap :: ListHolds(c, base, i, tap, x.applied[i] + y.applied[i], SigList(m, tap))
  {
    hide ListHolds, Adds, MergeKeyed, MergeInput;
    BaseSigsDistinct(base);
    BaseInputs(base);
    var a, b := x.psbt.inputs[i], y.psbt.inputs[i];
    forall tap: bool
      ensures MergeKeyed(SigList(a, tap), SigList(b, tap)).Ok?
      ensures ListHolds(c, base, i, tap, x.applied[i] + y.applied[i], MergeKeyed(SigList(a, tap), SigList(b, tap)).value)
    {
      ListsMerge(c, base, i, tap, x.applied[i], y.applied[i], SigList(a, tap), SigList(b, tap));
    }
    assert MergeKeyed(SigList(a, true), SigList(b, true)).Ok? && MergeKeyed(SigList(a, false), SigList(b, false)).Ok?;
    MergeInputsOfBase(base.inputs[i], a, b);
  }

  lemma CombineSameBase(base: Psbt, p: Psbt, q: Psbt, inputs: seq<Input>)
    requires Base(base)
    requires p == base.(inputs := p.inputs) && q == base.(inputs := q.inputs)
    requires MergeAll(MergeInput, p.inputs, q.inputs) == Ok(inputs)
    ensures Combine(p, q) == Ok(base.(inputs := inputs))
  {
    BaseInputs(base);
    MergeAllSelf(base.outputs);
    hide MergeInput, MergeUnknown, MergeAll, Stripped, WellFormed, AllFaithful;
  }

  /** Combining two copies never conflicts, and unites the applied keys. */
  lemma CombineKeeps(c: Crypto, base: Psbt, x: Copy, y: Copy)
    requires Base(base) && Holds(c, base, x) && Holds(c, base, y)
    ensures AfterCombine(x, y).Ok? && Holds(c, base, AfterCombine(x, y).value)
  {
    hide ListHolds, MergeInput, Base, SameButSigs, Combine, MergeAll, SigList;
    BaseIsParallel(base);
    forall i | 0 <= i < |base.inputs|
      ensures MergeInput(x.psbt.inputs[i], y.psbt.inputs[i]).Ok?
    {
      InputsCombine(c, base, x, y, i);
    }
    MergeAllEach(MergeInput, x.psbt.inputs, y.psbt.inputs);
    var inputs := MergeAll(MergeInput, x.psbt.inputs, y.psbt.inputs).value;
    CombineSameBase(base, x.psbt, y.psbt, inputs);
    forall i | 0 <= i < |base.inputs|
      ensures SameButSigs(inputs[i], base.inputs[i])
      ensures forall tap :: ListHolds(c, base, i, tap, x.applied[i] + y.applied[i], SigList(inputs[i], tap))
    {
      InputsCombine(c, base, x, y, i);
    }
  }

  // ------------------------------------------------------------------- carrying

  lemma AddedEntryWellFormed(c: Crypto, base: Psbt, index: nat, tap: bool, keys: set<PubKey>, e: Pair)
    requires Base(base) && Parallel(base) && index < |base.inputs| && Expected(c, base, index, tap, keys, e)
    ensures if tap then |e.key| == 64 else PubKeyLength(e.key)
  {
    hide OwnEntry;
    if e !in SigList(base.inputs[index], tap) {
      var key :| key in keys && Adds(c, base, index, tap, key, e);
      EntryShape(c, base, index, key);
    } else {
      assert InputWellFormed(base.inputs[index]);
    }
  }

  lemma CopyLists(c: Crypto, base: Psbt, x: Copy, i: nat, tap: bool)
    requires Base(base) && Holds(c, base, x) && i < |base.inputs|
    ensures var ps := SigList(x.psbt.inputs[i], tap);
      && Distinct(ps) && Sort(ps) == ps
      && forall e :: e in ps ==> if tap then |e.key| == 64 else PubKeyLength(e.key)
  {
    hide Adds, Expected, Base, SigList;
    BaseIsParallel(base);
    var ps := SigList(x.psbt.inputs[i], tap);
    assert ListHolds(c, base, i, tap, x.applied[i], ps);
    SortOfSorted(ps);
    forall e | e in ps
      ensures if tap then |e.key| == 64 else PubKeyLength(e.key)
    {
      AddedEntryWellFormed(c, base, i, tap, x.applied[i], e);
    }
  }

  lemma CopyInputWellFormed(c: Crypto, base: Psbt, x: Copy, i: nat)
    requires Base(base) && Holds(c, base, x) && i < |base.inputs|
    ensures InputWellFormed(x.psbt.inputs[i]) && Faithful(x.psbt.inputs[i])
    ensures Canonical(x.psbt.inputs[i]) == x.psbt.inputs[i]
  {
    BaseInputs(base);
    CopyLists(c, base, x, i, true);
    CopyLists(c, base, x, i, false);
    hide Sort, ListHolds, Sorted, Distinct;
    assert SameButSigs(x.psbt.inputs[i], base.inputs[i]) && InputCanonical(base.inputs[i]) && Faithful(base.inputs[i]);
  }

  /** Every copy is one the codec carries, in canonical order. */
  lemma HoldsCarried(c: Crypto, base: Psbt, x: Copy)
    requires Base(base) && Holds(c, base, x)
    ensures Carried(x.psbt) && CanonicalPsbt(x.psbt) == x.psbt
  {
    hide InputWellFormed, Faithful, Canonical, ListHolds, OutputWellFormed, GlobalUnknownOk, Unsigned, TxFits;
    forall i | 0 <= i < |base.inputs|
      ensures InputWellFormed(x.psbt.inputs[i]) && Faithful(x.psbt.inputs[i])
      ensures Canonical(x.psbt.inputs[i]) == x.psbt.inputs[i]
    {
      CopyInputWellFormed(c, base, x, i);
    }
    assert MapSeq(Canonical, x.psbt.inputs) == x.psbt.inputs;
    assert CanonicalPsbt(base).outputs == base.outputs && CanonicalPsbt(base).unknownGlobal == base.unknownGlobal;
  }

  lemma CarryKeeps(c: Crypto, base: Psbt, x: Copy)
    requires Base(base) && Holds(c, base, x)
    ensures AfterCarry(x) == x
  {
    hide Holds, CanonicalPsbt, Serialize, ParsePsbt, Encode, Decode;
    HoldsCarried(c, base, x);
    DecodeOfEncode(Serialize(x.psbt));
    ParseOfSerialize(x.psbt);
  }

  // ----------------------------------------------------------------- whole runs

  lemma CanonicalSigs(i: Input, tap: bool)
    requires InputCanonical(i)
    ensures Sorted(SigList(i, tap)) && Distinct(SigList(i, tap))
  {
    SortCorrect(SigList(i, tap));
    hide Sort, Sorted;
  }

  lemma FreshHolds(c: Crypto, base: Psbt)
    requires Base(base)
    ensures Holds(c, base, Fresh(base))
  {
    hide Adds, InputCanonical, SigList;
    BaseInputs(base);
    forall i, tap | 0 <= i < |base.inputs|
      ensures ListHolds(c, base, i, tap, {}, SigList(base.inputs[i], tap))
    {
      CanonicalSigs(base.inputs[i], tap);
      hide Base;
    }
    assert forall i :: 0 <= i < |base.inputs| ==> SameButSigs(base.inputs[i], base.inputs[i]);
    hide Base, ListHolds;
  }

  lemma StepKeeps(c: Crypto, base: Psbt, copies: seq<Copy>, s: Step)
    requires Base(base) && forall x :: x in copies ==> Holds(c, base, x)
    ensures Take1(c, copies, s).Ok? && forall x :: x in Take1(c, copies, s).value ==> Holds(c, base, x)
  {
    hide Base, Holds, AfterSign, AfterCombine, AfterCarry;
    match s
    case Sign(at, index, key) =>
      if at < |copies| { SignKeeps(c, base, copies[at], index, key); }
    case Merge2(into, from) =>
      if into < |copies| && from < |copies| { CombineKeeps(c, base, copies[into], copies[from]); }
    case Carry(at) =>
      if at < |copies| { CarryKeeps(c, base, copies[at]); }
    case Fork(_) =>
  }

  /** No run from copies of one container raises a conflict, and in every state each
      copy holds exactly the entries of the keys applied to it. */
  lemma {:induction false} RunKeeps(c: Crypto, base: Psbt, steps: seq<Step>)
    requires Base(base)
    ensures var r := Run(c, [Fresh(base)], steps);
      r.Ok? && forall x :: x in r.value ==> Holds(c, base, x)
  {
    hide Base, Holds, Take1;
    if steps == [] {
      FreshHolds(c, base);
    } else {
      RunKeeps(c, base, steps[..|steps| - 1]);
      StepKeeps(c, base, Run(c, [Fresh(base)], steps[..|steps| - 1]).value, steps[|steps| - 1]);
    }
  }

  /** Confluence: two copies, of the same run or of two different ones, that were
      signed with the same keys are the same container, byte for byte, whatever the
      order and the topology of the steps. */
  lemma Confluent(c: Crypto, base: Psbt, first: seq<Step>, second: seq<Step>, i: nat, j: nat)
    requires Base(base)
    ensures Run(c, [Fresh(base)], first).Ok? && Run(c, [Fresh(base)], second).Ok?
    ensures var xs, ys := Run(c, [Fresh(base)], first).value, Run(c, [Fresh(base)], second).value;
      i < |xs| && j < |ys| && xs[i].applied == ys[j].applied ==>
        xs[i].psbt == ys[j].psbt && Serialize(xs[i].psbt) == Serialize(ys[j].psbt)
  {
    hide Base, Holds, Run, Serialize;
    RunKeeps(c, base, first);
    RunKeeps(c, base, second);
    BaseIsParallel(base);
    var xs, ys := Run(c, [Fresh(base)], first).value, Run(c, [Fresh(base)], second).value;
    if i < |xs| && j < |ys| && xs[i].applied == ys[j].applied { HoldsDetermines(c, base, xs[i], ys[j]); }
  }
}
