/** The quorum scripts: the bare CHECKMULTISIG redeem script and the CHECKSIGADD
    tapscript, their strict extractors, and the assemblers of their spends. */
module Multisig {
  import opened Bytes
  import opened Wire
  import opened Scripts

  /** A signature threshold and the keys in script order. */
  datatype Quorum = Quorum(m: nat, keys: seq<bytes>)

  predicate InBounds(m: nat, n: nat) { 1 <= m <= n <= MS_MAX_PUBKEYS }

  function OpN(n: nat): byte
    requires n <= 16
  {
    0x50 + n
  }

  // ------------------------------------------------------------- redeem scripts

  predicate CompressedPrefix(key: bytes) { key != [] && (key[0] == 0x02 || key[0] == 0x03) }

  function KeyPush(key: bytes): bytes { [0x21] + key }

  function RedeemTail(n: nat): bytes
    requires n <= MS_MAX_PUBKEYS
  {
    [OpN(n), OP_CHECKMULTISIG]
  }

  function RedeemLayout(q: Quorum): bytes
    requires InBounds(q.m, |q.keys|)
  {
    [OpN(q.m)] + (Flat(KeyPush, q.keys) + RedeemTail(|q.keys|))
  }

  predicate HasLength(keys: seq<bytes>, length: nat) { forall k :: k in keys ==> |k| == length }

  function MakeRedeem(m: nat, keys: seq<bytes>): Option<bytes> {
    if keys == [] || m == 0 || m > |keys| || |keys| > MS_MAX_PUBKEYS then None
    else if !HasLength(keys, 33) then None
    else
      var sorted := SortKeys(keys);
      if HasEqualNeighbours(sorted) then None else Some(RedeemLayout(Quorum(m, sorted)))
  }

  /** The keys of a run of 33-byte pushes, if it is nothing but that. */
  function ReadKeyPushes(body: bytes): Option<seq<bytes>> {
    if body == [] then Some([])
    else if |body| < 34 || body[0] != 0x21 || !CompressedPrefix(body[1..34]) then None
    else match ReadKeyPushes(body[34..])
      case None => None
      case Some(keys) => Some([body[1..34]] + keys)
  }

  predicate HasRepeats(keys: seq<bytes>) {
    exists i, j :: 0 <= i < j < |keys| && keys[i] == keys[j]
  }

  function ExtractQuorum(script: bytes): Option<Quorum> {
    if |script| < 3 + 34 || script[|script| - 1] != OP_CHECKMULTISIG then None
    else
      var mOp: nat, nOp: nat := script[0], script[|script| - 2];
      if !(0x51 <= mOp <= 0x50 + MS_MAX_PUBKEYS) || !(0x51 <= nOp <= 0x50 + MS_MAX_PUBKEYS) then None
      else if mOp > nOp || |script| - 3 != (nOp - 0x50) * 34 then None
      else match ReadKeyPushes(script[1..|script| - 2])
        case None => None
        case Some(keys) => if HasRepeats(keys) then None else Some(Quorum(mOp - 0x50, keys))
  }

  predicate AllCompressed(keys: seq<bytes>) { forall k :: k in keys ==> |k| == 33 && CompressedPrefix(k) }

  lemma {:induction false} ReadKeyPushesOfFlat(keys: seq<bytes>)
    requires HasLength(keys, 33)
    ensures |Flat(KeyPush, keys)| == 34 * |keys|
    ensures ReadKeyPushes(Flat(KeyPush, keys)) == if AllCompressed(keys) then Some(keys) else None
  {
    if keys != [] {
      var body := Flat(KeyPush, keys);
      assert keys[0] in keys && forall k :: k in keys[1..] ==> k in keys;
      ReadKeyPushesOfFlat(keys[1..]);
      assert body[1..34] == keys[0] && body[34..] == Flat(KeyPush, keys[1..]);
      assert keys == [keys[0]] + keys[1..];
    }
  }

  lemma {:induction false} FlatOfReadKeyPushes(body: bytes)
    requires ReadKeyPushes(body).Some?
    ensures var keys := ReadKeyPushes(body).value;
      AllCompressed(keys) && body == Flat(KeyPush, keys) && |body| == 34 * |keys|
  {
    if body != [] {
      FlatOfReadKeyPushes(body[34..]);
      assert body == [0x21] + body[1..34] + body[34..];
    }
  }

  lemma SplitRedeem(q: Quorum)
    requires InBounds(q.m, |q.keys|) && HasLength(q.keys, 33)
    ensures |RedeemLayout(q)| == 34 * |q.keys| + 3
    ensures RedeemLayout(q)[1..|RedeemLayout(q)| - 2] == Flat(KeyPush, q.keys)
  {
    ReadKeyPushesOfFlat(q.keys);
  }

  lemma RepeatsAreDuplicates(keys: seq<bytes>)
    ensures HasRepeats(keys) <==> !DistinctKeys(keys)
  {}

  lemma SortedKeepsLength(keys: seq<bytes>, length: nat)
    requires HasLength(keys, length)
    ensures HasLength(SortKeys(keys), length)
  {
    SortKeysCorrect(keys);
  }

  ghost predicate ValidRedeemQuorum(q: Quorum) {
    InBounds(q.m, |q.keys|) && AllCompressed(q.keys) && DistinctKeys(q.keys)
  }

  lemma ExtractedRedeem(script: bytes)
    requires ExtractQuorum(script).Some?
    ensures ValidRedeemQuorum(ExtractQuorum(script).value)
    ensures script == RedeemLayout(ExtractQuorum(script).value)
  {
    hide ReadKeyPushes, HasRepeats, DistinctKeys, Flat, AllCompressed;
    var q, body := ExtractQuorum(script).value, script[1..|script| - 2];
    FlatOfReadKeyPushes(body);
    RepeatsAreDuplicates(q.keys);
    EndsOf(script);
  }

  lemma EndsOf(s: bytes)
    requires |s| >= 3
    ensures s == [s[0]] + (s[1..|s| - 2] + [s[|s| - 2], s[|s| - 1]])
  {}

  lemma ExtractOfRedeemLayout(q: Quorum)
    requires ValidRedeemQuorum(q)
    ensures ExtractQuorum(RedeemLayout(q)) == Some(q)
  {
    SplitRedeem(q);
    ReadKeyPushesOfFlat(q.keys);
    RepeatsAreDuplicates(q.keys);
  }

  /** The extractor accepts exactly the layouts of valid quorums, and reads the
      quorum back. */
  lemma ExtractQuorumExact(script: bytes, q: Quorum)
    ensures ExtractQuorum(script) == Some(q) <==> ValidRedeemQuorum(q) && script == RedeemLayout(q)
  {
    hide ExtractQuorum, RedeemLayout, DistinctKeys, AllCompressed;
    if ExtractQuorum(script) == Some(q) { ExtractedRedeem(script); }
    if ValidRedeemQuorum(q) { ExtractOfRedeemLayout(q); }
  }

  /** What is built is read back with its keys sorted, exactly when every key has
      a compressed-key prefix, which the builder itself does not check. */
  lemma ExtractOfMakeRedeem(m: nat, keys: seq<bytes>)
    requires MakeRedeem(m, keys).Some?
    ensures ExtractQuorum(MakeRedeem(m, keys).value) ==
      if AllCompressed(keys) then Some(Quorum(m, SortKeys(keys))) else None
    ensures |MakeRedeem(m, keys).value| == 34 * |keys| + 3 <= MAX_ELEMENT_SIZE
  {
    hide SortKeys, HasEqualNeighbours, DistinctKeys, SortedKeys, RedeemLayout, ExtractQuorum;
    var q := Quorum(m, SortKeys(keys));
    SortKeysCorrect(keys);
    NeighboursFindDuplicates(keys);
    SortKeysDistinct(keys);
    SplitRedeem(q);
    assert AllCompressed(keys) <==> AllCompressed(q.keys);
    if AllCompressed(keys) {
      ExtractOfRedeemLayout(q);
    } else {
      UncompressedRefused(q);
    }
  }

  lemma UncompressedRefused(q: Quorum)
    requires InBounds(q.m, |q.keys|) && HasLength(q.keys, 33) && !AllCompressed(q.keys)
    ensures ExtractQuorum(RedeemLayout(q)) == None
  {
    SplitRedeem(q);
    ReadKeyPushesOfFlat(q.keys);
    hide ReadKeyPushes, AllCompressed, HasRepeats;
  }

  lemma SortKeysDistinct(keys: seq<bytes>)
    ensures DistinctKeys(SortKeys(keys)) <==> DistinctKeys(keys)
  {
    SortKeysMultiset(keys);
    DistinctCounts(keys);
    DistinctCounts(SortKeys(keys));
  }

  /** The builder succeeds exactly within the bounds, on distinct 33-byte keys. */
  lemma MakeRedeemSucceeds(m: nat, keys: seq<bytes>)
    ensures MakeRedeem(m, keys).Some? <==> InBounds(m, |keys|) && HasLength(keys, 33) && DistinctKeys(keys)
  {
    NeighboursFindDuplicates(keys);
  }

  lemma SameElements(a: seq<bytes>, b: seq<bytes>)
    requires multiset(a) == multiset(b)
    ensures |a| == |b| && forall k :: k in a <==> k in b
  {
    assert |multiset(a)| == |a| && |multiset(b)| == |b|;
    forall k
      ensures k in a <==> k in b
    {
      assert k in a <==> k in multiset(a);
    }
  }

  /** The same key set gives the same script in every argument order. */
  lemma MakeRedeemPermutation(m: nat, a: seq<bytes>, b: seq<bytes>)
    requires multiset(a) == multiset(b)
    ensures MakeRedeem(m, a) == MakeRedeem(m, b)
  {
    SameElements(a, b);
    SortKeysPermutation(a, b);
  }

  // ---------------------------------------------------------------- tapscripts

  /** One key slot: the push and the opcode that consumes its signature. */
  function TapSlot(key: bytes, first: bool): bytes {
    [0x20] + key + [if first then OP_CHECKSIG else OP_CHECKSIGADD]
  }

  function TapSlots(keys: seq<bytes>, first: bool): bytes {
    if keys == [] then [] else TapSlot(keys[0], first) + TapSlots(keys[1..], false)
  }

  function TapLayout(q: Quorum): bytes
    requires InBounds(q.m, |q.keys|)
  {
    TapSlots(q.keys, true) + [OpN(q.m), TAPSCRIPT_TERMINATOR]
  }

  function MakeTapscript(m: nat, keys: seq<bytes>): Option<bytes> {
    if keys == [] || m == 0 || m > |keys| || |keys| > MS_MAX_PUBKEYS then None
    else if !HasLength(keys, 32) then None
    else
      var sorted := SortKeys(keys);
      if HasEqualNeighbours(sorted) then None else Some(TapLayout(Quorum(m, sorted)))
  }

  function ReadTapSlots(body: bytes, first: bool): Option<seq<bytes>> {
    if body == [] then Some([])
    else if |body| < 34 || body[0] != 0x20 || body[33] != (if first then OP_CHECKSIG else OP_CHECKSIGADD) then None
    else match ReadTapSlots(body[34..], false)
      case None => None
      case Some(keys) => Some([body[1..33]] + keys)
  }

  function ExtractTapscript(script: bytes): Option<Quorum> {
    if |script| < 34 + 2 || script[|script| - 1] != TAPSCRIPT_TERMINATOR then None
    else
      var mOp: nat, body := script[|script| - 2], script[..|script| - 2];
      if !(0x51 <= mOp <= 0x5f) || |body| % 34 != 0 then None
      else
        var n := |body| / 34;
        if mOp - 0x50 > n || n > MS_MAX_PUBKEYS then None
        else match ReadTapSlots(body, true)
          case None => None
          case Some(keys) => if HasRepeats(keys) then None else Some(Quorum(mOp - 0x50, keys))
  }

  lemma TapSlotParts(key: bytes, first: bool, rest: bytes)
    requires |key| == 32
    ensures var b := TapSlot(key, first) + rest;
      && |b| == 34 + |rest| && b[0] == 0x20 && b[33] == (if first then OP_CHECKSIG else OP_CHECKSIGADD)
      && b[1..33] == key && b[34..] == rest
  {}

  lemma {:induction false} ReadTapSlotsOfSlots(keys: seq<bytes>, first: bool)
    requires HasLength(keys, 32)
    ensures |TapSlots(keys, first)| == 34 * |keys|
    ensures ReadTapSlots(TapSlots(keys, first), first) == Some(keys)
  {
    if keys != [] {
      assert keys[0] in keys && forall k :: k in keys[1..] ==> k in keys;
      ReadTapSlotsOfSlots(keys[1..], false);
      TapSlotParts(keys[0], first, TapSlots(keys[1..], false));
      assert keys == [keys[0]] + keys[1..];
    }
  }

  lemma TapSlotOfBytes(b: bytes, first: bool)
    requires |b| >= 34 && b[0] == 0x20 && b[33] == (if first then OP_CHECKSIG else OP_CHECKSIGADD)
    ensures b == TapSlot(b[1..33], first) + b[34..]
  {}

  lemma {:induction false} SlotsOfReadTapSlots(body: bytes, first: bool)
    requires ReadTapSlots(body, first).Some?
    ensures var keys := ReadTapSlots(body, first).value;
      HasLength(keys, 32) && body == TapSlots(keys, first) && |body| == 34 * |keys|
  {
    if body != [] {
      SlotsOfReadTapSlots(body[34..], false);
      TapSlotOfBytes(body, first);
      var tail := ReadTapSlots(body[34..], false).value;
      assert ([body[1..33]] + tail)[1..] == tail;
    }
  }

  ghost predicate ValidTapQuorum(q: Quorum) {
    InBounds(q.m, |q.keys|) && HasLength(q.keys, 32) && DistinctKeys(q.keys)
  }

  lemma ExtractedTapscript(script: bytes)
    requires ExtractTapscript(script).Some?
    ensures ValidTapQuorum(ExtractTapscript(script).value)
    ensures script == TapLayout(ExtractTapscript(script).value)
  {
    var q, body := ExtractTapscript(script).value, script[..|script| - 2];
    SlotsOfReadTapSlots(body, true);
    RepeatsAreDuplicates(q.keys);
    assert script == body + [script[|script| - 2], script[|script| - 1]];
  }

  lemma ExtractOfTapLayout(q: Quorum)
    requires ValidTapQuorum(q)
    ensures ExtractTapscript(TapLayout(q)) == Some(q)
  {
    hide TapSlots, ReadTapSlots, HasRepeats, DistinctKeys, HasLength;
    ReadTapSlotsOfSlots(q.keys, true);
    RepeatsAreDuplicates(q.keys);
    assert TapLayout(q)[..|TapLayout(q)| - 2] == TapSlots(q.keys, true);
  }

  /** The tapscript extractor accepts exactly the layouts of valid quorums. */
  lemma ExtractTapscriptExact(script: bytes, q: Quorum)
    ensures ExtractTapscript(script) == Some(q) <==> ValidTapQuorum(q) && script == TapLayout(q)
  {
    hide ExtractTapscript, TapLayout, DistinctKeys, HasLength;
    if ExtractTapscript(script) == Some(q) { ExtractedTapscript(script); }
    if ValidTapQuorum(q) { ExtractOfTapLayout(q); }
  }

  lemma ExtractOfMakeTapscript(m: nat, keys: seq<bytes>)
    requires MakeTapscript(m, keys).Some?
    ensures ExtractTapscript(MakeTapscript(m, keys).value) == Some(Quorum(m, SortKeys(keys)))
    ensures |MakeTapscript(m, keys).value| == 34 * |keys| + 2 <= MAX_ELEMENT_SIZE
  {
    var q := Quorum(m, SortKeys(keys));
    NeighboursFindDuplicates(keys);
    SortKeysDistinct(keys);
    SortedKeepsLength(keys, 32);
    ReadTapSlotsOfSlots(q.keys, true);
    ExtractOfTapLayout(q);
  }

  lemma MakeTapscriptSucceeds(m: nat, keys: seq<bytes>)
    ensures MakeTapscript(m, keys).Some? <==> InBounds(m, |keys|) && HasLength(keys, 32) && DistinctKeys(keys)
  {
    NeighboursFindDuplicates(keys);
  }

  lemma MakeTapscriptPermutation(m: nat, a: seq<bytes>, b: seq<bytes>)
    requires multiset(a) == multiset(b)
    ensures MakeTapscript(m, a) == MakeTapscript(m, b)
  {
    SameElements(a, b);
    SortKeysPermutation(a, b);
  }

  // -------------------------------------------------------- assembled spends

  function PushAll(items: seq<bytes>): Result<bytes, Error> {
    if items == [] then Ok([])
    else
      var first :- PushData(items[0]);
      var rest :- PushAll(items[1..]);
      Ok(first + rest)
  }

  /** `OP_0`, the signatures, the pushed redeem script. */
  function MultisigScriptSig(redeem: bytes, sigs: seq<bytes>): Result<bytes, Error> {
    var pushed :- PushAll(sigs);
    var last :- PushData(redeem);
    Ok([0x00] + pushed + last)
  }

  /** The empty dummy, the signatures, the witness script. */
  function MultisigWitness(redeem: bytes, sigs: seq<bytes>): seq<bytes> { [[]] + sigs + [redeem] }

  function Reversed<T>(xs: seq<T>): (r: seq<T>)
    ensures |r| == |xs| && forall i :: 0 <= i < |xs| ==> r[i] == xs[|xs| - 1 - i]
  {
    seq(|xs|, i requires 0 <= i < |xs| => xs[|xs| - 1 - i])
  }

  /** The slots in reverse key order, the tapscript, the control block. An empty
      slot is an empty item. */
  function TapscriptWitness(script: bytes, controlBlock: bytes, slots: seq<Option<bytes>>): seq<bytes> {
    Reversed(MapSeq(SlotItem, slots)) + [script, controlBlock]
  }

  function SlotItem(slot: Option<bytes>): bytes {
    match slot
    case None => []
    case Some(sig) => sig
  }

  // ------------------------------------------------------------------- methods

  method MakeMultisigRedeemScript(m: nat, keys: seq<bytes>) returns (r: Option<bytes>)
    ensures r == MakeRedeem(m, keys)
  {
    var n := |keys|;
    if n == 0 || m == 0 || m > n || n > MS_MAX_PUBKEYS { return None; }
    if !HasLength(keys, 33) { return None; }
    var sorted := SortKeys(keys);
    for i := 0 to n - 1
      invariant forall j :: 0 <= j < i ==> sorted[j] != sorted[j + 1]
    {
      if sorted[i] == sorted[i + 1] { return None; }
    }
    var out: bytes := [OpN(m)];
    for i := 0 to n
      invariant out == [OpN(m)] + Flat(KeyPush, sorted[..i])
    {
      FlatStep(KeyPush, [OpN(m)], sorted, i);
      out := out + KeyPush(sorted[i]);
    }
    assert sorted[..n] == sorted;
    Assoc([OpN(m)], Flat(KeyPush, sorted), RedeemTail(n));
    return Some(out + RedeemTail(n));
  }

  function Behind(done: seq<bytes>, r: Option<seq<bytes>>): Option<seq<bytes>> {
    match r
    case None => None
    case Some(keys) => Some(done + keys)
  }

  lemma SliceOfSlice(s: bytes, lo: nat, hi: nat, a: nat, b: nat)
    requires lo <= hi <= |s| && a <= b <= hi - lo
    ensures s[lo..hi][a..b] == s[lo + a..lo + b]
  {
    var t := s[lo..hi];
    assert |t[a..b]| == |s[lo + a..lo + b]|;
    forall i | 0 <= i < b - a
      ensures t[a..b][i] == s[lo + a..lo + b][i]
    {
      assert t[a + i] == s[lo + a + i];
    }
  }

  /** The first slot of a run of slots, seen from the run and from the script. */
  lemma SlotOfScript(script: bytes, start: nat, hi: nat)
    requires start + 34 <= hi <= |script|
    ensures var slots := script[start..hi];
      && slots[34..] == script[start + 34..hi] && slots[0] == script[start] && slots[33] == script[start + 33]
      && slots[1..34] == script[start + 1..start + 34] && slots[1..33] == script[start + 1..start + 33]
  {
    SliceOfSlice(script, start, hi, 34, hi - start);
    assert script[start..hi][34..] == script[start..hi][34..hi - start];
    SliceOfSlice(script, start, hi, 1, 34);
    SliceOfSlice(script, start, hi, 1, 33);
  }

  lemma BehindNothing(r: Option<seq<bytes>>)
    ensures Behind([], r) == r
  {
    if r.Some? { assert [] + r.value == r.value; }
  }

  lemma BehindOne(done: seq<bytes>, key: bytes, r: Option<seq<bytes>>)
    ensures Behind(done + [key], r) == if r.None? then None else Some(done + ([key] + r.value))
  {
    if r.Some? { Assoc(done, [key], r.value); }
  }

  lemma NextKeyPush(script: bytes, start: nat, end: nat)
    requires start + 34 <= end <= |script|
    ensures ReadKeyPushes(script[start..end]) ==
      if script[start] != 0x21 || !CompressedPrefix(script[start + 1..start + 34]) then None
      else match ReadKeyPushes(script[start + 34..end])
        case None => None
        case Some(keys) => Some([script[start + 1..start + 34]] + keys)
  {
    SlotOfScript(script, start, end);
    hide CompressedPrefix;
  }

  method ExtractMultisigQuorum(script: bytes) returns (r: Option<Quorum>)
    ensures r == ExtractQuorum(script)
  {
    if |script| < 3 + 34 { return None; }
    var mOp: nat, nOp: nat := script[0], script[|script| - 2];
    if script[|script| - 1] != OP_CHECKMULTISIG { return None; }
    if !(0x51 <= mOp <= 0x50 + MS_MAX_PUBKEYS) || !(0x51 <= nOp <= 0x50 + MS_MAX_PUBKEYS) { return None; }
    var m, n := mOp - 0x50, nOp - 0x50;
    if m > n { return None; }
    if |script| - 3 != n * 34 { return None; }
    ghost var end := |script| - 2;
    var keys: seq<bytes> := [];
    assert ReadKeyPushes([]) == Some([]);
    hide ReadKeyPushes, CompressedPrefix, HasRepeats;
    BehindNothing(ReadKeyPushes(script[1..end]));
    for i := 0 to n
      invariant ReadKeyPushes(script[1..end]) == Behind(keys, ReadKeyPushes(script[1 + 34 * i..end]))
    {
      var start := 1 + i * 34;
      NextKeyPush(script, start, end);
      if script[start] != 0x21 { return None; }
      var key := script[start + 1..start + 34];
      if !CompressedPrefix(key) { return None; }
      BehindOne(keys, key, ReadKeyPushes(script[start + 34..end]));
      keys := keys + [key];
    }
    assert script[1 + 34 * n..end] == [] && keys + [] == keys;
    if HasRepeats(keys) { return None; }
    return Some(Quorum(m, keys));
  }

  lemma {:induction false} TapSlotsSnoc(keys: seq<bytes>, key: bytes, first: bool)
    ensures TapSlots(keys + [key], first) == TapSlots(keys, first) + TapSlot(key, first && keys == [])
  {
    if keys == [] {
      assert [key][1..] == [];
    } else {
      assert (keys + [key])[1..] == keys[1..] + [key];
      TapSlotsSnoc(keys[1..], key, false);
    }
  }

  method MakeMultisigTapscript(m: nat, keys: seq<bytes>) returns (r: Option<bytes>)
    ensures r == MakeTapscript(m, keys)
  {
    var n := |keys|;
    if n == 0 || m == 0 || m > n || n > MS_MAX_PUBKEYS { return None; }
    if !HasLength(keys, 32) { return None; }
    var sorted := SortKeys(keys);
    for i := 0 to n - 1
      invariant forall j :: 0 <= j < i ==> sorted[j] != sorted[j + 1]
    {
      if sorted[i] == sorted[i + 1] { return None; }
    }
    var slots := WriteTapSlots(sorted);
    return Some(slots + [OpN(m), TAPSCRIPT_TERMINATOR]);
  }

  method WriteTapSlots(sorted: seq<bytes>) returns (out: bytes)
    ensures out == TapSlots(sorted, true)
  {
    out := [];
    for i := 0 to |sorted|
      invariant out == TapSlots(sorted[..i], true)
    {
      assert sorted[..i + 1] == sorted[..i] + [sorted[i]];
      TapSlotsSnoc(sorted[..i], sorted[i], true);
      out := out + TapSlot(sorted[i], i == 0);
    }
    assert sorted[..|sorted|] == sorted;
  }

  method ExtractMultisigTapscript(script: bytes) returns (r: Option<Quorum>)
    ensures r == ExtractTapscript(script)
  {
    if |script| < 34 + 2 { return None; }
    var mOp: nat := script[|script| - 2];
    if script[|script| - 1] != TAPSCRIPT_TERMINATOR || !(0x51 <= mOp <= 0x5f) { return None; }
    var m, length := mOp - 0x50, |script| - 2;
    if length % 34 != 0 { return None; }
    var n := length / 34;
    if m > n || n > MS_MAX_PUBKEYS { return None; }
    var keys: seq<bytes> := [];
    assert script[0..length] == script[..length];
    BehindNothing(ReadTapSlots(script[..length], true));
    for i := 0 to n
      invariant ReadTapSlots(script[..length], true) == Behind(keys, ReadTapSlots(script[34 * i..length], i == 0))
    {
      var start := i * 34;
      SlotOfScript(script, start, length);
      if script[start] != 0x20 { return None; }
      var key := script[start + 1..start + 33];
      if script[start + 33] != (if i == 0 then OP_CHECKSIG else OP_CHECKSIGADD) { return None; }
      BehindOne(keys, key, ReadTapSlots(script[start + 34..length], false));
      keys := keys + [key];
    }
    assert script[34 * n..length] == [] && keys + [] == keys;
    if HasRepeats(keys) { return None; }
    return Some(Quorum(m, keys));
  }

  lemma {:induction false} PushAllSnoc(items: seq<bytes>, item: bytes)
    ensures PushAll(items + [item]) ==
      if PushAll(items).Err? then PushAll(items)
      else if PushData(item).Err? then Err(PushTooLong)
      else Ok(PushAll(items).value + PushData(item).value)
  {
    hide PushData;
    if items == [] {
      assert [item][1..] == [];
      assert items + [item] == [item];
      PushDataError(item);
    } else {
      assert (items + [item])[1..] == items[1..] + [item];
      PushAllSnoc(items[1..], item);
      if PushAll(items).Ok? && PushData(item).Ok? {
        Assoc(PushData(items[0]).value, PushAll(items[1..]).value, PushData(item).value);
      }
    }
  }

  lemma PushDataError(item: bytes)
    ensures PushData(item).Err? ==> PushData(item).error == PushTooLong
    ensures PushData(item).Ok? ==>
      PushData(item).value + [] == PushData(item).value && [] + PushData(item).value == PushData(item).value
  {}

  lemma {:induction false} PushAllPrefixFails(items: seq<bytes>, i: nat)
    requires i <= |items| && PushAll(items[..i]).Err?
    ensures PushAll(items) == Err(PushTooLong)
    decreases |items| - i
  {
    if i < |items| {
      assert items[..i + 1] == items[..i] + [items[i]];
      PushAllSnoc(items[..i], items[i]);
      PushAllPrefixFails(items, i + 1);
    } else {
      assert items[..i] == items;
      PushAllError(items);
    }
  }

  lemma {:induction false} PushAllError(items: seq<bytes>)
    ensures PushAll(items).Err? ==> PushAll(items) == Err(PushTooLong)
  {
    if items != [] { PushAllError(items[1..]); }
  }

  method MakeMultisigScriptSig(redeem: bytes, sigs: seq<bytes>) returns (r: Result<bytes, Error>)
    ensures r == MultisigScriptSig(redeem, sigs)
  {
    var out: bytes := [0x00];
    for i := 0 to |sigs|
      invariant PushAll(sigs[..i]).Ok? && out == [0x00] + PushAll(sigs[..i]).value
    {
      assert sigs[..i + 1] == sigs[..i] + [sigs[i]];
      PushAllSnoc(sigs[..i], sigs[i]);
      var push := PushData(sigs[i]);
      if push.Err? {
        PushAllPrefixFails(sigs, i + 1);
        return push;
      }
      out := out + push.value;
    }
    assert sigs[..|sigs|] == sigs;
    var last := PushData(redeem);
    if last.Err? { return last; }
    return Ok(out + last.value);
  }
}
