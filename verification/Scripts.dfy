/** Lock-script shapes, data pushes, and the order in which member keys are sorted. */
module Scripts {
  import opened Bytes
  import opened Wire
  import opened KeyMaps

  const OP_PUSHDATA1: byte := 0x4c
  const OP_PUSHDATA2: byte := 0x4d
  const OP_PUSHDATA4: byte := 0x4e
  const OP_DUP: byte := 0x76
  const OP_EQUAL: byte := 0x87
  const OP_EQUALVERIFY: byte := 0x88
  const OP_HASH160: byte := 0xa9
  const OP_CHECKSIG: byte := 0xac
  const OP_CHECKMULTISIG: byte := 0xae
  const OP_CHECKSIGADD: byte := 0xba
  const TAPSCRIPT_TERMINATOR: byte := 0x9d
  const TAPSCRIPT_LEAF_VERSION: byte := 0xc0
  const MS_MAX_PUBKEYS: nat := 15
  const MAX_ELEMENT_SIZE: nat := 520

  // ------------------------------------------------------------- lock scripts

  function P2pkhScript(hash: bytes): bytes { [OP_DUP, OP_HASH160, 20] + hash + [OP_EQUALVERIFY, OP_CHECKSIG] }

  function P2shScript(hash: bytes): bytes { [OP_HASH160, 20] + hash + [OP_EQUAL] }

  function P2wpkhScript(hash: bytes): bytes { [0x00, 20] + hash }

  function P2wshScript(hash: bytes): bytes { [0x00, 32] + hash }

  function P2trScript(key: bytes): bytes { [0x51, 32] + key }

  predicate IsP2pkh(s: bytes) {
    |s| == 25 && s[0] == OP_DUP && s[1] == OP_HASH160 && s[2] == 20 && s[23] == OP_EQUALVERIFY && s[24] == OP_CHECKSIG
  }

  predicate IsP2sh(s: bytes) { |s| == 23 && s[0] == OP_HASH160 && s[1] == 20 && s[22] == OP_EQUAL }

  predicate IsP2wpkh(s: bytes) { |s| == 22 && s[0] == 0x00 && s[1] == 20 }

  predicate IsP2wsh(s: bytes) { |s| == 34 && s[0] == 0x00 && s[1] == 32 }

  predicate IsP2tr(s: bytes) { |s| == 34 && s[0] == 0x51 && s[1] == 32 }

  /** The single-key forms, with what the script commits to. */
  datatype Form = Legacy(hash: Hash20) | P2wpkh(hash: Hash20) | P2tr(key: Hash32)

  function FormOfScript(s: bytes): Option<Form> {
    if IsP2pkh(s) then Some(Legacy(s[3..23]))
    else if IsP2wpkh(s) then Some(P2wpkh(s[2..]))
    else if IsP2tr(s) then Some(P2tr(s[2..]))
    else None
  }

  function ScriptOfForm(f: Form): bytes {
    match f
    case Legacy(h) => P2pkhScript(h)
    case P2wpkh(h) => P2wpkhScript(h)
    case P2tr(k) => P2trScript(k)
  }

  /** Extracting is the inverse of building: each script has at most one reading,
      and it is the script built from that reading. */
  lemma FormOfScriptInverse(s: bytes, f: Form)
    ensures FormOfScript(s) == Some(f) <==> s == ScriptOfForm(f)
  {
    if s == ScriptOfForm(f) {
      match f
      case Legacy(h) => assert s[3..23] == h;
      case P2wpkh(h) => assert s[2..] == h;
      case P2tr(k) => assert s[2..] == k;
    }
  }

  lemma ShapesDisjoint(s: bytes)
    ensures FormOfScript(s).Some? ==> !IsP2sh(s) && !IsP2wsh(s)
    ensures !(IsP2sh(s) && IsP2wsh(s))
  {}

  // -------------------------------------------------------------------- pushes

  function PushData(d: bytes): Result<bytes, Error> {
    if |d| > 0xffff then Err(PushTooLong)
    else if |d| <= 0x4b then Ok([|d|] + d)
    else if |d| <= 0xff then Ok([OP_PUSHDATA1, |d|] + d)
    else Ok([OP_PUSHDATA2] + LE(|d|, 2) + d)
  }

  function PushPrefixLength(length: nat): nat {
    if length <= 0x4b then 1 else if length <= 0xff then 2 else 3
  }

  lemma PushDataLength(d: bytes)
    requires PushData(d).Ok?
    ensures |PushData(d).value| == PushPrefixLength(|d|) + |d|
  {}

  /** The one-byte pushes of `CScript`, which refuses items of 76 bytes and more. */
  function InlinePushes(items: seq<bytes>): Result<bytes, Error> {
    if items == [] then Ok([])
    else if |items[0]| >= 0x4c then Err(PushTooLong)
    else
      var rest :- InlinePushes(items[1..]);
      Ok([|items[0]|] + items[0] + rest)
  }

  // ------------------------------------------------------------- sorted key sets

  function Keyed(keys: seq<bytes>): seq<Pair> { MapSeq(k => Pair(k, []), keys) }

  function KeysOf(ps: seq<Pair>): seq<bytes> { MapSeq((p: Pair) => p.key, ps) }

  /** The keys in byte order (BIP-67). */
  function SortKeys(keys: seq<bytes>): (r: seq<bytes>)
    ensures |r| == |keys|
  {
    KeysOf(Sort(Keyed(keys)))
  }

  ghost predicate DistinctKeys(keys: seq<bytes>) {
    forall i, j :: 0 <= i < j < |keys| ==> keys[i] != keys[j]
  }

  ghost predicate SortedKeys(keys: seq<bytes>) {
    forall i, j :: 0 <= i < j < |keys| ==> LexLe(keys[i], keys[j])
  }

  /** Equal neighbours, which is how the builders look for duplicates. */
  predicate HasEqualNeighbours(keys: seq<bytes>) {
    exists i :: 0 <= i < |keys| - 1 && keys[i] == keys[i + 1]
  }

  lemma InsertMultiset(x: Pair, ps: seq<Pair>)
    ensures multiset(Insert(x, ps)) == multiset{x} + multiset(ps)
  {
    if ps != [] && LexLe(ps[0].key, x.key) {
      InsertMultiset(x, ps[1..]);
      assert ps == [ps[0]] + ps[1..];
    }
  }

  lemma InsertedMultiset(front: seq<Pair>, sorted: seq<Pair>, last: Pair)
    requires multiset(sorted) == multiset(front)
    ensures multiset(Insert(last, sorted)) == multiset(front + [last])
  {
    InsertMultiset(last, sorted);
    hide Insert;
  }

  lemma {:induction false} SortMultiset(ps: seq<Pair>)
    ensures multiset(Sort(ps)) == multiset(ps)
  {
    if ps != [] {
      var front, last := ps[..|ps| - 1], ps[|ps| - 1];
      SortMultiset(front);
      InsertedMultiset(front, Sort(front), last);
      assert ps == front + [last];
    }
  }

  lemma {:induction false} KeyedMultiset(keys: seq<bytes>, k: bytes)
    ensures multiset(Keyed(keys))[Pair(k, [])] == multiset(keys)[k]
  {
    if keys == [] {
    } else {
      var front, last := keys[..|keys| - 1], keys[|keys| - 1];
      KeyedMultiset(front, k);
      assert keys == front + [last];
      assert Keyed(keys) == Keyed(front) + [Pair(last, [])];
    }
  }

  lemma {:induction false} KeysOfMultiset(ps: seq<Pair>, k: bytes)
    requires forall p :: p in ps ==> p.value == []
    ensures multiset(KeysOf(ps))[k] == multiset(ps)[Pair(k, [])]
  {
    if ps == [] {
    } else {
      var front, last := ps[..|ps| - 1], ps[|ps| - 1];
      KeysOfMultiset(front, k);
      assert ps == front + [last];
      assert KeysOf(ps) == KeysOf(front) + [last.key];
      assert last in ps;
    }
  }

  lemma SortKeysMultiset(keys: seq<bytes>)
    ensures multiset(SortKeys(keys)) == multiset(keys)
  {
    SortMultiset(Keyed(keys));
    SortCorrect(Keyed(keys));
    forall k: bytes
      ensures multiset(SortKeys(keys))[k] == multiset(keys)[k]
    {
      KeyedMultiset(keys, k);
      KeysOfMultiset(Sort(Keyed(keys)), k);
    }
  }

  lemma SortKeysCorrect(keys: seq<bytes>)
    ensures SortedKeys(SortKeys(keys))
    ensures forall k :: k in SortKeys(keys) <==> k in keys
  {
    SortCorrect(Keyed(keys));
    SortKeysMultiset(keys);
    forall k
      ensures k in SortKeys(keys) <==> k in keys
    {
      assert k in keys <==> k in multiset(keys);
      assert k in SortKeys(keys) <==> k in multiset(SortKeys(keys));
    }
  }

  lemma LeastFirst(keys: seq<bytes>, k: bytes)
    requires SortedKeys(keys) && k in keys
    ensures LexLe(keys[0], k)
  {
    var i :| 0 <= i < |keys| && keys[i] == k;
    LexRefl(keys[0]);
  }

  lemma TailMultiset(keys: seq<bytes>)
    requires keys != []
    ensures multiset(keys[1..]) == multiset(keys) - multiset{keys[0]}
  {
    assert keys == [keys[0]] + keys[1..];
  }

  /** Sorted sequences with the same elements are equal. */
  lemma {:induction false} SortedKeysUnique(a: seq<bytes>, b: seq<bytes>)
    requires SortedKeys(a) && SortedKeys(b) && multiset(a) == multiset(b)
    ensures a == b
  {
    if a == [] {
      assert |multiset(b)| == 0;
    } else {
      assert |multiset(b)| == |multiset(a)| > 0;
      assert a[0] in multiset(b) && b[0] in multiset(a);
      LeastFirst(a, b[0]);
      LeastFirst(b, a[0]);
      LexAntisym(a[0], b[0]);
      TailMultiset(a);
      TailMultiset(b);
      SortedKeysUnique(a[1..], b[1..]);
      assert a == [a[0]] + a[1..] && b == [b[0]] + b[1..];
    }
  }

  /** The order of the arguments does not matter. */
  lemma SortKeysPermutation(a: seq<bytes>, b: seq<bytes>)
    requires multiset(a) == multiset(b)
    ensures SortKeys(a) == SortKeys(b)
  {
    SortKeysCorrect(a);
    SortKeysCorrect(b);
    SortKeysMultiset(a);
    SortKeysMultiset(b);
    SortedKeysUnique(SortKeys(a), SortKeys(b));
  }

  lemma DistinctCounts(keys: seq<bytes>)
    ensures DistinctKeys(keys) <==> forall k :: multiset(keys)[k] <= 1
  {
    if DistinctKeys(keys) {
      forall k: bytes
        ensures multiset(keys)[k] <= 1
      {
        DistinctCount(keys, k);
      }
    }
    if !DistinctKeys(keys) {
      var i, j :| 0 <= i < j < |keys| && keys[i] == keys[j];
      assert keys == keys[..i] + [keys[i]] + keys[i + 1..j] + [keys[j]] + keys[j + 1..];
      assert multiset(keys)[keys[i]] >= 2;
    }
  }

  lemma {:induction false} DistinctCount(keys: seq<bytes>, k: bytes)
    requires DistinctKeys(keys)
    ensures multiset(keys)[k] <= 1
  {
    if keys != [] {
      DistinctCount(keys[1..], k);
      assert keys == [keys[0]] + keys[1..];
      assert forall i :: 0 < i < |keys| ==> keys[1..][i - 1] == keys[i];
      assert keys[0] !in keys[1..];
    }
  }

  /** Among sorted keys a duplicate has an equal neighbour. */
  lemma NeighboursFindDuplicates(keys: seq<bytes>)
    ensures HasEqualNeighbours(SortKeys(keys)) <==> !DistinctKeys(keys)
  {
    var s := SortKeys(keys);
    SortKeysCorrect(keys);
    SortKeysMultiset(keys);
    DistinctCounts(keys);
    DistinctCounts(s);
    if !DistinctKeys(s) {
      var i, j :| 0 <= i < j < |s| && s[i] == s[j];
      assert LexLe(s[i], s[i + 1]) && LexLe(s[i + 1], s[j]) by { LexRefl(s[j]); }
      LexAntisym(s[i], s[i + 1]);
    }
  }
}
