/** Signing a transaction in place, without a container. */
module DirectSigning {
  import opened Bytes
  import opened Wire
  import opened Transactions
  import opened Scripts
  import opened Sighashes

  // --------------------------------------------------------------- the operation

  /** One input signed. Its script still holds the lock script it spends. */
  function SignedIn(c: Crypto, tx: Tx, keys: seq<PubKey>, spend: Option<seq<TxOut>>, i: nat): Result<TxIn, Error>
    requires i < |tx.vin| == |keys|
  {
    var vin, key := tx.vin[i], keys[i];
    if IsP2wpkh(vin.script) then
      if spend.None? || i >= |spend.value| then Err(MissingSpendContext)
      else
        var digest := Bip143Digest(c, tx, i, P2wpkhScriptCode(vin.script), spend.value[i].amount);
        Ok(vin.(script := [], stack := [c.ecdsa(key, digest) + [SIGHASH_ALL], key]))
    else if IsP2tr(vin.script) then
      if spend.None? || |spend.value| != |tx.vin| then Err(MissingSpendContext)
      else
        var digest := KeypathDigest(c, tx, i, spend.value);
        Ok(vin.(script := [], stack := [c.tweakedSchnorr(XOnly(key), digest)]))
    else
      var scriptSig :- InlinePushes([c.ecdsa(key, LegacyDigest(c, tx, i, vin.script)) + [SIGHASH_ALL], key]);
      Ok(vin.(script := scriptSig))
  }

  /** The first `n` inputs signed. */
  function SignedIns(c: Crypto, tx: Tx, keys: seq<PubKey>, spend: Option<seq<TxOut>>, n: nat)
      : (r: Result<seq<TxIn>, Error>)
    requires n <= |tx.vin| == |keys|
    ensures r.Ok? ==> |r.value| == n && forall i :: 0 <= i < n ==> SignedIn(c, tx, keys, spend, i) == Ok(r.value[i])
  {
    if n == 0 then Ok([])
    else
      var front :- SignedIns(c, tx, keys, spend, n - 1);
      var last :- SignedIn(c, tx, keys, spend, n - 1);
      Ok(front + [last])
  }

  function SignDirect(c: Crypto, tx: Tx, keys: seq<PubKey>, spend: Option<seq<TxOut>>): Result<Tx, Error> {
    if |keys| != |tx.vin| then Err(SignerCountMismatch)
    else
      var vin :- SignedIns(c, tx, keys, spend, |tx.vin|);
      Ok(tx.(vin := vin))
  }

  lemma {:induction false} SignedInsFails(c: Crypto, tx: Tx, keys: seq<PubKey>, spend: Option<seq<TxOut>>, i: nat, n: nat)
    requires i < n <= |tx.vin| == |keys| && SignedIns(c, tx, keys, spend, i).Ok?
    requires SignedIn(c, tx, keys, spend, i).Err?
    ensures SignedIns(c, tx, keys, spend, n) == Err(SignedIn(c, tx, keys, spend, i).error)
  {
    hide SignedIn;
    if n > i + 1 { SignedInsFails(c, tx, keys, spend, i, n - 1); }
  }

  lemma SignedInSkeleton(c: Crypto, tx: Tx, keys: seq<PubKey>, spend: Option<seq<TxOut>>, i: nat)
    requires i < |tx.vin| == |keys| && SignedIn(c, tx, keys, spend, i).Ok?
    ensures Blank(SignedIn(c, tx, keys, spend, i).value) == Blank(tx.vin[i])
  {
    hide LegacyDigest, Bip143Digest, KeypathDigest, InlinePushes;
  }

  function P2wpkhCodeOrNothing(script: bytes): bytes {
    if IsP2wpkh(script) then P2wpkhScriptCode(script) else []
  }

  lemma DigestsAlike(c: Crypto, now: Tx, tx: Tx, spend: Option<seq<TxOut>>, i: nat)
    requires SameSkeleton(now, tx) && i < |tx.vin|
    ensures IsP2wpkh(tx.vin[i].script) && spend.Some? && i < |spend.value| ==>
      Bip143Digest(c, now, i, P2wpkhScriptCode(tx.vin[i].script), spend.value[i].amount)
      == Bip143Digest(c, tx, i, P2wpkhScriptCode(tx.vin[i].script), spend.value[i].amount)
    ensures spend.Some? ==> KeypathDigest(c, now, i, spend.value) == KeypathDigest(c, tx, i, spend.value)
  {
    hide Bip143Digest, KeypathDigest, LegacyDigest;
    var s := if spend.Some? then spend.value else [];
    DigestsOfSkeleton(c, now, tx, i, P2wpkhCodeOrNothing(tx.vin[i].script), if i < |s| then s[i].amount else 0, s);
  }

  /** One turn of the loop: `now` is the transaction as the earlier turns left it. */
  method SignOne(c: Crypto, tx: Tx, now: Tx, keys: seq<PubKey>, spend: Option<seq<TxOut>>, i: nat)
    returns (r: Result<TxIn, Error>)
    requires i < |tx.vin| == |keys| && SameSkeleton(now, tx) && now.vin[i] == tx.vin[i]
    ensures r == SignedIn(c, tx, keys, spend, i)
  {
    hide Bip143Digest, KeypathDigest, LegacyDigest;
    DigestsAlike(c, now, tx, spend, i);
    var vin, key := now.vin[i], keys[i];
    if IsP2wpkh(tx.vin[i].script) {
      if spend.None? || i >= |spend.value| { return Err(MissingSpendContext); }
      var digest := Bip143Digest(c, now, i, P2wpkhScriptCode(tx.vin[i].script), spend.value[i].amount);
      return Ok(vin.(script := [], stack := [c.ecdsa(key, digest) + [SIGHASH_ALL], key]));
    } else if IsP2tr(tx.vin[i].script) {
      if spend.None? || |spend.value| != |tx.vin| { return Err(MissingSpendContext); }
      var digest := KeypathDigest(c, now, i, spend.value);
      return Ok(vin.(script := [], stack := [c.tweakedSchnorr(XOnly(key), digest)]));
    } else {
      var signature := c.ecdsa(key, LegacyDigest(c, tx, i, tx.vin[i].script)) + [SIGHASH_ALL];
      var scriptSig :- InlinePushes([signature, key]);
      return Ok(vin.(script := scriptSig));
    }
  }

  lemma SkeletonStep(tx: Tx, vin: seq<TxIn>, i: nat, signed: TxIn)
    requires SameSkeleton(tx.(vin := vin), tx) && i < |vin| && Blank(signed) == Blank(tx.vin[i])
    ensures SameSkeleton(tx.(vin := vin[i := signed]), tx)
  {}

  /** The loop of the wallet: each input is signed in the transaction as the earlier
      turns left it. No digest sees those changes, so the result is that of signing
      every input of the original. */
  method SignSegwit(c: Crypto, tx: Tx, keys: seq<PubKey>, spend: Option<seq<TxOut>>) returns (r: Result<Tx, Error>)
    ensures r == SignDirect(c, tx, keys, spend)
  {
    hide SignedIn, SameSkeleton;
    if |keys| != |tx.vin| { return Err(SignerCountMismatch); }
    var vin := tx.vin;
    assert tx.(vin := vin) == tx;
    SkeletonRefl(tx);
    for i := 0 to |vin|
      invariant |vin| == |tx.vin|
      invariant forall j :: i <= j < |vin| ==> vin[j] == tx.vin[j]
      invariant SignedIns(c, tx, keys, spend, i) == Ok(vin[..i])
      invariant SameSkeleton(tx.(vin := vin), tx)
    {
      var signed := SignOne(c, tx, tx.(vin := vin), keys, spend, i);
      if signed.Err? {
        SignedInsFails(c, tx, keys, spend, i, |tx.vin|);
        return Err(signed.error);
      }
      SignedInSkeleton(c, tx, keys, spend, i);
      SkeletonStep(tx, vin, i, signed.value);
      ghost var before := vin;
      vin := vin[i := signed.value];
      assert vin[..i + 1] == before[..i] + [signed.value];
    }
    assert vin[..|vin|] == vin;
    return Ok(tx.(vin := vin));
  }

  lemma SkeletonRefl(tx: Tx)
    ensures SameSkeleton(tx, tx)
  {}
}
