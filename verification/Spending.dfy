/** A spend from the wallet as a whole: choosing what to spend, building the transaction,
    and where every satoshi that was found goes. */
module Spending {
  import opened Bytes
  import opened Transactions
  import opened Sighashes
  import opened Addresses
  import opened FeeLoop
  import opened Accounting
  import opened Scanning

  /** Where the inputs come from: the caller, with an address for change; the walk over all
      addresses; or the primary address alone. */
  datatype Selection =
    | Given(sources: seq<Source>, change: Option<Text>)
    | Walk(view: View, ownType: nat)
    | Primary(key: PubKey, address: Text, unspent: seq<Utxo>)

  datatype SpendError = NoChangeAddress | Refused(error: WalletError)

  datatype Spendable = Spendable(sources: seq<Source>, src: Text)

  function SourceOf(f: Form): Source { Source(f.key, f.unspent) }

  function SourcesOf(found: seq<Form>): seq<Source> { MapSeq(SourceOf, found) }

  /** The walk stops once it covers amount and fee; without an amount, only at a gap. */
  function WalkTarget(amount: Option<nat>, fee: nat): Option<nat> {
    match amount
    case None => None
    case Some(a) => Some(a + fee)
  }

  /** What a selection may yield. */
  ghost predicate Selects(sel: Selection, amount: Option<nat>, fee: nat, s: Spendable) {
    match sel
    case Given(sources, change) => change == Some(s.src) && s.sources == sources
    case Walk(v, ownType) =>
      exists stop, found ::
        && Stopped(v, WalkTarget(amount, fee), stop, found) && s.sources == SourcesOf(found)
        && ChangeGoesTo(v, stop, ownType, Scan(found, s.src))
    case Primary(key, address, unspent) => s == Spendable([Source(key, unspent)], address)
  }

  ghost predicate Possible(sel: Selection) {
    sel.Walk? ==> Finite(sel.view) && forall nonce :: sel.ownType < |sel.view.forms(nonce)|
  }

  method SelectInputs(sel: Selection, amount: Option<nat>, fee: nat) returns (r: Result<Spendable, SpendError>)
    requires Possible(sel)
    ensures r.Err? <==> sel.Given? && sel.change.None?
    ensures match r
      case Err(e) => e == NoChangeAddress
      case Ok(s) => Selects(sel, amount, fee, s)
  {
    match sel {
      case Given(sources, change) =>
        if change.None? { return Err(NoChangeAddress); }
        return Ok(Spendable(sources, change.value));
      case Walk(v, ownType) =>
        var scan := ScanInputs(v, WalkTarget(amount, fee), ownType);
        ghost var stop :| Stopped(v, WalkTarget(amount, fee), stop, scan.found) && ChangeGoesTo(v, stop, ownType, scan);
        assert scan == Scan(scan.found, scan.cashback);
        return Ok(Spendable(SourcesOf(scan.found), scan.cashback));
      case Primary(key, address, unspent) =>
        return Ok(Spendable([Source(key, unspent)], address));
    }
  }

  // ------------------------------------------------------------ what was found is spent

  lemma {:induction false} ValueOfAmounts(key: PubKey, us: seq<Utxo>)
    ensures Amounts(HeldBy(Source(key, us))) == Value(us)
  {
    var hs := HeldBy(Source(key, us));
    if us == [] {
      assert MapSeq(SpentOf, hs) == [];
    } else {
      var front, last := us[..|us| - 1], us[|us| - 1];
      ValueOfAmounts(key, front);
      var fronts, out := MapSeq(SpentOf, HeldBy(Source(key, front))), TxOut(last.amount, last.script);
      assert MapSeq(SpentOf, hs) == fronts + [out];
      TotalConcat(fronts, [out]);
      assert [out][1..] == [];
    }
  }

  /** What the forms found are worth is what the inputs built from them amount to. */
  lemma {:induction false} WorthIsAmounts(found: seq<Form>)
    ensures Amounts(AllHeld(SourcesOf(found))) == Worth(found)
  {
    if found == [] {
      assert MapSeq(SpentOf, AllHeld([])) == [];
    } else {
      var front, last := found[..|found| - 1], found[|found| - 1];
      WorthIsAmounts(front);
      assert SourcesOf(found)[..|found| - 1] == SourcesOf(front);
      ValueOfAmounts(last.key, last.unspent);
      var a, b := AllHeld(SourcesOf(front)), HeldBy(SourceOf(last));
      assert MapSeq(SpentOf, a + b) == MapSeq(SpentOf, a) + MapSeq(SpentOf, b);
      TotalConcat(MapSeq(SpentOf, a), MapSeq(SpentOf, b));
    }
  }

  /** A whole spend. What the walk found, and nothing else, goes into the outputs and the
      fee of the transaction. */
  method Spend(c: Crypto, b58: Base58, sel: Selection, dst: Text, amount: Option<nat>, feekb: nat, fee: nat)
    returns (r: Result<TxResult, SpendError>)
    requires Possible(sel)
    ensures match r
      case Err(NoChangeAddress) => sel.Given? && sel.change.None?
      case Err(Refused(e)) => exists s ::
        Selects(sel, amount, fee, s) && MadeFrom(c, b58, s.sources, s.src, dst, amount, feekb, fee, Err(e))
      case Ok(t) => exists s ::
        && Selects(sel, amount, fee, s) && MadeFrom(c, b58, s.sources, s.src, dst, amount, feekb, fee, Ok(t))
        && Settles(s.sources, amount, t)
    ensures r.Ok? && sel.Walk? ==>
      exists stop, found ::
        && Stopped(sel.view, WalkTarget(amount, fee), stop, found) && SpendsAll(r.value.tx, AllHeld(SourcesOf(found)))
        && Total(r.value.tx.vout) + r.value.fee == Worth(found)
    ensures r.Ok? && fee == 0 && feekb >= MIN_RELAY_TX_FEE ==> r.value.fee >= Rate(VSize(r.value.tx), feekb)
  {
    hide Stopped, Rate, VSize, Worth, Amounts, SpendsAll, Total, ChangeGoesTo, MadeFrom;
    var s := SelectInputs(sel, amount, fee);
    if s.Err? { return Err(s.error); }
    var made := MakeTransaction(c, b58, s.value.sources, s.value.src, dst, amount, feekb, fee);
    if made.Err? { return Err(Refused(made.error)); }
    if sel.Walk? {
      ghost var stop, found :| Stopped(sel.view, WalkTarget(amount, fee), stop, found) && s.value.sources == SourcesOf(found);
      WorthIsAmounts(found);
    }
    return Ok(made.value);
  }
}
