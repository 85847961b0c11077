/** Partially signed transactions (BIP-174): the typed fields of an input, the
    maps they are written as, and the parser that interprets those maps. */
module Psbts {
  import opened Bytes
  import opened Wire
  import opened KeyMaps
  import opened PsbtMaps
  import opened Transactions

  const T_UNSIGNED_TX: byte := 0x00
  const T_NON_WITNESS_UTXO: byte := 0x00
  const T_GLOBAL_XPUB: byte := 0x01
  const T_WITNESS_UTXO: byte := 0x01
  const T_PARTIAL_SIG: byte := 0x02
  const T_SIGHASH_TYPE: byte := 0x03
  const T_REDEEM_SCRIPT: byte := 0x04
  const T_WITNESS_SCRIPT: byte := 0x05
  const T_BIP32_DERIVATION: byte := 0x06
  const T_FINAL_SCRIPTSIG: byte := 0x07
  const T_FINAL_SCRIPTWITNESS: byte := 0x08
  const T_TAP_SCRIPT_SIG: byte := 0x14
  const T_TAP_LEAF_SCRIPT: byte := 0x15
  const T_TAP_INTERNAL_KEY: byte := 0x17
  const T_TAP_MERKLE_ROOT: byte := 0x18
  const T_VERSION: byte := 0xFB

  const MAGIC: bytes := [0x70, 0x73, 0x62, 0x74, 0xff]
  const PSBT_MAX_SIZE: nat := 4 * 1024 * 1024

  /** One input map. The keyed fields are lists of pairs keyed by the key data:
      the signer's public key, `x_only + leaf_hash`, the control block, and for
      `unknown` the whole key. */
  datatype Input = Input(
    nonWitnessUtxo: Option<Tx>,
    witnessUtxo: Option<TxOut>,
    partialSigs: seq<Pair>,
    sighashType: Option<u32>,
    redeemScript: Option<bytes>,
    witnessScript: Option<bytes>,
    finalScriptSig: Option<bytes>,
    finalScriptWitness: Option<bytes>,
    tapScriptSigs: seq<Pair>,
    tapLeafScripts: seq<Pair>,
    tapInternalKey: Option<bytes>,
    tapMerkleRoot: Option<bytes>,
    unknown: seq<Pair>)

  const EMPTY_INPUT := Input(None, None, [], None, None, None, None, None, [], [], None, None, [])

  datatype Psbt = Psbt(
    version: nat,
    unsignedTx: Tx,
    inputs: seq<Input>,
    outputs: seq<seq<Pair>>,
    unknownGlobal: seq<Pair>)

  // ---------------------------------------------------------------- key types

  datatype KeyParts = KeyParts(fieldType: nat, keydata: bytes)

  function SplitKey(key: bytes): Result<KeyParts, Error> {
    if key == [] then Err(Truncated)
    else if key[0] <= 0xfc then Ok(KeyParts(key[0], key[1..]))
    else
      var width := if key[0] == 0xfd then 2 else if key[0] == 0xfe then 4 else 8;
      var least := if key[0] == 0xfd then 0xfd else if key[0] == 0xfe then 0x1_0000 else 0x1_0000_0000;
      if |key| < 1 + width then Err(Truncated)
      else
        var v := FromLE(key[1..1 + width]);
        if v < least then Err(NonMinimalCompactSize) else Ok(KeyParts(v, key[1 + width..]))
  }

  /** The field types an input map is written with, in the order of writing. */
  const TYPED: seq<byte> := [
    T_NON_WITNESS_UTXO, T_WITNESS_UTXO, T_PARTIAL_SIG, T_SIGHASH_TYPE, T_REDEEM_SCRIPT, T_WITNESS_SCRIPT,
    T_TAP_SCRIPT_SIG, T_TAP_LEAF_SCRIPT, T_TAP_INTERNAL_KEY, T_TAP_MERKLE_ROOT,
    T_FINAL_SCRIPTSIG, T_FINAL_SCRIPTWITNESS]

  predicate HasType(t: byte, p: Pair) { p.key != [] && p.key[0] == t }

  predicate IsTyped(p: Pair) { p.key != [] && p.key[0] in TYPED }

  predicate IsUntyped(p: Pair) { !IsTyped(p) }

  lemma SplitKeyFirst(key: bytes)
    requires SplitKey(key).Ok?
    ensures key != []
    ensures key[0] <= 0xfc ==> SplitKey(key).value == KeyParts(key[0], key[1..])
    ensures key[0] > 0xfc ==> SplitKey(key).value.fieldType > 0xfc
  {}

  // ------------------------------------------------------------------ writing

  /** A field without key data, as the list of at most one pair it is written as. */
  function Single(value: Option<bytes>): seq<Pair> {
    match value
    case None => []
    case Some(v) => [Pair([], v)]
  }

  function NonEmpty(value: Option<bytes>): Option<bytes> {
    if value == Some([]) then None else value
  }

  function TxValue(tx: Option<Tx>): Option<bytes> {
    match tx
    case None => None
    case Some(t) => Some(WireBytes(t))
  }

  function OutValue(o: Option<TxOut>): Option<bytes> {
    match o
    case None => None
    case Some(v) => Some(OutBytes(v))
  }

  function NumberValue(n: Option<u32>): Option<bytes> {
    match n
    case None => None
    case Some(v) => Some(LE(v, 4))
  }

  /** The entries of one field type, keyed by key data. */
  function ListOf(i: Input, t: byte): seq<Pair> {
    if t == T_NON_WITNESS_UTXO then Single(TxValue(i.nonWitnessUtxo))
    else if t == T_WITNESS_UTXO then Single(OutValue(i.witnessUtxo))
    else if t == T_PARTIAL_SIG then i.partialSigs
    else if t == T_SIGHASH_TYPE then Single(NumberValue(i.sighashType))
    else if t == T_REDEEM_SCRIPT then Single(i.redeemScript)
    else if t == T_WITNESS_SCRIPT then Single(i.witnessScript)
    else if t == T_TAP_SCRIPT_SIG then i.tapScriptSigs
    else if t == T_TAP_LEAF_SCRIPT then i.tapLeafScripts
    else if t == T_TAP_INTERNAL_KEY then Single(i.tapInternalKey)
    else if t == T_TAP_MERKLE_ROOT then Single(i.tapMerkleRoot)
    else if t == T_FINAL_SCRIPTSIG then Single(NonEmpty(i.finalScriptSig))
    else if t == T_FINAL_SCRIPTWITNESS then Single(NonEmpty(i.finalScriptWitness))
    else []
  }

  function TypedPairs(i: Input, types: seq<byte>): seq<Pair> {
    if types == [] then [] else WithType(types[0], ListOf(i, types[0])) + TypedPairs(i, types[1..])
  }

  function InputPairs(i: Input): seq<Pair> { TypedPairs(i, TYPED) + i.unknown }

  function GlobalPairs(p: Psbt): seq<Pair> { [Pair([T_UNSIGNED_TX], Stripped(p.unsignedTx))] + p.unknownGlobal }

  function InputMapBytes(i: Input): bytes { MapBytes(InputPairs(i)) }

  function Serialize(p: Psbt): bytes {
    MAGIC + (MapBytes(GlobalPairs(p)) + (Flat(InputMapBytes, p.inputs) + Flat(MapBytes, p.outputs)))
  }

  // ------------------------------------------------------------------ parsing

  function ParseWitnessUtxo(value: bytes): Result<TxOut, Error> {
    var o :- ReadOut(value);
    if o.rest != [] then Err(InvalidFieldValue) else Ok(o.value)
  }

  predicate PubKeyLength(keydata: bytes) { |keydata| == 33 || |keydata| == 65 }

  /** One entry of an input map, interpreted. */
  datatype Entry =
    | NonWitnessUtxo(tx: Tx) | WitnessUtxo(utxo: TxOut) | PartialSig(sig: Pair) | SighashType(n: u32)
    | RedeemScript(redeem: bytes) | WitnessScript(script: bytes)
    | FinalScriptSig(scriptSig: bytes) | FinalScriptWitness(stack: bytes)
    | TapScriptSig(tapSig: Pair) | TapLeafScript(leaf: Pair)
    | TapInternalKey(internalKey: bytes) | TapMerkleRoot(root: bytes) | Unknown(entry: Pair)

  function ReadField(p: Pair): Result<Entry, Error> {
    var key :- SplitKey(p.key);
    if key.fieldType > 0xff then Ok(Unknown(p)) else ReadTypedField(key.fieldType, key.keydata, p)
  }

  function ReadTypedField(t: nat, keydata: bytes, p: Pair): Result<Entry, Error> {
    if t == T_NON_WITNESS_UTXO then
      if keydata != [] then Err(InvalidKeyLength(t))
      else match ParseTx(p.value, true)
        case Err(_) => Err(InvalidFieldValue)
        case Ok(tx) => Ok(NonWitnessUtxo(tx))
    else if t == T_WITNESS_UTXO then
      if keydata != [] then Err(InvalidKeyLength(t))
      else
        var o :- ParseWitnessUtxo(p.value);
        Ok(WitnessUtxo(o))
    else if t == T_PARTIAL_SIG then
      if !PubKeyLength(keydata) then Err(InvalidKeyLength(t)) else Ok(PartialSig(Pair(keydata, p.value)))
    else if t == T_SIGHASH_TYPE then
      if keydata != [] then Err(InvalidKeyLength(t))
      else if |p.value| != 4 then Err(InvalidFieldValue)
      else Ok(SighashType(Number32(p.value)))
    else if t == T_REDEEM_SCRIPT then
      if keydata != [] then Err(InvalidKeyLength(t)) else Ok(RedeemScript(p.value))
    else if t == T_WITNESS_SCRIPT then
      if keydata != [] then Err(InvalidKeyLength(t)) else Ok(WitnessScript(p.value))
    else if t == T_BIP32_DERIVATION then
      if !PubKeyLength(keydata) then Err(InvalidKeyLength(t)) else Ok(Unknown(p))
    else if t == T_FINAL_SCRIPTSIG then
      if keydata != [] then Err(InvalidKeyLength(t)) else Ok(FinalScriptSig(p.value))
    else if t == T_FINAL_SCRIPTWITNESS then
      if keydata != [] then Err(InvalidKeyLength(t)) else Ok(FinalScriptWitness(p.value))
    else if t == T_TAP_SCRIPT_SIG then
      if |keydata| != 64 then Err(InvalidKeyLength(t)) else Ok(TapScriptSig(Pair(keydata, p.value)))
    else if t == T_TAP_LEAF_SCRIPT then
      if |keydata| != 33 then Err(InvalidKeyLength(t))
      else if p.value == [] then Err(InvalidFieldValue)
      else Ok(TapLeafScript(Pair(keydata, p.value)))
    else if t == T_TAP_INTERNAL_KEY then
      if keydata != [] then Err(InvalidKeyLength(t))
      else if |p.value| != 32 then Err(InvalidFieldValue)
      else Ok(TapInternalKey(p.value))
    else if t == T_TAP_MERKLE_ROOT then
      if keydata != [] then Err(InvalidKeyLength(t))
      else if |p.value| != 32 then Err(InvalidFieldValue)
      else Ok(TapMerkleRoot(p.value))
    else Ok(Unknown(p))
  }

  function Number32(value: bytes): u32
    requires |value| == 4
  {
    Pow256Values();
    LEOfFromLE(value);
    FromLE(value)
  }

  function Put(i: Input, e: Entry): Input {
    match e
    case NonWitnessUtxo(tx) => i.(nonWitnessUtxo := Some(tx))
    case WitnessUtxo(o) => i.(witnessUtxo := Some(o))
    case PartialSig(p) => i.(partialSigs := i.partialSigs + [p])
    case SighashType(n) => i.(sighashType := Some(n))
    case RedeemScript(s) => i.(redeemScript := Some(s))
    case WitnessScript(s) => i.(witnessScript := Some(s))
    case FinalScriptSig(s) => i.(finalScriptSig := Some(s))
    case FinalScriptWitness(s) => i.(finalScriptWitness := Some(s))
    case TapScriptSig(p) => i.(tapScriptSigs := i.tapScriptSigs + [p])
    case TapLeafScript(p) => i.(tapLeafScripts := i.tapLeafScripts + [p])
    case TapInternalKey(k) => i.(tapInternalKey := Some(k))
    case TapMerkleRoot(r) => i.(tapMerkleRoot := Some(r))
    case Unknown(p) => i.(unknown := i.unknown + [p])
  }

  /** Interpret an input map, entry by entry. */
  function ParseInputMap(ps: seq<Pair>): Result<Input, Error> {
    if ps == [] then Ok(EMPTY_INPUT)
    else
      var i :- ParseInputMap(ps[..|ps| - 1]);
      var e :- ReadField(ps[|ps| - 1]);
      Ok(Put(i, e))
  }

  /** Whether an entry may stand in an output map, or why not. */
  function CheckOutputField(p: Pair): Result<Pair, Error> {
    var key :- SplitKey(p.key);
    var t, keydata := key.fieldType, key.keydata;
    if (t == 0x00 || t == 0x01) && keydata != [] then Err(InvalidKeyLength(t))
    else if t == 0x02 && !PubKeyLength(keydata) then Err(InvalidKeyLength(t))
    else Ok(p)
  }

  function ParseOutputMap(ps: seq<Pair>): Result<seq<Pair>, Error> {
    if ps == [] then Ok([])
    else
      var out :- ParseOutputMap(ps[..|ps| - 1]);
      var p :- CheckOutputField(ps[|ps| - 1]);
      Ok(out + [p])
  }

  datatype Global = Global(version: nat, unsignedTx: Option<Tx>, unknown: seq<Pair>)

  predicate Unsigned(tx: Tx) {
    tx.vout != [] && forall i :: 0 <= i < |tx.vin| ==> tx.vin[i].script == []
  }

  /** One entry of the global map, interpreted. */
  datatype GlobalEntry = UnsignedTx(tx: Tx) | VersionZero | Other(entry: Pair)

  function ReadGlobalField(p: Pair): Result<GlobalEntry, Error> {
    var key :- SplitKey(p.key);
    var t, keydata := key.fieldType, key.keydata;
    if t > 0xff then Ok(Other(p))
    else if t == T_UNSIGNED_TX then
      if keydata != [] then Err(InvalidKeyLength(t))
      else match ParseTx(p.value, false)
        case Err(_) => Err(InvalidUnsignedTx)
        case Ok(tx) => if !Unsigned(tx) then Err(InvalidUnsignedTx) else Ok(UnsignedTx(tx))
    else if t == T_VERSION then
      if keydata != [] then Err(InvalidKeyLength(t))
      else if |p.value| != 4 then Err(InvalidFieldValue)
      else if FromLE(p.value) != 0 then Err(UnsupportedVersion(FromLE(p.value)))
      else Ok(VersionZero)
    else if t == T_GLOBAL_XPUB && |keydata| != 78 then Err(InvalidKeyLength(t))
    else Ok(Other(p))
  }

  function PutGlobal(g: Global, e: GlobalEntry): Global {
    match e
    case UnsignedTx(tx) => g.(unsignedTx := Some(tx))
    case VersionZero => g.(version := 0)
    case Other(p) => g.(unknown := g.unknown + [p])
  }

  function ParseGlobalMap(ps: seq<Pair>): Result<Global, Error> {
    if ps == [] then Ok(Global(0, None, []))
    else
      var g :- ParseGlobalMap(ps[..|ps| - 1]);
      var e :- ReadGlobalField(ps[|ps| - 1]);
      Ok(PutGlobal(g, e))
  }

  function ReadInputMap(b: bytes): Reading<Input> {
    if b == [] then Err(MapCountMismatch)
    else
      var ps :- ReadPairs(b, {});
      var i :- ParseInputMap(ps.value);
      Ok(Parsed(i, ps.rest))
  }

  function ReadOutputMap(b: bytes): Reading<seq<Pair>> {
    if b == [] then Err(MapCountMismatch)
    else
      var ps :- ReadPairs(b, {});
      var o :- ParseOutputMap(ps.value);
      Ok(Parsed(o, ps.rest))
  }

  predicate AllZero(b: bytes) { forall i :: 0 <= i < |b| ==> b[i] == 0 }

  function ParsePsbt(data: bytes): Result<Psbt, Error> {
    if |data| > PSBT_MAX_SIZE then Err(TooLarge)
    else if |data| < |MAGIC| || data[..|MAGIC|] != MAGIC then Err(InvalidMagic)
    else ParseMaps(data, data[|MAGIC|..])
  }

  /** The maps behind the magic. The tail test looks at `data` from the position
      the reader has in `body`, as the code does. */
  function ParseMaps(data: bytes, body: bytes): Result<Psbt, Error> {
    var pairs :- ReadPairs(body, {});
    var global :- ParseGlobalMap(pairs.value);
    if global.unsignedTx.None? then Err(MissingUnsignedTx)
    else
      var tx := global.unsignedTx.value;
      var inputs :- ReadMany(ReadInputMap, pairs.rest, |tx.vin|);
      var outputs :- ReadMany(ReadOutputMap, inputs.rest, |tx.vout|);
      if outputs.rest == [] then Ok(Psbt(global.version, tx, inputs.value, outputs.value, global.unknown))
      else
        var pos := |body| - |outputs.rest|;
        if 0 <= pos <= |data| && AllZero(data[pos..]) then Err(Truncated) else Err(MapCountMismatch)
  }
}
