/** Addresses and the lock scripts they stand for. */
module Addresses {
  import opened Bytes
  import opened Scripts
  import opened Multisig
  import opened Sighashes
  import opened Signing
  import opened Regrouping
  import opened Bech32
  import B = Bech32Codec

  type Text = B.Text

  /** The base58check codec. */
  datatype Base58 = Base58(encode: bytes -> Text, decode: Text -> Option<bytes>)

  /** The payloads of legacy addresses: a version byte and a hash of 20 bytes. */
  predicate LegacyPayload(payload: bytes) { |payload| == 21 && payload[0] in {0x00, 0x05} }

  /** What is relied on: for those payloads decoding undoes encoding, and the text does
      not start like a SegWit address. Neither is asked of any other payload. */
  ghost predicate Sound(b58: Base58) {
    forall payload :: LegacyPayload(payload) ==>
      b58.decode(b58.encode(payload)) == Some(payload) && !HasSegwitPrefix(b58.encode(payload))
  }

  datatype AddressError =
    | Malformed(e: B.CodecError) | InvalidHrp | InvalidProgramLength(length: nat) | UnsupportedProgram
    | UnknownVersion(version: nat) | BadBase58 | NotSupported | ScriptTooLong

  const HRP: Text := [0x62, 0x63]

  predicate HasSegwitPrefix(a: Text) {
    |a| >= 3 && (a[..3] == [0x62, 0x63, 0x31] || a[..3] == [0x42, 0x43, 0x31])
  }

  // ------------------------------------------------------------------ the builders

  lemma HrpAscii()
    ensures B.Ascii(HRP) && B.LegalHrp(HRP)
  {}

  function SegwitAddress(version: Five, program: bytes, e: Encoding): Result<Text, B.CodecError> {
    HrpAscii();
    B.Encode(HRP, e, [version] + ToFive(program))
  }

  /** The witness programs that the wallet builds addresses for. */
  datatype Program = KeyHash(hash: Hash20) | ScriptHash(sha: Hash32) | OutputKey(key: Hash32)

  function VersionOf(w: Program): Five { if w.OutputKey? then 1 else 0 }

  function BytesOf(w: Program): bytes {
    match w
    case KeyHash(h) => h
    case ScriptHash(h) => h
    case OutputKey(k) => k
  }

  function EncodingOf(w: Program): Encoding { if w.OutputKey? then Modified else Classic }

  function ScriptOf(w: Program): bytes {
    match w
    case KeyHash(h) => P2wpkhScript(h)
    case ScriptHash(h) => P2wshScript(h)
    case OutputKey(k) => P2trScript(k)
  }

  function ProgramAddress(w: Program): Result<Text, B.CodecError> { SegwitAddress(VersionOf(w), BytesOf(w), EncodingOf(w)) }

  // ------------------------------------------------------------------ the decoders

  datatype Payload = Payload(version: Five, program: bytes, encoding: Encoding)

  function AsBytes(v: seq<nat>): (b: bytes)
    requires Below(v, 256)
    ensures b == v
  {
    assert forall i :: 0 <= i < |v| ==> v[i] in v;
    seq(|v|, i requires 0 <= i < |v| => v[i])
  }

  /** The part the three decoders share. */
  function ReadPayload(address: Text): Result<Payload, AddressError> {
    match B.Decode(address)
    case Err(e) => Err(Malformed(e))
    case Ok(d) =>
      if d.hrp != HRP then Err(InvalidHrp)
      else if d.data == [] then Err(Malformed(B.InvalidStructure))
      else match FromFive(d.data[1..])
        case None => Err(Malformed(B.InvalidStructure))
        case Some(program) =>
          ToFiveOfFromFive(d.data[1..]);
          Ok(Payload(d.data[0], AsBytes(program), d.encoding))
  }

  function DecodeSegwit(address: Text): Result<Payload, AddressError> {
    var p :- ReadPayload(address);
    var length := |p.program|;
    if length < 2 || length > 40 then Err(InvalidProgramLength(length))
    else if p.version > 16 then Err(UnknownVersion(p.version))
    else if p.version == 0 && length != 20 && length != 32 then Err(InvalidProgramLength(length))
    else if p.version == 0 && p.encoding != Classic then Err(Malformed(B.InvalidChecksum))
    else if p.version != 0 && p.encoding != Modified then Err(Malformed(B.InvalidChecksum))
    else if p.version == 0 && length == 32 then Err(UnsupportedProgram)
    else if p.version > 1 then Err(UnknownVersion(p.version))
    else Ok(p)
  }

  function DecodeExactly(address: Text, version: Five, encoding: Encoding): Result<Payload, AddressError> {
    var p :- ReadPayload(address);
    if p.version != version || |p.program| != 32 then Err(UnsupportedProgram)
    else if p.encoding != encoding then Err(Malformed(B.InvalidChecksum))
    else Ok(p)
  }

  function DecodeP2wsh(address: Text): Result<Payload, AddressError> { DecodeExactly(address, 0, Classic) }

  function DecodeTaproot(address: Text): Result<Payload, AddressError> { DecodeExactly(address, 1, Modified) }

  function SegwitLockScript(address: Text): Result<bytes, AddressError> {
    match DecodeP2wsh(address)
    case Ok(p) => Ok(P2wshScript(p.program))
    case Err(UnsupportedProgram) =>
      var p :- DecodeSegwit(address);
      if p.version == 0 then Ok(P2wpkhScript(p.program))
      else if |p.program| != 32 then Err(InvalidProgramLength(|p.program|))
      else Ok(P2trScript(p.program))
    case Err(e) => Err(e)
  }

  /** The base58 branch takes the hash as it is, whatever its length. */
  function LegacyLockScript(b58: Base58, address: Text): Result<bytes, AddressError> {
    match b58.decode(address)
    case None => Err(BadBase58)
    case Some(data) =>
      if data == [] then Err(BadBase58)
      else match InlinePushes([data[1..]])
        case Err(_) => if data[0] == 0x00 || data[0] == 0x05 then Err(ScriptTooLong) else Err(NotSupported)
        case Ok(push) =>
          if data[0] == 0x00 then Ok([OP_DUP, OP_HASH160] + push + [OP_EQUALVERIFY, OP_CHECKSIG])
          else if data[0] == 0x05 then Ok([OP_HASH160] + push + [OP_EQUAL])
          else Err(NotSupported)
  }

  function LockScript(b58: Base58, address: Text): Result<bytes, AddressError> {
    if HasSegwitPrefix(address) then SegwitLockScript(address) else LegacyLockScript(b58, address)
  }

  // --------------------------------------------------------- addresses and scripts agree

  lemma FiveGroups(program: bytes)
    requires |program| <= 32
    ensures Below(ToFive(program), 32) && |ToFive(program)| <= 52
  {
    FromFiveOfToFive(program);
    var b := Spread(program, 8);
    SpreadLength(program);
    PadArithmetic(|b|);
    Pow2Values();
    SpreadOfCut(Padded(b), 5);
    SpreadLength(ToFive(program));
    hide Spread, Cut, FromFive, PadLength;
  }

  lemma AddressEncodes(version: Five, program: bytes, e: Encoding)
    requires |program| <= 32
    ensures SegwitAddress(version, program, e).Ok?
    ensures B.Decode(SegwitAddress(version, program, e).value).Ok?
    ensures var d := B.Decode(SegwitAddress(version, program, e).value).value;
      d.hrp == HRP && d.encoding == e && d.data == [version] + ToFive(program)
    ensures SegwitAddress(version, program, e).value[..2] == HRP
    ensures |SegwitAddress(version, program, e).value| >= 3 && SegwitAddress(version, program, e).value[2] == 0x31
  {
    hide B.Encode, B.Decode, B.Checksum, ToFive, B.ToFives, B.Chars;
    FiveGroups(program);
    HrpAscii();
    var data := [version] + ToFive(program);
    assert forall v :: v in data ==> v == version || v in ToFive(program);
    assert forall j :: 0 <= j < |data| ==> data[j] in data;
    B.ToFivesAll(data);
    B.EncodeJoined(HRP, e, data);
    B.DecodeOfEncode(HRP, e, data);
  }

  lemma ReadPayloadOfAddress(version: Five, program: bytes, e: Encoding)
    requires |program| <= 32
    ensures SegwitAddress(version, program, e).Ok?
    ensures ReadPayload(SegwitAddress(version, program, e).value) == Ok(Payload(version, program, e))
    ensures HasSegwitPrefix(SegwitAddress(version, program, e).value)
  {
    hide B.Decode, ToFive, FromFive, SegwitAddress;
    AddressEncodes(version, program, e);
    FiveGroups(program);
    FromFiveOfToFive(program);
    var data := [version] + ToFive(program);
    assert data[1..] == ToFive(program);
    var a := SegwitAddress(version, program, e).value;
    assert a[..3] == a[..2] + [a[2]];
  }

  /** Every address the wallet builds for a witness program stands for the script of
      that program. */
  lemma LockScriptOfAddress(b58: Base58, w: Program)
    ensures ProgramAddress(w).Ok? && LockScript(b58, ProgramAddress(w).value) == Ok(ScriptOf(w))
  {
    hide ReadPayload, SegwitAddress, HasSegwitPrefix;
    ReadPayloadOfAddress(VersionOf(w), BytesOf(w), EncodingOf(w));
  }

  /** A payload that reads back is the address of its parts, in lower case. */
  lemma AddressOfPayload(address: Text)
    requires ReadPayload(address).Ok?
    ensures var p := ReadPayload(address).value; SegwitAddress(p.version, p.program, p.encoding) == Ok(B.Lower(address))
  {
    hide B.Decode, B.Encode, ToFive, FromFive, B.Lower;
    B.EncodeOfDecode(address);
    var d := B.Decode(address).value;
    ToFiveOfFromFive(d.data[1..]);
    assert d.data == [d.data[0]] + d.data[1..];
  }

  /** Conversely a SegWit address that has a lock script is the address of exactly one
      witness program, up to case, and the script is that program's. */
  lemma LockScriptIsOfProgram(b58: Base58, address: Text) returns (w: Program)
    requires HasSegwitPrefix(address) && LockScript(b58, address).Ok?
    ensures LockScript(b58, address) == Ok(ScriptOf(w)) && ProgramAddress(w) == Ok(B.Lower(address))
  {
    hide ReadPayload, SegwitAddress, B.Lower;
    AddressOfPayload(address);
    var p := ReadPayload(address).value;
    if DecodeP2wsh(address).Ok? {
      w := ScriptHash(p.program);
    } else if p.version == 0 {
      w := KeyHash(p.program);
    } else {
      w := OutputKey(p.program);
    }
  }

  lemma ScriptOfInjective(a: Program, b: Program)
    requires ScriptOf(a) == ScriptOf(b)
    ensures a == b
  {
    assert ScriptOf(a)[2..] == BytesOf(a) && ScriptOf(b)[2..] == BytesOf(b);
    assert |ScriptOf(a)| == 2 + |BytesOf(a)| && |ScriptOf(b)| == 2 + |BytesOf(b)|;
  }

  /** The strict decoders read back every address of their kind, and whatever else they
      accept is such an address in another case. */
  lemma StrictDecoders(h: Hash32, address: Text)
    ensures ProgramAddress(ScriptHash(h)).Ok? && ProgramAddress(OutputKey(h)).Ok?
    ensures DecodeP2wsh(ProgramAddress(ScriptHash(h)).value) == Ok(Payload(0, h, Classic))
    ensures DecodeTaproot(ProgramAddress(OutputKey(h)).value) == Ok(Payload(1, h, Modified))
    ensures DecodeP2wsh(address).Ok? ==>
      |DecodeP2wsh(address).value.program| == 32
      && ProgramAddress(ScriptHash(DecodeP2wsh(address).value.program)) == Ok(B.Lower(address))
    ensures DecodeTaproot(address).Ok? ==>
      |DecodeTaproot(address).value.program| == 32
      && ProgramAddress(OutputKey(DecodeTaproot(address).value.program)) == Ok(B.Lower(address))
  {
    hide ReadPayload, SegwitAddress, B.Lower;
    ReadPayloadOfAddress(0, h, Classic);
    ReadPayloadOfAddress(1, h, Modified);
    if ReadPayload(address).Ok? { AddressOfPayload(address); }
  }

  /** Two SegWit addresses with the same script differ in case only. */
  lemma LockScriptInjective(b58: Base58, a: Text, b: Text)
    requires HasSegwitPrefix(a) && HasSegwitPrefix(b)
    requires LockScript(b58, a).Ok? && LockScript(b58, a) == LockScript(b58, b)
    ensures B.Lower(a) == B.Lower(b)
  {
    hide LockScript, HasSegwitPrefix, ScriptOf, ProgramAddress, B.Lower;
    var v := LockScriptIsOfProgram(b58, a);
    var w := LockScriptIsOfProgram(b58, b);
    ScriptOfInjective(v, w);
  }

  // --------------------------------------------------------------- own addresses

  datatype AddrType = LegacyType | Native | Taproot

  function P2pkhAddress(c: Crypto, b58: Base58, key: PubKey): Text { b58.encode([0x00] + c.hash160(key)) }

  function KeyAddress(c: Crypto, b58: Base58, t: AddrType, key: PubKey): Result<Text, AddressError> {
    match t
    case LegacyType => Ok(P2pkhAddress(c, b58, key))
    case Native => Lifted(ProgramAddress(KeyHash(c.hash160(key))))
    case Taproot =>
      match c.outputKey(XOnly(key))
      case None => Err(NotSupported)
      case Some(k) => Lifted(ProgramAddress(OutputKey(k)))
  }

  function Lifted(r: Result<Text, B.CodecError>): Result<Text, AddressError> {
    match r
    case Ok(t) => Ok(t)
    case Err(e) => Err(Malformed(e))
  }

  lemma InlineOne(h: bytes)
    requires |h| < 0x4c
    ensures InlinePushes([h]) == Ok([|h|] + h)
  {
    var items := [h];
    assert items[1..] == [];
    assert [|h|] + h + [] == [|h|] + h;
  }

  lemma LegacyLockScriptOf(b58: Base58, payload: bytes)
    requires Sound(b58) && LegacyPayload(payload)
    ensures payload[0] == 0x00 ==> LockScript(b58, b58.encode(payload)) == Ok(P2pkhScript(payload[1..]))
    ensures payload[0] == 0x05 ==> LockScript(b58, b58.encode(payload)) == Ok(P2shScript(payload[1..]))
  {
    var h := payload[1..];
    InlineOne(h);
    assert [OP_DUP, OP_HASH160] + ([20] + h) == [OP_DUP, OP_HASH160, 20] + h;
    assert [OP_HASH160] + ([20] + h) == [OP_HASH160, 20] + h;
    hide InlinePushes;
  }

  /** What is paid to one of a key's own addresses, that key can sign for. */
  lemma OwnAddressIsOwn(c: Crypto, b58: Base58, t: AddrType, key: PubKey)
    requires (t.LegacyType? ==> Sound(b58)) && KeyAddress(c, b58, t, key).Ok?
    ensures LockScript(b58, KeyAddress(c, b58, t, key).value).Ok?
    ensures OwnForm(c, LockScript(b58, KeyAddress(c, b58, t, key).value).value, key).Some?
  {
    hide LockScript, ProgramAddress, Sound, FormOfScript;
    var hash := c.hash160(key);
    match t
    case LegacyType =>
      LegacyLockScriptOf(b58, [0x00] + hash);
      assert ([0x00] + hash)[1..] == hash;
      FormOfScriptInverse(P2pkhScript(hash), Legacy(hash));
    case Native =>
      LockScriptOfAddress(b58, KeyHash(hash));
      FormOfScriptInverse(P2wpkhScript(hash), P2wpkh(hash));
    case Taproot =>
      var k := c.outputKey(XOnly(key)).value;
      LockScriptOfAddress(b58, OutputKey(k));
      FormOfScriptInverse(P2trScript(k), P2tr(k));
  }

  // -------------------------------------------------------------- quorum addresses

  datatype MsForm = MsP2sh | MsP2wsh | MsP2tr

  datatype MsError = KeyCountMismatch(expected: nat, got: nat) | QuorumBounds | DuplicateKey | BadAddress

  datatype QuorumAddress = QuorumAddress(address: Text, redeem: bytes)

  function RedeemAddress(c: Crypto, b58: Base58, redeem: bytes, form: MsForm): Result<Text, B.CodecError> {
    match form
    case MsP2sh => Ok(b58.encode([0x05] + c.hash160(redeem)))
    case MsP2wsh => ProgramAddress(ScriptHash(c.sha256(redeem)))
    case MsP2tr => ProgramAddress(OutputKey(c.tapscriptOutputKey(LeafHash(c, redeem))))
  }

  function QuorumLockScript(c: Crypto, redeem: bytes, form: MsForm): bytes {
    match form
    case MsP2sh => P2shScript(c.hash160(redeem))
    case MsP2wsh => P2wshScript(c.sha256(redeem))
    case MsP2tr => P2trScript(c.tapscriptOutputKey(LeafHash(c, redeem)))
  }

  /** The change of a quorum spend returns to exactly the script of its inputs. */
  lemma QuorumChangeScript(c: Crypto, b58: Base58, redeem: bytes, form: MsForm)
    requires form.MsP2sh? ==> Sound(b58)
    ensures RedeemAddress(c, b58, redeem, form).Ok?
    ensures LockScript(b58, RedeemAddress(c, b58, redeem, form).value) == Ok(QuorumLockScript(c, redeem, form))
  {
    hide LockScript, ProgramAddress, Sound;
    match form
    case MsP2sh =>
      var hash := c.hash160(redeem);
      LegacyLockScriptOf(b58, [0x05] + hash);
      assert ([0x05] + hash)[1..] == hash;
    case MsP2wsh => LockScriptOfAddress(b58, ScriptHash(c.sha256(redeem)));
    case MsP2tr => LockScriptOfAddress(b58, OutputKey(c.tapscriptOutputKey(LeafHash(c, redeem))));
  }

  lemma RedeemAddressExists(c: Crypto, b58: Base58, redeem: bytes, form: MsForm)
    ensures RedeemAddress(c, b58, redeem, form).Ok?
  {
    hide LockScript, ProgramAddress;
    match form
    case MsP2sh =>
    case MsP2wsh => LockScriptOfAddress(b58, ScriptHash(c.sha256(redeem)));
    case MsP2tr => LockScriptOfAddress(b58, OutputKey(c.tapscriptOutputKey(LeafHash(c, redeem))));
  }

  function XOnlyKeys(keys: seq<PubKey>): seq<bytes> { MapSeq((k: PubKey) => k[1..33], keys) }

  function QuorumScript(m: nat, keys: seq<PubKey>, form: MsForm): Option<bytes> {
    if form.MsP2tr? then MakeTapscript(m, XOnlyKeys(keys)) else MakeRedeem(m, keys)
  }

  lemma SortKeysLengths(keys: seq<PubKey>)
    ensures forall k :: k in SortKeys(keys) ==> |k| == 33
  {
    SortKeysCorrect(keys);
  }

  function SortedPubKeys(keys: seq<PubKey>): (r: seq<PubKey>)
    ensures r == SortKeys(keys)
  {
    SortKeysLengths(keys);
    assert forall i :: 0 <= i < |keys| ==> SortKeys(keys)[i] in SortKeys(keys);
    seq(|keys|, i requires 0 <= i < |keys| => SortKeys(keys)[i])
  }

  function CreateQuorumAddress(c: Crypto, b58: Base58, n: nat, m: nat, keys: seq<PubKey>, form: MsForm)
      : Result<QuorumAddress, MsError>
  {
    if |keys| != n then Err(KeyCountMismatch(n, |keys|))
    else if m == 0 || m > n || n > MS_MAX_PUBKEYS then Err(QuorumBounds)
    else
      var sorted := SortedPubKeys(keys);
      if HasEqualNeighbours(sorted) then Err(MsError.DuplicateKey)
      else match QuorumScript(m, sorted, form)
        case None => Err(QuorumBounds)
        case Some(redeem) =>
          match RedeemAddress(c, b58, redeem, form)
          case Err(_) => Err(BadAddress)
          case Ok(address) => Ok(QuorumAddress(address, redeem))
  }

  /** The address and the script are fixed by the set of keys: no argument order
      changes them, in any form, nor the error. */
  lemma QuorumAddressPermutation(
      c: Crypto, b58: Base58, n: nat, m: nat, a: seq<PubKey>, b: seq<PubKey>, form: MsForm)
    requires multiset(a) == multiset(b)
    ensures CreateQuorumAddress(c, b58, n, m, a, form) == CreateQuorumAddress(c, b58, n, m, b, form)
  {
    hide QuorumScript, RedeemAddress, SortKeys, HasEqualNeighbours;
    SamePubKeys(a, b);
    SortKeysPermutation(a, b);
  }

  lemma SamePubKeys(a: seq<PubKey>, b: seq<PubKey>)
    requires multiset(a) == multiset(b)
    ensures |a| == |b|
  {
    assert |multiset(a)| == |a| && |multiset(b)| == |b|;
  }

  lemma LengthsOfPubKeys(keys: seq<PubKey>)
    ensures HasLength(keys, 33) && HasLength(XOnlyKeys(keys), 32)
  {}

  /** Exactly which quorums have an address. For the tapscript form the keys must
      differ in their x coordinates: two that differ in parity alone pass the duplicate
      check and are then reported as out of bounds. */
  lemma QuorumAddressExists(c: Crypto, b58: Base58, n: nat, m: nat, keys: seq<PubKey>, form: MsForm)
    ensures CreateQuorumAddress(c, b58, n, m, keys, form).Ok? <==>
      |keys| == n && InBounds(m, n) && DistinctKeys(keys)
      && (form.MsP2tr? ==> DistinctKeys(XOnlyKeys(SortedPubKeys(keys))))
    ensures (|keys| == n && InBounds(m, n) && DistinctKeys(keys)
             && form.MsP2tr? && !DistinctKeys(XOnlyKeys(SortedPubKeys(keys)))) ==>
      CreateQuorumAddress(c, b58, n, m, keys, form) == Err(QuorumBounds)
  {
    hide DistinctKeys, HasEqualNeighbours, SortKeys, RedeemAddress, QuorumScript, XOnlyKeys;
    var sorted := SortedPubKeys(keys);
    NeighboursFindDuplicates(keys);
    SortKeysDistinct(keys);
    QuorumScriptExists(m, sorted, form);
    if QuorumScript(m, sorted, form).Some? {
      RedeemAddressExists(c, b58, QuorumScript(m, sorted, form).value, form);
    }
  }

  /** Two keys of one x coordinate, a valid 1-of-2 by every check that is made, have an
      address in both other forms but none for P2TR. */
  lemma ParityTwinsHaveNoAddress(c: Crypto, b58: Base58, x: Hash32)
    ensures CreateQuorumAddress(c, b58, 2, 1, [[0x02] + x, [0x03] + x], MsP2tr) == Err(QuorumBounds)
    ensures CreateQuorumAddress(c, b58, 2, 1, [[0x02] + x, [0x03] + x], MsP2wsh).Ok?
    ensures CreateQuorumAddress(c, b58, 2, 1, [[0x02] + x, [0x03] + x], MsP2sh).Ok?
  {
    hide CreateQuorumAddress, SortKeys;
    var even: PubKey, odd: PubKey := [0x02] + x, [0x03] + x;
    var keys := [even, odd];
    assert even[0] != odd[0] && even[1..33] == x && odd[1..33] == x;
    QuorumAddressExists(c, b58, 2, 1, keys, MsP2tr);
    QuorumAddressExists(c, b58, 2, 1, keys, MsP2wsh);
    QuorumAddressExists(c, b58, 2, 1, keys, MsP2sh);
    SortKeysCorrect(keys);
    var sorted := SortedPubKeys(keys);
    assert sorted[0] in sorted && sorted[1] in sorted;
    assert XOnlyKeys(sorted)[0] == XOnlyKeys(sorted)[1];
  }

  lemma QuorumScriptExists(m: nat, keys: seq<PubKey>, form: MsForm)
    ensures QuorumScript(m, keys, form).Some? <==>
      InBounds(m, |keys|) && DistinctKeys(if form.MsP2tr? then XOnlyKeys(keys) else keys)
  {
    hide DistinctKeys, MakeRedeem, MakeTapscript;
    LengthsOfPubKeys(keys);
    MakeRedeemSucceeds(m, keys);
    MakeTapscriptSucceeds(m, XOnlyKeys(keys));
  }
}
