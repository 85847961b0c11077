/** The base64 transport encoding of a PSBT. Text is its sequence of bytes. */
module Base64 {
  import opened Bytes
  import opened Wire
  import opened Psbts
  import opened PsbtRoundTrip
  import opened PsbtStability

  /** The standard alphabet: A-Z, a-z, 0-9, '+', '/'. */
  function Alphabet(v: nat): byte
    requires v < 64
  {
    if v < 26 then 0x41 + v
    else if v < 52 then 0x61 + (v - 26)
    else if v < 62 then 0x30 + (v - 52)
    else if v == 62 then 0x2b else 0x2f
  }

  const PAD: byte := 0x3d

  /** The four characters of one group of at most three bytes. */
  function EncodeGroup(chunk: bytes): (r: bytes)
    requires 1 <= |chunk| <= 3
    ensures |r| == 4
  {
    var b1: nat := if |chunk| > 1 then chunk[1] else 0;
    var b2: nat := if |chunk| > 2 then chunk[2] else 0;
    var n := chunk[0] * 0x1_0000 + b1 * 0x100 + b2;
    [ Alphabet(n / 0x4_0000 % 64), Alphabet(n / 0x1000 % 64),
      if |chunk| > 1 then Alphabet(n / 0x40 % 64) else PAD,
      if |chunk| > 2 then Alphabet(n % 64) else PAD ]
  }

  function Encode(data: bytes): bytes {
    if data == [] then []
    else if |data| <= 3 then EncodeGroup(data)
    else EncodeGroup(data[..3]) + Encode(data[3..])
  }

  function ValueOf(c: byte): Result<nat, Error> {
    if 0x41 <= c <= 0x5a then Ok(c - 0x41)
    else if 0x61 <= c <= 0x7a then Ok(c - 0x61 + 26)
    else if 0x30 <= c <= 0x39 then Ok(c - 0x30 + 52)
    else if c == 0x2b then Ok(62)
    else if c == 0x2f then Ok(63)
    else Err(InvalidFieldValue)
  }

  /** The values read from a group so far, and how many of its characters are data. */
  datatype Group = Group(vals: seq<nat>, nData: nat)

  /** Padding shortens the group and counts as a zero digit. */
  function Step(g: Group, i: nat, c: byte): Result<Group, Error> {
    if c == PAD then Ok(Group(g.vals + [0], if i < g.nData then i else g.nData))
    else if i >= g.nData then Err(InvalidFieldValue)
    else
      var v :- ValueOf(c);
      Ok(Group(g.vals + [v], g.nData))
  }

  function Scan(quad: bytes, n: nat): (r: Result<Group, Error>)
    requires n <= |quad|
    ensures r.Ok? ==> |r.value.vals| == n
  {
    if n == 0 then Ok(Group([], 4))
    else
      var g :- Scan(quad, n - 1);
      Step(g, n - 1, quad[n - 1])
  }

  function Unpack(g: Group): Result<bytes, Error>
    requires |g.vals| == 4
  {
    if g.nData < 2 then Err(InvalidFieldValue)
    else
      var packed := g.vals[0] * 0x4_0000 + g.vals[1] * 0x1000 + g.vals[2] * 0x40 + g.vals[3];
      Ok([packed / 0x1_0000 % 256]
         + (if g.nData >= 3 then [packed / 0x100 % 256] else [])
         + (if g.nData >= 4 then [packed % 256] else []))
  }

  function DecodeGroup(quad: bytes): Result<bytes, Error>
    requires |quad| == 4
  {
    var g :- Scan(quad, 4);
    Unpack(g)
  }

  function DecodeGroups(text: bytes): Result<bytes, Error>
    requires |text| % 4 == 0
  {
    if text == [] then Ok([])
    else
      var head :- DecodeGroup(text[..4]);
      var tail :- DecodeGroups(text[4..]);
      Ok(head + tail)
  }

  predicate IsSpace(c: byte) { c == 0x20 || c == 0x09 || c == 0x0a || c == 0x0d || c == 0x0c }

  function Trim(text: bytes): (r: bytes)
    ensures |r| <= |text|
  {
    if text == [] then []
    else if IsSpace(text[0]) then Trim(text[1..])
    else if IsSpace(text[|text| - 1]) then Trim(text[..|text| - 1])
    else text
  }

  function Decode(text: bytes): Result<bytes, Error> {
    var trimmed := Trim(text);
    if |trimmed| % 4 != 0 then Err(InvalidFieldValue) else DecodeGroups(trimmed)
  }

  // ---------------------------------------------------------------- round trip

  lemma ValueOfAlphabet(v: nat)
    requires v < 64
    ensures ValueOf(Alphabet(v)) == Ok(v) && Alphabet(v) != PAD && !IsSpace(Alphabet(v))
  {}

  lemma {:induction false} ScanOfGroup(quad: bytes, vals: seq<nat>, nData: nat, n: nat)
    requires |quad| == |vals| == 4 && 2 <= nData <= 4 && n <= 4
    requires forall i :: 0 <= i < nData ==> ValueOf(quad[i]) == Ok(vals[i]) && quad[i] != PAD
    requires forall i :: nData <= i < 4 ==> quad[i] == PAD && vals[i] == 0
    ensures Scan(quad, n) == Ok(Group(vals[..n], if n <= nData then 4 else nData))
  {
    if n > 0 {
      ScanOfGroup(quad, vals, nData, n - 1);
      assert vals[..n] == vals[..n - 1] + [vals[n - 1]];
    }
  }

  lemma Halve(n: nat)
    ensures n / 0x1000 == n / 0x40 / 0x40 && n / 0x4_0000 == n / 0x1000 / 0x40
  {}

  /** Four 6-bit digits make up their number. */
  lemma Digits(n: nat)
    requires n < 0x100_0000
    ensures n / 0x4_0000 % 64 * 0x4_0000 + n / 0x1000 % 64 * 0x1000 + n / 0x40 % 64 * 0x40 + n % 64 == n
  {
    Halve(n);
    var q1 := n / 0x40;
    var q2 := q1 / 0x40;
    var q3 := q2 / 0x40;
    assert n == q1 * 64 + n % 64 && q1 == q2 * 64 + q1 % 64 && q2 == q3 * 64 + q2 % 64;
    assert q3 % 64 == q3;
  }

  lemma Bytes3(b0: byte, b1: byte, b2: byte)
    ensures var n: nat := b0 * 0x1_0000 + b1 * 0x100 + b2;
      n < 0x100_0000 && n / 0x1_0000 % 256 == b0 && n / 0x100 % 256 == b1 && n % 256 == b2
  {}

  /** The digits cut off by padding are zero. */
  lemma PaddedDigits(b0: byte, b1: byte)
    ensures (b0 * 0x1_0000 + b1 * 0x100) % 64 == 0
    ensures b0 * 0x1_0000 / 0x40 % 64 == 0
  {
    assert b0 * 0x1_0000 / 0x40 == b0 * 0x400;
  }

  lemma DecodeOfGroup(chunk: bytes)
    requires 1 <= |chunk| <= 3
    ensures DecodeGroup(EncodeGroup(chunk)) == Ok(chunk)
  {
    hide Alphabet, ValueOf, Scan, Unpack;
    var b1: nat := if |chunk| > 1 then chunk[1] else 0;
    var b2: nat := if |chunk| > 2 then chunk[2] else 0;
    var n := chunk[0] * 0x1_0000 + b1 * 0x100 + b2;
    var d0, d1, d2, d3 := n / 0x4_0000 % 64, n / 0x1000 % 64, n / 0x40 % 64, n % 64;
    var vals := [d0, d1, d2, d3];
    Bytes3(chunk[0], b1, b2);
    Digits(n);
    PaddedDigits(chunk[0], b1);
    ValueOfAlphabet(d0);
    ValueOfAlphabet(d1);
    ValueOfAlphabet(d2);
    ValueOfAlphabet(d3);
    ScanOfGroup(EncodeGroup(chunk), vals, |chunk| + 1, 4);
    assert vals[..4] == vals;
    UnpackDigits(chunk, n, vals);
  }

  lemma UnpackDigits(chunk: bytes, n: nat, vals: seq<nat>)
    requires 1 <= |chunk| <= 3 && |vals| == 4
    requires vals[0] * 0x4_0000 + vals[1] * 0x1000 + vals[2] * 0x40 + vals[3] == n
    requires n / 0x1_0000 % 256 == chunk[0]
    requires |chunk| > 1 ==> n / 0x100 % 256 == chunk[1]
    requires |chunk| > 2 ==> n % 256 == chunk[2]
    ensures Unpack(Group(vals, |chunk| + 1)) == Ok(chunk)
  {
    if |chunk| == 1 {
      assert chunk == [chunk[0]] + [] + [];
    } else if |chunk| == 2 {
      assert chunk == [chunk[0]] + [chunk[1]] + [];
    } else {
      assert chunk == [chunk[0]] + [chunk[1]] + [chunk[2]];
    }
  }

  lemma DecodeGroupsStep(g: bytes, rest: bytes, chunk: bytes, tail: bytes)
    requires |g| == 4 && |rest| % 4 == 0
    requires DecodeGroup(g) == Ok(chunk) && DecodeGroups(rest) == Ok(tail)
    ensures DecodeGroups(g + rest) == Ok(chunk + tail)
  {
    assert (g + rest)[..4] == g && (g + rest)[4..] == rest;
  }

  lemma EncodeSplit(data: bytes, k: nat)
    requires data != [] && k == if |data| <= 3 then |data| else 3
    ensures Encode(data) == EncodeGroup(data[..k]) + Encode(data[k..])
  {
    if |data| <= 3 {
      assert data[..k] == data && data[k..] == [];
      assert EncodeGroup(data) + [] == EncodeGroup(data);
    }
  }

  lemma {:induction false} DecodeGroupsOfEncode(data: bytes)
    ensures |Encode(data)| % 4 == 0
    ensures DecodeGroups(Encode(data)) == Ok(data)
  {
    hide EncodeGroup, DecodeGroup;
    if data != [] {
      var k := if |data| <= 3 then |data| else 3;
      var head, tail := data[..k], data[k..];
      EncodeSplit(data, k);
      DecodeOfGroup(head);
      DecodeGroupsOfEncode(tail);
      DecodeGroupsStep(EncodeGroup(head), Encode(tail), head, tail);
      assert head + tail == data;
    }
  }

  predicate NoSpaces(text: bytes) { forall c :: c in text ==> !IsSpace(c) }

  lemma GroupNoSpaces(chunk: bytes)
    requires 1 <= |chunk| <= 3
    ensures NoSpaces(EncodeGroup(chunk))
  {
    forall v: nat | v < 64
      ensures !IsSpace(Alphabet(v))
    {
      ValueOfAlphabet(v);
    }
  }

  lemma {:induction false} EncodeNoSpaces(data: bytes)
    ensures NoSpaces(Encode(data))
  {
    if data == [] {
    } else if |data| <= 3 {
      GroupNoSpaces(data);
    } else {
      GroupNoSpaces(data[..3]);
      EncodeNoSpaces(data[3..]);
    }
  }

  lemma TrimOfNoSpaces(text: bytes)
    requires NoSpaces(text)
    ensures Trim(text) == text
  {}

  /** Decoding undoes encoding, for every byte string. */
  lemma DecodeOfEncode(data: bytes)
    ensures Decode(Encode(data)) == Ok(data)
  {
    EncodeNoSpaces(data);
    TrimOfNoSpaces(Encode(data));
    DecodeGroupsOfEncode(data);
  }

  function ToBase64(p: Psbt): bytes { Encode(Serialize(p)) }

  function FromBase64(text: bytes): Result<Psbt, Error> {
    var data :- Decode(text);
    ParsePsbt(data)
  }

  /** The container survives the text transport exactly when it survives the
      binary one. */
  lemma TransportRoundTrip(p: Psbt)
    requires WellFormed(p) && |Serialize(p)| <= PSBT_MAX_SIZE
    ensures FromBase64(ToBase64(p)) == Ok(CanonicalPsbt(p)) <==> AllFaithful(p)
    ensures ToBase64(CanonicalPsbt(p)) == ToBase64(p)
  {
    DecodeOfEncode(Serialize(p));
    ParseOfSerialize(p);
    CanonicalPsbtSameBytes(p);
  }

  // --------------------------------------------------------- the loops themselves

  method EncodeBase64(data: bytes) returns (out: bytes)
    ensures out == Encode(data)
  {
    out := [];
    var i := 0;
    while i < |data|
      invariant 0 <= i <= |data|
      invariant out + Encode(data[i..]) == Encode(data)
    {
      var end := if i + 3 <= |data| then i + 3 else |data|;
      var group := EncodeGroup(data[i..end]);
      ghost var rest := data[i..];
      assert rest[..end - i] == data[i..end] && rest[end - i..] == data[end..];
      EncodeSplit(rest, end - i);
      Assoc(out, group, Encode(data[end..]));
      out := out + group;
      i := end;
    }
    assert data[i..] == [];
  }

  /** A decoded tail behind what was decoded before it. */
  function Behind(out: bytes, tail: Result<bytes, Error>): Result<bytes, Error> {
    match tail
    case Ok(t) => Ok(out + t)
    case Err(e) => Err(e)
  }

  method DecodeBase64(text: bytes) returns (res: Result<bytes, Error>)
    ensures res == Decode(text)
  {
    hide DecodeGroup;
    var trimmed := Trim(text);
    if |trimmed| % 4 != 0 { return Err(InvalidFieldValue); }
    var out: bytes := [];
    var i := 0;
    ghost var all := DecodeGroups(trimmed);
    assert trimmed[0..] == trimmed && (all.Ok? ==> [] + all.value == all.value);
    while i < |trimmed|
      invariant 0 <= i <= |trimmed| && i % 4 == 0
      invariant all == Behind(out, DecodeGroups(trimmed[i..]))
    {
      ghost var rest := trimmed[i..];
      assert rest[..4] == trimmed[i..i + 4] && rest[4..] == trimmed[i + 4..];
      var bytes3 :- DecodeQuad(trimmed[i..i + 4]);
      if DecodeGroups(rest[4..]).Ok? {
        Assoc(out, bytes3, DecodeGroups(rest[4..]).value);
      }
      out := out + bytes3;
      i := i + 4;
    }
    assert trimmed[i..] == [] && out + [] == out;
    res := Ok(out);
  }

  method DecodeQuad(quad: bytes) returns (res: Result<bytes, Error>)
    requires |quad| == 4
    ensures res == DecodeGroup(quad)
  {
    var vals: array<nat> := new nat[4](_ => 0);
    var nData: nat := 4;
    for i := 0 to 4
      invariant Scan(quad, i) == Ok(Group(vals[..i], nData))
      invariant forall j :: i <= j < 4 ==> vals[j] == 0
    {
      var c := quad[i];
      if c == PAD {
        nData := if i < nData then i else nData;
      } else if i >= nData {
        ScanFails(quad, i + 1);
        return Err(InvalidFieldValue);
      } else {
        var v := ValueOf(c);
        if v.Err? {
          ScanFails(quad, i + 1);
          return Err(InvalidFieldValue);
        }
        vals[i] := v.value;
      }
      assert vals[..i + 1] == vals[..i] + [vals[i]];
    }
    assert vals[..4] == vals[..];
    res := Unpack(Group(vals[..], nData));
  }

  lemma {:induction false} ScanFails(quad: bytes, n: nat)
    requires n <= |quad| == 4 && Scan(quad, n).Err?
    ensures Scan(quad, 4) == Scan(quad, n)
    decreases 4 - n
  {
    if n < 4 { ScanFails(quad, n + 1); }
  }
}
