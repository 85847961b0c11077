/** The Bech32 and Bech32m codec (BIP-173, BIP-350). Text is a sequence of code
    points. */
module Bech32Codec {
  import opened Bytes
  import opened Bech32

  type Text = seq<nat>

  const BECH32_MAX_LEN: nat := 90
  const SEPARATOR: nat := 0x31

  const CHARSET: seq<nat> := [
    0x71, 0x70, 0x7a, 0x72, 0x79, 0x39, 0x78, 0x38, 0x67, 0x66, 0x32, 0x74, 0x76, 0x64, 0x77, 0x30,
    0x73, 0x33, 0x6a, 0x6e, 0x35, 0x34, 0x6b, 0x68, 0x63, 0x65, 0x36, 0x6d, 0x75, 0x61, 0x37, 0x6c]

  datatype CodecError =
    | TooLong | InvalidCharacter(code: nat) | MixedCase | InvalidStructure | InvalidChecksum | InvalidDataValue(v: nat)

  datatype Decoded = Decoded(hrp: Text, encoding: Encoding, data: seq<Five>)


  // ------------------------------------------------------------------- characters

  function CharOf(v: Five): nat { CHARSET[v] }

  function Chars(values: seq<Five>): Text { MapSeq(CharOf, values) }

  /** Position of the first occurrence at or behind `from`. */
  function FindChar(c: nat, from: nat): (r: Option<Five>)
    requires from <= 32
    ensures r.Some? ==> CHARSET[r.value] == c
    decreases 32 - from
  {
    if from == 32 then None else if CHARSET[from] == c then Some(from) else FindChar(c, from + 1)
  }

  function ValueOfChar(c: nat): Option<Five> { FindChar(c, 0) }

  function LowerChar(c: nat): nat { if 0x41 <= c <= 0x5a then c + 32 else c }

  function Lower(s: Text): Text { MapSeq(LowerChar, s) }

  predicate IsUpper(c: nat) { 0x41 <= c <= 0x5a }

  predicate IsLower(c: nat) { 0x61 <= c <= 0x7a }

  predicate Printable(c: nat) { 33 <= c <= 126 }

  lemma CharsetPlain(v: Five)
    ensures Printable(CharOf(v)) && !IsUpper(CharOf(v)) && CharOf(v) != SEPARATOR
  {}

  /** No character occurs twice in the alphabet. */
  lemma ValueOfCharOf(v: Five)
    ensures ValueOfChar(CharOf(v)) == Some(v)
  {
    FindFrom(v, 0);
  }

  lemma {:induction false} FindFrom(v: Five, from: nat)
    requires from <= v
    ensures FindChar(CharOf(v), from) == Some(v)
    decreases v - from
  {
    if from < v {
      CharsetDistinct(from, v);
      FindFrom(v, from + 1);
    }
  }

  lemma CharsetDistinct(i: Five, j: Five)
    requires i < j
    ensures CHARSET[i] != CHARSET[j]
  {}

  // -------------------------------------------------------------------- the codec

  predicate Ascii(s: Text) { forall c :: c in s ==> c < 128 }

  function HighBits(c: nat): Five
    requires c < 128
  {
    c / 32
  }

  function LowBits(c: nat): Five { c % 32 }

  function HrpExpand(hrp: Text): seq<Five>
    requires Ascii(hrp)
  {
    seq(|hrp|, i requires 0 <= i < |hrp| => assert hrp[i] in hrp; HighBits(hrp[i])) + [0] + MapSeq(LowBits, hrp)
  }

  function Checksum(hrp: Text, e: Encoding, data: seq<Five>): seq<Five>
    requires Ascii(hrp)
    ensures |Checksum(hrp, e, data)| == 6
  {
    Symbols(Xor(Polymod(1, HrpExpand(hrp) + data + ZeroSymbols(6)), ConstantOf(e)))
  }

  function ToFives(data: seq<nat>): Result<seq<Five>, CodecError> {
    if data == [] then Ok([])
    else if data[0] > 31 then Err(InvalidDataValue(data[0]))
    else
      var rest :- ToFives(data[1..]);
      Ok([data[0]] + rest)
  }

  function Encode(hrp: Text, e: Encoding, data: seq<nat>): Result<Text, CodecError>
    requires Ascii(hrp)
  {
    var values :- ToFives(data);
    var out := hrp + [SEPARATOR] + Chars(values + Checksum(hrp, e, values));
    if |out| > BECH32_MAX_LEN then Err(TooLong) else Ok(out)
  }

  function FirstUnprintable(s: Text): Option<nat> {
    if s == [] then None else if !Printable(s[0]) then Some(s[0]) else FirstUnprintable(s[1..])
  }

  predicate AnyUpper(s: Text) { exists i :: 0 <= i < |s| && IsUpper(s[i]) }

  predicate AnyLower(s: Text) { exists i :: 0 <= i < |s| && IsLower(s[i]) }

  /** The position of the last separator. */
  function LastSeparator(s: Text): (r: Option<nat>)
    ensures r.Some? ==> r.value < |s| && s[r.value] == SEPARATOR && SEPARATOR !in s[r.value + 1..]
    ensures r.None? ==> SEPARATOR !in s
  {
    if s == [] then None
    else if s[|s| - 1] == SEPARATOR then Some(|s| - 1)
    else
      assert s == s[..|s| - 1] + [s[|s| - 1]];
      var r := LastSeparator(s[..|s| - 1]);
      assert r.Some? ==> s[r.value + 1..] == s[..|s| - 1][r.value + 1..] + [s[|s| - 1]];
      r
  }

  function ReadChars(s: Text): Result<seq<Five>, CodecError> {
    if s == [] then Ok([])
    else if ValueOfChar(s[0]).None? then Err(InvalidCharacter(s[0]))
    else
      var rest :- ReadChars(s[1..]);
      Ok([ValueOfChar(s[0]).value] + rest)
  }

  function Decode(s: Text): Result<Decoded, CodecError> {
    if |s| > BECH32_MAX_LEN then Err(TooLong)
    else if FirstUnprintable(s).Some? then Err(InvalidCharacter(FirstUnprintable(s).value))
    else if AnyLower(s) && AnyUpper(s) then Err(MixedCase)
    else
      PrintableText(s);
      DecodeLower(Lower(s))
  }

  predicate AllPrintable(s: Text) { forall c :: c in s ==> Printable(c) }

  lemma {:induction false} PrintableText(s: Text)
    ensures FirstUnprintable(s).None? <==> AllPrintable(s)
    ensures AllPrintable(s) ==> AllPrintable(Lower(s))
  {
    if s != [] {
      PrintableText(s[1..]);
      assert s == [s[0]] + s[1..];
      if AllPrintable(s) {
        forall c | c in Lower(s)
          ensures Printable(c)
        {
          var i :| 0 <= i < |s| && Lower(s)[i] == c;
          assert s[i] in s;
        }
      }
    }
  }

  /** A string in lower case, from the separator on. */
  function DecodeLower(s: Text): Result<Decoded, CodecError>
    requires AllPrintable(s)
  {
    var pos := LastSeparator(s);
    if pos.None? || pos.value == 0 || pos.value + 7 > |s| then Err(InvalidStructure)
    else
      var hrp := s[..pos.value];
      var values :- ReadChars(s[pos.value + 1..]);
      PrefixAscii(s, pos.value);
      ReadCharsLength(s[pos.value + 1..]);
      var chk := Polymod(1, HrpExpand(hrp) + values);
      if chk == ConstantOf(Classic) then Ok(Decoded(hrp, Classic, values[..|values| - 6]))
      else if chk == ConstantOf(Modified) then Ok(Decoded(hrp, Modified, values[..|values| - 6]))
      else Err(InvalidChecksum)
  }

  lemma PrefixAscii(s: Text, n: nat)
    requires AllPrintable(s) && n <= |s|
    ensures Ascii(s[..n])
  {
    assert forall c :: c in s[..n] ==> c in s;
  }

  lemma {:induction false} ReadCharsLength(s: Text)
    requires ReadChars(s).Ok?
    ensures |ReadChars(s).value| == |s|
  {
    if s != [] { ReadCharsLength(s[1..]); }
  }

  // ------------------------------------------------------------------- round trips

  lemma {:induction false} ReadCharsOfChars(values: seq<Five>)
    ensures ReadChars(Chars(values)) == Ok(values)
  {
    if values != [] {
      ValueOfCharOf(values[0]);
      assert Chars(values)[1..] == Chars(values[1..]);
      ReadCharsOfChars(values[1..]);
      assert values == [values[0]] + values[1..];
    }
  }

  lemma {:induction false} CharsOfReadChars(s: Text)
    requires ReadChars(s).Ok?
    ensures Chars(ReadChars(s).value) == s
  {
    if s != [] {
      CharsOfReadChars(s[1..]);
      var v, rest := ValueOfChar(s[0]).value, ReadChars(s[1..]).value;
      assert Chars([v] + rest) == [CharOf(v)] + Chars(rest);
      assert s == [s[0]] + s[1..];
    }
  }

  lemma {:induction false} ToFivesOfFives(data: seq<Five>)
    ensures ToFives(data) == Ok(data)
  {
    if data != [] {
      ToFivesOfFives(data[1..]);
      assert data == [data[0]] + data[1..];
    }
  }

  /** The human-readable parts that a decoder can return: not empty, printable, and
      without upper case. */
  predicate LegalHrp(hrp: Text) { hrp != [] && forall c :: c in hrp ==> Printable(c) && !IsUpper(c) }

  lemma CharsPlain(values: seq<Five>)
    ensures forall c :: c in Chars(values) ==> Printable(c) && !IsUpper(c) && c != SEPARATOR
  {
    hide CharOf, Printable, IsUpper;
    forall c | c in Chars(values)
      ensures Printable(c) && !IsUpper(c) && c != SEPARATOR
    {
      var i :| 0 <= i < |values| && Chars(values)[i] == c;
      CharsetPlain(values[i]);
    }
  }

  lemma {:induction false} LastSeparatorOf(hrp: Text, tail: Text)
    requires SEPARATOR !in tail
    ensures LastSeparator(hrp + ([SEPARATOR] + tail)) == Some(|hrp|)
    decreases |tail|
  {
    var s := hrp + ([SEPARATOR] + tail);
    if tail != [] {
      var front := tail[..|tail| - 1];
      assert s[..|s| - 1] == hrp + ([SEPARATOR] + front);
      assert s[|s| - 1] == tail[|tail| - 1];
      LastSeparatorOf(hrp, front);
    } else {
      assert s[|s| - 1] == SEPARATOR;
    }
  }

  lemma LowerOfLower(s: Text)
    requires forall c :: c in s ==> !IsUpper(c)
    ensures Lower(s) == s && !AnyUpper(s)
  {
    assert forall i :: 0 <= i < |s| ==> s[i] in s;
  }

  /** The checksum is the one continuation that the decoder accepts under `e`. */
  lemma ChecksumAccepted(hrp: Text, data: seq<Five>, six: seq<Five>, e: Encoding)
    requires Ascii(hrp) && |six| == 6
    ensures Polymod(1, HrpExpand(hrp) + (data + six)) == ConstantOf(e) <==> six == Checksum(hrp, e, data)
  {
    hide Xor, Polymod, Symbols, HrpExpand;
    ChecksumUnique(HrpExpand(hrp) + data, six, ConstantOf(e));
    Assoc(HrpExpand(hrp), data, six);
  }

  function Joined(hrp: Text, values: seq<Five>): Text { hrp + ([SEPARATOR] + Chars(values)) }

  lemma JoinedParts(hrp: Text, values: seq<Five>)
    ensures var s := Joined(hrp, values);
      && |s| == |hrp| + 1 + |values| && LastSeparator(s) == Some(|hrp|)
      && s[..|hrp|] == hrp && s[|hrp| + 1..] == Chars(values) && ReadChars(s[|hrp| + 1..]) == Ok(values)
  {
    CharsPlain(values);
    LastSeparatorOf(hrp, Chars(values));
    ReadCharsOfChars(values);
    hide LastSeparator, ReadChars, Chars;
    assert Joined(hrp, values)[|hrp| + 1..] == Chars(values);
  }

  lemma JoinedPlain(hrp: Text, values: seq<Five>)
    requires LegalHrp(hrp)
    ensures AllPrintable(Joined(hrp, values)) && Lower(Joined(hrp, values)) == Joined(hrp, values)
    ensures !AnyUpper(Joined(hrp, values))
  {
    hide Printable, IsUpper, LowerChar;
    CharsPlain(values);
    SeparatorPlain();
    assert forall c :: c in Joined(hrp, values) ==> c in hrp || c == SEPARATOR || c in Chars(values);
    LowerOfLower(Joined(hrp, values));
  }

  lemma DecodeJoined(hrp: Text, e: Encoding, data: seq<Five>)
    requires LegalHrp(hrp) && Ascii(hrp) && |hrp| + 7 + |data| <= BECH32_MAX_LEN
    ensures Decode(Joined(hrp, data + Checksum(hrp, e, data))) == Ok(Decoded(hrp, e, data))
  {
    hide Polymod, HrpExpand, Checksum, ConstantOf, LegalHrp, Joined, Lower, LastSeparator, ReadChars, AllPrintable;
    var six := Checksum(hrp, e, data);
    var values := data + six;
    assert |six| == 6 && values[..|values| - 6] == data;
    JoinedParts(hrp, values);
    JoinedPlain(hrp, values);
    PrintableText(Joined(hrp, values));
    ChecksumAccepted(hrp, data, six, e);
    ConstantsDiffer();
    LegalNotEmpty(hrp);
  }

  lemma LegalNotEmpty(hrp: Text)
    ensures LegalHrp(hrp) ==> |hrp| > 0
  {}

  lemma EncodeJoined(hrp: Text, e: Encoding, data: seq<nat>)
    requires Ascii(hrp)
    ensures Encode(hrp, e, data).Ok? <==> ToFives(data).Ok? && |hrp| + 7 + |ToFives(data).value| <= BECH32_MAX_LEN
    ensures Encode(hrp, e, data).Ok? ==>
      var values := ToFives(data).value;
      Encode(hrp, e, data).value == Joined(hrp, values + Checksum(hrp, e, values))
  {
    if ToFives(data).Ok? {
      var values := ToFives(data).value;
      Assoc(hrp, [SEPARATOR], Chars(values + Checksum(hrp, e, values)));
    }
    hide Checksum, ToFives, Chars;
  }

  /** What is encoded decodes to the same parts. */
  lemma DecodeOfEncode(hrp: Text, e: Encoding, data: seq<nat>)
    requires LegalHrp(hrp) && Ascii(hrp) && Encode(hrp, e, data).Ok?
    ensures ToFives(data).Ok? && Decode(Encode(hrp, e, data).value) == Ok(Decoded(hrp, e, ToFives(data).value))
  {
    hide Encode, Decode, Checksum, LegalHrp;
    EncodeJoined(hrp, e, data);
    DecodeJoined(hrp, e, ToFives(data).value);
  }

  lemma SeparatorPlain()
    ensures Printable(SEPARATOR) && !IsUpper(SEPARATOR)
  {}

  lemma ConstantsDiffer()
    ensures ConstantOf(Classic) != ConstantOf(Modified)
  {}

  lemma LowerHasNoUpper(s: Text)
    ensures forall c :: c in Lower(s) ==> !IsUpper(c)
  {
    forall c | c in Lower(s)
      ensures !IsUpper(c)
    {
      var i :| 0 <= i < |s| && Lower(s)[i] == c;
    }
  }

  lemma DecodeParts(s: Text)
    requires Decode(s).Ok?
    ensures var t, d := Lower(s), Decode(s).value;
      && AllPrintable(t) && 0 < |d.hrp| && |d.hrp| + 7 <= |t| <= BECH32_MAX_LEN
      && d.hrp == t[..|d.hrp|] && t[|d.hrp|] == SEPARATOR && Ascii(d.hrp)
      && ReadChars(t[|d.hrp| + 1..]).Ok?
      && var values := ReadChars(t[|d.hrp| + 1..]).value;
      && Polymod(1, HrpExpand(d.hrp) + values) == ConstantOf(d.encoding)
      && |values| >= 6 && d.data == values[..|values| - 6]
  {
    hide Polymod, HrpExpand, ConstantOf, LowerChar, Printable, ReadChars;
    PrintableText(s);
    var pos := LastSeparator(Lower(s)).value;
    PrefixAscii(Lower(s), pos);
    ReadCharsLength(Lower(s)[pos + 1..]);
    hide LastSeparator;
  }

  lemma SplitText(t: Text, pos: nat)
    requires pos < |t|
    ensures t == t[..pos] + ([t[pos]] + t[pos + 1..])
    ensures forall c :: c in t[..pos] ==> c in t
  {}

  /** What decodes is the encoding of its parts, up to case. */
  lemma EncodeOfDecode(s: Text)
    requires Decode(s).Ok?
    ensures var d := Decode(s).value;
      LegalHrp(d.hrp) && Ascii(d.hrp) && Encode(d.hrp, d.encoding, d.data) == Ok(Lower(s))
  {
    hide Polymod, HrpExpand, Checksum, ConstantOf, Printable, IsUpper, Lower, Decode, Encode, ReadChars, ToFives;
    DecodeParts(s);
    LowerHasNoUpper(s);
    var t, d := Lower(s), Decode(s).value;
    var pos := |d.hrp|;
    var values := ReadChars(t[pos + 1..]).value;
    ReadCharsLength(t[pos + 1..]);
    CharsOfReadChars(t[pos + 1..]);
    var six := values[|values| - 6..];
    assert values == d.data + six;
    ChecksumAccepted(d.hrp, d.data, six, d.encoding);
    ToFivesOfFives(d.data);
    SplitText(t, pos);
    EncodeJoined(d.hrp, d.encoding, d.data);
  }

  // ----------------------------------------------------------- single substitutions

  /** Same length, and different in exactly the character at `at`. */
  predicate OneSubstitution(s: Text, t: Text, at: nat) {
    |s| == |t| && at < |s| && s[at] != t[at] && forall i :: 0 <= i < |s| && i != at ==> s[i] == t[i]
  }

  lemma {:induction false} ReadCharsAt(s: Text, i: nat)
    requires ReadChars(s).Ok? && i < |s|
    ensures |ReadChars(s).value| == |s| && Some(ReadChars(s).value[i]) == ValueOfChar(s[i])
    ensures CharOf(ReadChars(s).value[i]) == s[i]
  {
    hide CharOf, ValueOfChar;
    ReadCharsLength(s);
    if i > 0 {
      ReadCharsAt(s[1..], i - 1);
    } else {
      CharOfValue(s[0]);
    }
  }

  lemma CharOfValue(c: nat)
    ensures ValueOfChar(c).Some? ==> CharOf(ValueOfChar(c).value) == c
  {}

  /** No single substitution in the data part turns one accepted string, so one of at
      most 90 characters, into another of the same encoding. */
  lemma SubstitutionDetected(s: Text, t: Text, at: nat)
    requires Decode(s).Ok? && Decode(t).Ok? && Decode(s).value.hrp == Decode(t).value.hrp
    requires OneSubstitution(Lower(s), Lower(t), at) && at > |Decode(s).value.hrp|
    ensures Decode(s).value.encoding != Decode(t).value.encoding
  {
    hide Polymod, HrpExpand, ConstantOf, Decode, Lower;
    DecodeParts(s);
    DecodeParts(t);
    var h := |Decode(s).value.hrp|;
    var a, b, k := Lower(s)[h + 1..], Lower(t)[h + 1..], at - h - 1;
    var v, w := ReadChars(a).value, ReadChars(b).value;
    ReadCharsLength(a);
    ReadCharsLength(b);
    forall i | 0 <= i < |a|
      ensures v[i] == w[i] <==> i != k
    {
      ReadCharsAt(a, i);
      ReadCharsAt(b, i);
    }
    var p := HrpExpand(Decode(s).value.hrp);
    OneChangeShows(1, p + v, p + w, |p| + k);
  }

  // -------------------------------------------------------------------- the loops

  lemma {:induction false} ToFivesPrefix(data: seq<nat>, i: nat)
    requires i < |data| && data[i] > 31 && forall j :: 0 <= j < i ==> data[j] <= 31
    ensures ToFives(data) == Err(InvalidDataValue(data[i]))
  {
    if i > 0 { ToFivesPrefix(data[1..], i - 1); }
  }

  lemma {:induction false} ToFivesAll(data: seq<nat>)
    requires forall j :: 0 <= j < |data| ==> data[j] <= 31
    ensures ToFives(data).Ok? && ToFives(data).value == data
  {
    if data != [] {
      ToFivesAll(data[1..]);
      assert data == [data[0]] + data[1..];
    }
  }

  method EncodeText(hrp: Text, e: Encoding, data: seq<nat>) returns (r: Result<Text, CodecError>)
    requires Ascii(hrp)
    ensures r == Encode(hrp, e, data)
  {
    var fives: seq<Five> := [];
    for i := 0 to |data|
      invariant fives == data[..i] && forall j :: 0 <= j < i ==> data[j] <= 31
    {
      if data[i] > 31 {
        ToFivesPrefix(data, i);
        return Err(InvalidDataValue(data[i]));
      }
      fives := fives + [data[i]];
    }
    ToFivesAll(data);
    var register := PolymodLoop(HrpExpand(hrp) + fives + ZeroSymbols(6));
    var checksum := Symbols(Xor(register, ConstantOf(e)));
    var out := hrp + [SEPARATOR];
    for i := 0 to |fives|
      invariant out == hrp + [SEPARATOR] + Chars(fives[..i])
    {
      CharsStep(hrp + [SEPARATOR], fives, i);
      out := out + [CharOf(fives[i])];
    }
    ghost var head := out;
    for i := 0 to 6
      invariant out == head + Chars(checksum[..i])
    {
      CharsStep(head, checksum, i);
      out := out + [CharOf(checksum[i])];
    }
    CharsConcat(hrp + [SEPARATOR], fives, checksum);
    assert fives == ToFives(data).value && checksum == Checksum(hrp, e, fives);
    if |out| > BECH32_MAX_LEN { return Err(TooLong); }
    return Ok(out);
  }

  lemma CharsStep(start: Text, values: seq<Five>, i: nat)
    requires i < |values|
    ensures start + Chars(values[..i + 1]) == start + Chars(values[..i]) + [CharOf(values[i])]
  {
    assert Chars(values[..i + 1]) == Chars(values[..i]) + [CharOf(values[i])];
    Assoc(start, Chars(values[..i]), [CharOf(values[i])]);
  }

  lemma CharsConcat(start: Text, a: seq<Five>, b: seq<Five>)
    ensures a[..|a|] == a && b[..|b|] == b && start + Chars(a) + Chars(b) == start + Chars(a + b)
  {
    assert Chars(a + b) == Chars(a) + Chars(b);
    Assoc(start, Chars(a), Chars(b));
  }

  lemma {:induction false} FirstUnprintableIs(s: Text, i: nat)
    requires i <= |s| && forall j :: 0 <= j < i ==> Printable(s[j])
    ensures i < |s| && !Printable(s[i]) ==> FirstUnprintable(s) == Some(s[i])
    ensures i == |s| ==> FirstUnprintable(s) == None
  {
    if i > 0 { FirstUnprintableIs(s[1..], i - 1); }
  }

  lemma {:induction false} ReadCharsStep(s: Text, i: nat, values: seq<Five>)
    requires i < |s| && ReadChars(s[..i]) == Ok(values)
    ensures ValueOfChar(s[i]).Some? ==> ReadChars(s[..i + 1]) == Ok(values + [ValueOfChar(s[i]).value])
    ensures ValueOfChar(s[i]).None? ==> ReadChars(s) == Err(InvalidCharacter(s[i]))
  {
    hide ValueOfChar;
    if i == 0 {
      assert s[..1] == [s[0]] && s[..1][1..] == [] && values == [];
      if ValueOfChar(s[0]).Some? { assert [ValueOfChar(s[0]).value] + [] == values + [ValueOfChar(s[0]).value]; }
    } else {
      assert s[..i][1..] == s[1..][..i - 1] && s[..i + 1][1..] == s[1..][..i];
      ReadCharsStep(s[1..], i - 1, values[1..]);
      if ValueOfChar(s[i]).Some? { Assoc([values[0]], values[1..], [ValueOfChar(s[i]).value]); }
    }
  }

  method DecodeText(s: Text) returns (r: Result<Decoded, CodecError>)
    ensures r == Decode(s)
  {
    hide Polymod, HrpExpand, LowerChar, ValueOfChar, LastSeparator;
    if |s| > BECH32_MAX_LEN { return Err(TooLong); }
    for i := 0 to |s|
      invariant forall j :: 0 <= j < i ==> Printable(s[j])
    {
      if !(33 <= s[i] <= 126) {
        FirstUnprintableIs(s, i);
        return Err(InvalidCharacter(s[i]));
      }
    }
    FirstUnprintableIs(s, |s|);
    if AnyLower(s) && AnyUpper(s) { return Err(MixedCase); }
    var t := Lower(s);
    PrintableText(s);
    var pos := LastSeparator(t);
    if pos.None? || pos.value == 0 || pos.value + 7 > |t| { return Err(InvalidStructure); }
    var hrp, tail := t[..pos.value], t[pos.value + 1..];
    var values: seq<Five> := [];
    for i := 0 to |tail|
      invariant ReadChars(tail[..i]) == Ok(values)
    {
      ReadCharsStep(tail, i, values);
      var v := ValueOfChar(tail[i]);
      if v.None? { return Err(InvalidCharacter(tail[i])); }
      values := values + [v.value];
    }
    assert tail[..|tail|] == tail;
    PrefixAscii(t, pos.value);
    ReadCharsLength(tail);
    var chk := PolymodLoop(HrpExpand(hrp) + values);
    if chk == ConstantOf(Classic) { return Ok(Decoded(hrp, Classic, values[..|values| - 6])); }
    if chk == ConstantOf(Modified) { return Ok(Decoded(hrp, Modified, values[..|values| - 6])); }
    return Err(InvalidChecksum);
  }
}
