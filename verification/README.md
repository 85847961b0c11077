# yubtc: partially signed transactions, quorums, fees and addresses

This project models the part of the yubtc wallet in which byte formats, several
parties and money meet, and proves what the wallet relies on. It covers

- **containers** (BIP-174): CompactSize, keyed maps, nested transactions with the
  BIP-144 marker, typed and opaque fields, base64, and what one pass through parser
  and writer does to arbitrary bytes;
- **roles**: Creator, Signer (one input, and the walk over all the keys a wallet may
  own), Combiner, Finalizer and Extractor, and the protocol they form when parties
  hold copies and sign, combine, transport and copy in any order; the direct signing
  path and its agreement with the container path;
- **quorums**: the CHECKMULTISIG redeem script and the CHECKSIGADD tapscript
  (BIP-342) with their strict extractors, an interpreter for both, and quorum spends
  from the address to the finished transaction;
- **fees and amounts**: the fee loop that stops when a size repeats, the picker, the
  accounting of a transaction, and the walk that collects inputs;
- **addresses**: Bech32 and Bech32m (BIP-173, BIP-350), bit regrouping, and the
  agreement of addresses and lock scripts.

Run `dafny verify dfyconfig.toml` for the whole project.

## How to read it

Pure code is modelled by functions. Code that works step by step is modelled by
methods with the source's loops, each proved to compute a function, and objects the
source updates are classes (`Wire.Reader`, `PsbtObjects.PsbtIn`). What the source
promises is then proved about the functions.

| files | subject |
|---|---|
| `Bytes`, `KeyMaps`, `Wire` | bytes and their order, keyed lists and the maps they denote, CompactSize, the cursor |
| `Transactions`, `Exactness` | transaction codec, sizes, what re-encoding changes |
| `PsbtMaps`, `Psbts`, `PsbtCodec`, `PsbtRoundTrip`, `PsbtStability`, `PsbtExact`, `PsbtCanonical`, `PsbtSettling`, `PsbtParsing`, `Base64` | container codec |
| `PsbtCombine`, `PsbtUnion` | combining as union of maps |
| `Sighashes`, `Signing`, `Creating`, `Finalizing`, `FinalizeFrame`, `PsbtObjects`, `SigningWalk` | the roles, on values and on objects |
| `Confluence`, `DirectSigning`, `PathEquivalence` | runs of the protocol, the direct path |
| `Scripts`, `Multisig`, `ScriptMachine`, `MultisigSpends`, `TapscriptSpends` | scripts, interpreter, accepted spends |
| `FeeLoop`, `Accounting`, `Scanning`, `Spending` | fees, amounts, a spend from the walk to the transaction |
| `QuorumFees`, `QuorumShortfall`, `QuorumRuns`, `QuorumAcceptance`, `QuorumSends` | quorum spends end to end |
| `Bech32`, `Bech32Codec`, `Regrouping`, `Addresses` | checksum, text codec, addresses |

## Findings

Four promises of the source do not hold as written. The code is kept as it is; for each
there is an input on which it fails, and the condition under which it holds.

- `serialize_psbt` promises `serialize(parse(x)) == x` for canonically ordered `x`
  (src/yubtc/psbt.py:1178-1179). `PsbtCanonical.VersionEntryIsLost` gives an `x` for
  which it fails; `PsbtCanonical.SerializeOfParse` says exactly when it holds: besides
  order, all lengths must be the narrowest, there must be no `VERSION` entry, no empty
  final field and no redundant marker in a previous transaction.
- The same docstring calls one pass stable. `PsbtSettling.OnePassMayNotSettle` gives
  an accepted container whose rewritten form the parser refuses: a previous transaction
  without inputs and with one output is written with the bytes of a marker, against the
  comment at src/yubtc/psbt.py:529-531. `PsbtSettling.OnePassSettles` says exactly when
  one pass settles: when the bytes written for each previous transaction read as a
  transaction in its narrowest form. That holds for every other shape, and for some of
  this one (`PsbtSettling.AmbiguousMaySettle`).
- A P2TR quorum whose keys differ only in parity passes the duplicate check and is then
  reported as `QuorumBounds`, where the comment at src/yubtc/wallet.py:853-856 says that
  the builder cannot fail. `Addresses.ParityTwinsHaveNoAddress` gives such keys, and
  `Addresses.QuorumAddressExists` says exactly which quorums have an address.
- The final scriptSig of a P2SH quorum spend is said to be sized with the pushed redeem
  script (src/yubtc/wallet.py:1080-1084), but only the prefix of that push is counted.
  `QuorumShortfall.P2shEstimateHolds` says exactly when the estimate still holds, from
  the lengths of the signatures, `QuorumShortfall.P2shSpendUnderestimated` that it fails
  for every P2SH spend whose signatures take 39 bytes or more with the sighash byte, and
  `QuorumShortfall.P2shRunUnderestimated` that every completed run ends in such a spend.
  From 69 bytes on, the fee the loop chose never pays the rate of the finished spend
  (`QuorumShortfall.P2shFeeFallsShort`). The estimates of the other two forms always hold
  (`QuorumFees.SpendWithinEstimate`).

Other points where the model follows the code rather than its text: the CompactSize
reader accepts encodings wider than needed, only the field type inside a key must be
minimal; the test for a stray terminator behind the last map looks at the data from a
position counted without the magic; a signature that is too long for an inline push
raises an error that is not a refusal and stops the finalizing walk
(`FinalizeFrame.StopsExactly`); a present but empty final field takes part in combining
without being on the wire (`PsbtCombine.EmptyFinalFieldConflicts`); the redeem-script
builder accepts 33-byte keys with any prefix, which the extractor then refuses
(`Multisig.ExtractOfMakeRedeem`); and `decode_segwit_addr` accepts version-1 programs of
2 to 40 bytes.

## Assumptions and conventions

- Hashes, signatures and the Taproot tweak are a record of total deterministic
  functions with the output lengths of the originals (`Sighashes.Crypto`); a signer is
  named by its public key, since RFC 6979 and BIP-340 signatures are functions of the
  secret and the digest. ECDSA signatures have at most 72 bytes, Schnorr signatures 64.
  A key whose tweak fails owns no P2TR output. Signature verification is an arbitrary
  predicate.
- Base58Check is assumed to undo itself on the payloads of legacy addresses, 21 bytes that
  begin with version 0 or 5, and not to give them a text with the SegWit prefix
  (`Addresses.Sound`). Nothing is assumed of other payloads, some of whose texts do begin
  so, and only the lemmas about legacy addresses use it.
- Texts of addresses are sequences of code points; base64 texts are their bytes.
- The two transaction classes of the source share one datatype. `CTransaction` always
  has version 2; the agreement of the two paths is proved for any version.
- Amounts, counts and lengths have the widths of the source: 32-bit and 64-bit fields,
  a signed 32-bit version. A length of 2^64 or more cannot be encoded and is excluded by
  the predicates named `...Fits`.
- What the wallet learns from the network is a parameter: a view of the used addresses
  and their outputs, the confirmed outputs of a quorum, the previous transactions. Key
  derivation is a function from nonce and form to a key.
- A transaction id is in the byte order the source uses.

## Model

| member | source | states |
|---|---|---|
| Wire.Reader.constructor | src/yubtc/psbt.py:296-304 | A new cursor stands at the start of its data. |
| Wire.Reader.Peek | src/yubtc/psbt.py:312-316 | The byte at an offset ahead, or nothing past the end; the position stays. |
| Wire.Reader.TakeBytes | src/yubtc/psbt.py:318-323 | The next `n` bytes and a cursor behind them, or `Truncated` when fewer are left. |
| Wire.Reader.ReadSize | src/yubtc/psbt.py:328-340 | One CompactSize value of 1, 3, 5 or 9 bytes and a cursor behind it; an encoding cut short is refused, a wider one than needed is accepted. |
| Wire.ReadCompactSizeOfCompactSize | src/yubtc/transaction.py:80-98 | Reading undoes writing for every 64-bit value in front of any bytes. |
| Wire.ReadCompactSizeCost | src/yubtc/psbt.py:328-340 | No encoding that the reader accepts for a value is shorter than the one the writer emits. |
| PsbtMaps.ReadMap | src/yubtc/psbt.py:392-410 | The loop over one map: the pairs up to the terminator, `DuplicateKey` at the first repeated key, `Truncated` when the data ends first. |
| PsbtMaps.WriteMap | src/yubtc/psbt.py:413-423 | Appends exactly the canonical bytes of the pairs behind what was written before. |
| PsbtMaps.ReadPairsOfMapBytes | src/yubtc/psbt.py:392-423 | A written map is read back as its pairs in key order, whatever follows it. |
| PsbtMaps.ReadPairsWellFormed | src/yubtc/psbt.py:392-410 | Whatever the reader accepts has unique and non-empty keys. |
| PsbtMaps.MapBytesDeterminedByMap | src/yubtc/psbt.py:413-423 | Lists that denote the same map have the same bytes, in whatever order they are. |
| Transactions.ParseTransaction | src/yubtc/psbt.py:519-566 | The loops of the parser over a live cursor give the transaction or the error of the specification, with the marker looked for exactly when a witness is allowed. |
| Transactions.ParseWitnessSection | src/yubtc/psbt.py:569-578 | One witness stack, with the count guarded by what is left. |
| Transactions.SerializeStripped | src/yubtc/transaction.py:237-260 | The accumulating loops emit the stripped layout. |
| Transactions.SerializeWire | src/yubtc/transaction.py:275-301 | The accumulating loops emit the wire layout: stripped without a witness, with marker and stacks otherwise. |
| Transactions.EncodeWitnessStack | src/yubtc/psbt.py:594-602 | The loop emits the count and the length-prefixed items. |
| Transactions.DecodeWitnessStackOfBytes | src/yubtc/psbt.py:594-618 | Decoding a serialized witness stack returns its items. |
| Transactions.ParseOfStripped | src/yubtc/psbt.py:475-566 | Parsing the stripped layout returns the transaction without its witness, for every number of inputs and outputs: the count guards never refuse an encoded transaction. |
| Transactions.ParseOfWire | src/yubtc/psbt.py:491-566 | Parsing the wire layout returns the transaction if and only if it is not one without inputs and with a single output, whose encoding starts like a marker. |
| Transactions.WireInjective | src/yubtc/psbt.py:491-509 | Transactions with the same wire bytes are equal, but for the ambiguous shape. |
| Transactions.StrippedInjective | src/yubtc/psbt.py:475-485 | Transactions with the same stripped bytes differ at most in their witnesses. |
| Transactions.VSizeBounds | src/yubtc/transaction.py:303-312 | Stripped size <= virtual size <= wire size, and virtual size equals wire size exactly when no input has a witness. |
| PsbtParsing.ParseInputEntries | src/yubtc/psbt.py:925-1016 | The loop fills an input object entry by entry, or stops with the first refusal. |
| PsbtParsing.ParseOutputEntries | src/yubtc/psbt.py:1019-1043 | The loop checks and keeps the entries of an output map. |
| PsbtParsing.ParseContainer | src/yubtc/psbt.py:1047-1122 | The parser over a live cursor: distinct input objects holding exactly the specified container, or exactly the specified error. |
| PsbtParsing.SerializeContainer | src/yubtc/psbt.py:1175-1191 | The writer appends the maps one by one to exactly the canonical bytes. |
| PsbtCodec.ParseInputMapDecodes | src/yubtc/psbt.py:925-1016 | An input map is accepted if and only if each of its entries is, and then decodes to its entries grouped by type. |
| PsbtCodec.InputRoundTrip | src/yubtc/psbt.py:925-1171 | Writing an input and interpreting its entries again returns it with its lists in key order, if and only if it has no present-but-empty final field and no previous transaction that re-reads as a marker. |
| PsbtRoundTrip.ParseOfSerialize | src/yubtc/psbt.py:1047-1191 | For every well-formed container within 4 MiB, parsing what was serialized returns it with its lists in key order, if and only if every input is one the encoding can carry; above the cap it is refused as too large. |
| PsbtStability.ParsedWellFormed | src/yubtc/psbt.py:1047-1122 | Everything the parser accepts is well formed: version 0, an unsigned transaction with outputs and no scriptSig, one map for each input and output, unique keys, fields of the right width, no typed key among the unknown ones. |
| PsbtStability.CanonicalPsbtSameBytes | src/yubtc/psbt.py:1175-1191 | The order of the lists of a container does not show in its bytes. |
| PsbtCanonical.SerializeOfParse | src/yubtc/psbt.py:1175-1191 | For every byte string the parser accepts, serializing the result takes no more bytes and gives the same bytes if and only if the input was in canonical form: sorted maps, narrowest lengths, no version entry, no empty final field, no redundant marker. The docstring promises it for canonical order alone. |
| PsbtCanonical.VersionEntryIsLost | src/yubtc/psbt.py:1175-1191 | A concrete canonically ordered container that the parser accepts and the writer changes: its `VERSION` entry is dropped. |
| PsbtSettling.SecondPassReadsTheSame | src/yubtc/psbt.py:1047-1191 | Reading back what one pass wrote returns the container in key order, if and only if it holds no value the encoding cannot carry. |
| PsbtSettling.OnePassSettles | src/yubtc/psbt.py:1175-1191 | For every accepted input: what one pass writes is in canonical form, so that it is accepted and written again as it is, if and only if the bytes written for each previous transaction read as a transaction in its narrowest form; a previous transaction is always such unless it has no inputs and one output. |
| PsbtSettling.SecondPassChangesNothing | src/yubtc/psbt.py:1175-1191 | One pass settles the bytes of every accepted input without an ambiguous previous transaction. |
| PsbtSettling.OnePassMayNotSettle | src/yubtc/psbt.py:519-566 | A concrete accepted container, with an ambiguous previous transaction, whose output after one pass is refused by the parser. |
| PsbtSettling.AmbiguousMaySettle | src/yubtc/psbt.py:519-566 | A concrete accepted container, also with an ambiguous previous transaction, that one pass settles: its bytes read as another transaction and are written again as they are. |
| PsbtSettling.MarkedPreviousDoesNotSettle | src/yubtc/psbt.py:526-537 | The previous transaction behind the refused container: read with a marker, written without one, and then not readable. |
| Exactness.ExactTx | src/yubtc/psbt.py:491-566 | Writing a parsed transaction again never takes more bytes, and gives the same bytes if and only if its lengths were narrow and its marker not redundant. |
| Base64.EncodeBase64 | src/yubtc/psbt.py:2273-2288 | The loop over groups of three bytes emits the specified text. |
| Base64.DecodeBase64 | src/yubtc/psbt.py:2306-2339 | The loop over groups of four characters gives the specified bytes or refusal, padding rules included. |
| Base64.DecodeOfEncode | src/yubtc/psbt.py:2273-2339 | Decoding undoes encoding for every byte string. |
| Base64.TransportRoundTrip | src/yubtc/psbt.py:2343-2353 | A well-formed container within the size cap survives the text transport, in key order, if and only if it holds only what the encoding can carry. |
| KeyMaps.MergeLists | src/yubtc/psbt.py:2184-2195 | The merging loop gives the merged list, or a conflict at the first key with another value. |
| KeyMaps.MergeIsUnion | src/yubtc/psbt.py:2184-2226 | Merging lists with unique keys succeeds if and only if no shared key has two values, and then denotes the union of the two maps. |
| PsbtCombine.MergeInputIsUnion | src/yubtc/psbt.py:2229-2263 | For all well-formed inputs: merging succeeds if and only if no key of their wire maps has two values and no field that a wire map does not show, a present but empty final field or an ambiguous previous transaction, has two either; the result is well formed, its wire map is the union, and what its map does not show is joined. |
| PsbtCombine.CarriedShowsAll | src/yubtc/psbt.py:2229-2263 | Inputs the encoding can carry hide nothing from their wire maps, so that for them the maps alone decide. |
| PsbtCombine.EmptyFinalFieldConflicts | src/yubtc/psbt.py:2198-2263 | For every non-empty final field: against an input with a present but empty one, the wire maps agree and the merge still conflicts. |
| PsbtUnion.CombineIsUnion | src/yubtc/psbt.py:1732-1752 | For all well-formed containers: combining succeeds if and only if they are for one transaction, no key of any map has two values and no hidden field has; every map of the result is the union. |
| PsbtUnion.CarriedCombineIsUnion | src/yubtc/psbt.py:1732-1752 | For containers the encoding can carry the maps alone decide, and the codec carries the result. |
| PsbtUnion.CombineCommutative | src/yubtc/psbt.py:1732-1752 | For all well-formed containers both orders fail, or both give the same bytes. |
| PsbtUnion.CombineAssociative | src/yubtc/psbt.py:1732-1752 | For all well-formed containers both groupings of three fail, or both give the same bytes. |
| PsbtUnion.CombineIdempotent | src/yubtc/psbt.py:1732-1752 | Any well-formed container combined with itself gives its own bytes. |
| Creating.CreatedIsBase | src/yubtc/psbt.py:1239-1415 | Every created container is one the codec carries, unless a previous transaction has the ambiguous shape; it is in canonical order and holds no signature. |
| PsbtObjects.SignPsbtInput | src/yubtc/psbt.py:1419-1508 | In place: adds this key's signature to one input, or reports that it cannot; a refusal changes no object. |
| PsbtObjects.InsertByKey | src/yubtc/psbt.py:879-888 | The insertion loop puts a new entry at its place in key order. |
| PsbtObjects.PsbtIn.InsertTapScriptSig | src/yubtc/psbt.py:1716-1728 | Only the list of tapscript signatures changes, by one entry at its place. |
| PsbtObjects.PsbtIn.CollectMemberSigs | src/yubtc/psbt.py:1853-1903 | The loop over the script's keys collects the first M member signatures in script order, or gives the error of the first check that fails. |
| PsbtObjects.PsbtIn.CollectSlots | src/yubtc/psbt.py:2008-2032 | The loop over the leaf's keys fills at most M slots, in script order, and refuses fewer. |
| PsbtObjects.PsbtIn.FinalizeKey | src/yubtc/psbt.py:1814-1849 | Single-key forms: the final field is built and the intermediates removed, or nothing changes. |
| PsbtObjects.PsbtIn.FinalizeP2sh | src/yubtc/psbt.py:1853-1903 | In place, a quorum scriptSig; a refusal changes nothing. |
| PsbtObjects.PsbtIn.FinalizeP2wsh | src/yubtc/psbt.py:1906-1956 | In place, a quorum witness; a refusal changes nothing. |
| PsbtObjects.PsbtIn.FinalizeTap | src/yubtc/psbt.py:1959-2044 | In place, a script-path witness; a refusal changes nothing. |
| PsbtObjects.FinalizePsbtInput | src/yubtc/psbt.py:1756-1849 | One input is finalized in place as its script demands; a refused input and all others stay as they were. |
| PsbtObjects.FinalizePsbt | src/yubtc/psbt.py:2047-2059 | The walk over all inputs gives the specified container, passing over refusals. |
| SigningWalk.SignPsbt | src/yubtc/psbt.py:2360-2404 | The nested walk over nonces, forms and inputs, with its early exit: every input ends as the first key that can sign it leaves it and the unsigned indices are returned; or the first error that is not an unsupported sighash stops it, and the container is exactly the one reached by then: the failing key was tried on the inputs before the failing one, the earlier keys on all. |
| SigningWalk.ReportsTheUnsigned | src/yubtc/psbt.py:2360-2376 | The indices reported are exactly, and in order, those that no key of the walk can sign. |
| SigningWalk.WalkSigns | src/yubtc/psbt.py:2360-2376 | Every input that some key of the walk can sign carries the signature of such a key afterwards; every other input is unchanged. |
| SigningWalk.WalkIsRun | src/yubtc/psbt.py:2360-2404 | The walk, whether it ends at an error or not, is one run of the signing protocol with the signing steps given, so what holds of every run holds of its result; without an error it reaches the end. |
| Confluence.EntryIgnoresSigs | src/yubtc/psbt.py:1419-1713 | What a key adds to an input does not depend on the signatures already in the container. |
| Confluence.RunKeeps | src/yubtc/psbt.py:1419-1752 | No run of sign, combine, transport and copy steps from one container in canonical order raises a conflict; in every state each copy holds exactly the entries of the keys applied to it, sorted and unique. |
| Confluence.Confluent | src/yubtc/psbt.py:879-888 | Two copies, of one run or of two, with the same keys applied to each input are the same container byte for byte, whatever the order and topology. |
| FinalizeFrame.FinalizeEach | src/yubtc/psbt.py:2047-2059 | Finalizing treats every input by itself: refused inputs are unchanged, UTXO and unknown fields survive, and the walk is cut short exactly at the first input whose signature is too long to push, from which on nothing changes. |
| FinalizeFrame.FinalizeIdempotent | src/yubtc/psbt.py:2047-2059 | Finalizing any container again changes nothing, and stops where it stopped before. |
| FinalizeFrame.StopsExactly | src/yubtc/psbt.py:1787-1906 | An input cuts the walk short if and only if it is not final and its spend takes a signature too long for its push: 76 bytes or more for a P2PKH key that the sighash allows, more than 65535 among the first M of a committed P2SH quorum, never in another form. |
| FinalizeFrame.LongSignatureStops | src/yubtc/psbt.py:2047-2059 | A concrete container for every length: its one P2PKH signature stops the walk from 76 bytes on, and not below. |
| FinalizeFrame.PushableNeverStops | src/yubtc/psbt.py:2047-2059 | Signatures shorter than 76 bytes, with keys of known length, never cut the walk short. |
| FinalizeFrame.ExtractKeepsTransaction | src/yubtc/psbt.py:2063-2142 | The extracted transaction has the outpoints, sequences, outputs, version and locktime of the unsigned one, and the same id when every input spends a witness output. |
| PathEquivalence.ContainerPathIsDirectPath | src/yubtc/psbt.py:1239-2142 | Create, sign each own P2PKH, P2WPKH or P2TR input in any run and any copy, finalize and extract: exactly the transaction that signing directly gives. |
| DirectSigning.SignSegwit | src/yubtc/transaction.py:353-401 | The loop that signs a partly signed copy gives what signing every input of the original gives. |
| Sighashes.DigestsOfSkeleton | src/yubtc/transaction.py:444-581 | None of the digests depends on the scripts and stacks already in the transaction. |
| Scripts.FormOfScriptInverse | src/yubtc/psbt.py:799-819 | A script is read as a single-key form if and only if it is the script built from that form. |
| Scripts.SortKeysPermutation | src/yubtc/script.py:419-440 | The sorted keys are the same for every order of the arguments. |
| Scripts.NeighboursFindDuplicates | src/yubtc/script.py:419-469 | Comparing sorted neighbours finds a duplicate if and only if there is one. |
| Multisig.MakeMultisigRedeemScript | src/yubtc/script.py:419-469 | The builder's loops emit the layout of the sorted keys, or refuse. |
| Multisig.ExtractMultisigQuorum | src/yubtc/script.py:473-518 | The extractor's loop gives exactly the specified quorum or refusal. |
| Multisig.ExtractQuorumExact | src/yubtc/script.py:473-518 | A script reads as a quorum if and only if the quorum is valid and the script is byte for byte its layout. |
| Multisig.MakeRedeemSucceeds | src/yubtc/script.py:419-469 | The builder succeeds if and only if 1 <= M <= N <= 15 and the keys are distinct and 33 bytes long. |
| Multisig.ExtractOfMakeRedeem | src/yubtc/script.py:419-518 | A built script reads back as its quorum with the keys sorted, exactly when every key has a compressed-key prefix, which the builder does not check; it always fits 520 bytes. |
| Multisig.MakeRedeemPermutation | src/yubtc/script.py:419-469 | Every order of the keys gives the same script, or the same refusal. |
| Multisig.MakeMultisigTapscript | src/yubtc/script.py:652-698 | The builder's loops emit the CHECKSIG/CHECKSIGADD layout of the sorted keys, or refuse. |
| Multisig.ExtractMultisigTapscript | src/yubtc/script.py:702-750 | The extractor's loop gives exactly the specified quorum or refusal. |
| Multisig.ExtractTapscriptExact | src/yubtc/script.py:702-750 | A tapscript reads as a quorum if and only if the quorum is valid and the script is byte for byte its layout. |
| Multisig.MakeTapscriptSucceeds | src/yubtc/script.py:652-698 | The builder succeeds if and only if the bounds hold and the keys are distinct and 32 bytes long. |
| Multisig.ExtractOfMakeTapscript | src/yubtc/script.py:651-750 | A built tapscript reads back as its quorum with the keys sorted, and fits 520 bytes. |
| Multisig.MakeTapscriptPermutation | src/yubtc/script.py:652-698 | Every order of the keys gives the same tapscript, or the same refusal. |
| Multisig.MakeMultisigScriptSig | src/yubtc/script.py:522-545 | The assembling loop gives the dummy, the signatures and the redeem script as pushes, or the error of an item too long to push. |
| Scripts.PushDataLength | src/yubtc/script.py:394-403 | A push is as long as its item and the prefix computed for it. |
| MultisigSpends.ReadPushOfPushData | src/yubtc/script.py:369-390 | The interpreter reads back every item of at most 520 bytes from the push built for it. |
| ScriptMachine.GreedyComplete | src/yubtc/script.py:521-545 | The greedy matching of CHECKMULTISIG succeeds if and only if some order-preserving assignment of the signatures to the keys exists. |
| MultisigSpends.RunRedeem | src/yubtc/script.py:419-469 | A redeem script, run on a dummy and M items, leaves 1 or 0 according to the greedy matching, for any check. |
| MultisigSpends.P2shSpendAccepted | src/yubtc/psbt.py:1853-1903 | A finalized P2SH quorum input is accepted by the interpreter whenever the member signatures in it verify under their own keys, whichever members signed. |
| MultisigSpends.P2wshSpendAccepted | src/yubtc/psbt.py:1906-1956 | The same for P2WSH, on the stack that the final field decodes to. |
| TapscriptSpends.TapscriptSpendCounts | src/yubtc/psbt.py:1959-2044 | A finalized script-path witness has N + 2 items with exactly M non-empty slots, ends with leaf and control block, and the leaf's key checks run on the slots consume all of them and leave M. |
| FeeLoop.ChooseFee | src/yubtc/wallet.py:655-683 | The loop ends for every bounded size function: with the pick from a chain of attempts that has just closed a cycle of sizes, or with the builder's refusal of the fee that came next. |
| FeeLoop.Pick | src/yubtc/wallet.py:104-133 | The nested search over sizes and candidates returns the least paying one by size and then fee, or the fallback when none pays. |
| FeeLoop.CyclePays | src/yubtc/wallet.py:664-683 | When a size comes back, some attempt paid its rate: a cycle of sizes cannot be strictly increasing. |
| FeeLoop.PickedPays | src/yubtc/wallet.py:104-133 | From 1000 per kilobyte up the pick meets both floors, is the least that does, and is never the fallback. |
| FeeLoop.ChosenPays | src/yubtc/wallet.py:664-683 | Whatever the loop returns was built with its fee, and from 1000 per kilobyte up that fee meets both floors. |
| FeeLoop.AttemptsBounded | src/yubtc/wallet.py:664-683 | There is at most one attempt more than there are sizes. |
| Accounting.VoutConserves | src/yubtc/crypto.py:888-912 | Outputs plus fee equal the inputs; the payee gets what was asked, under the payee's script; change exists exactly when something is left and goes to the change address. |
| Accounting.MakeVin | src/yubtc/wallet.py:415-474 | The parallel lists cover every output of every source in order, or the error is that of the first output its key cannot spend. |
| Accounting.RefusedIffUnspendable | src/yubtc/wallet.py:30-57 | Building is refused if and only if some output is P2SH, of no known form, or committed to another key. |
| Accounting.MakeTransaction | src/yubtc/wallet.py:620-683 | The transaction built from the outputs held by the sources, with the given fee or the loop's choice, or the error of the first stage that refuses; it spends exactly those outputs, their amounts equal outputs plus fee, and a chosen fee pays the rate for the virtual size of the very transaction returned. |
| Spending.SelectInputs | src/yubtc/wallet.py:566-617 | The sources of a spend: those given, those of the walk up to the target, or those of the one address asked for. |
| Spending.Spend | src/yubtc/wallet.py:566-683 | The whole run, from the walk over the used addresses to the transaction: it spends what the walk found, and outputs plus fee equal the worth of the sources found; or it ends with the error of the first stage that refuses. |
| Spending.WorthIsAmounts | src/yubtc/wallet.py:566-683 | The total by which the walk stops is the sum of the amounts of the outputs that are then spent. |
| Scanning.ScanInputs | src/yubtc/wallet.py:477-563 | The walk ends on every finite view, at the first gap or at the first contributing nonce where the total reaches the target, with everything up to there, and change going to the gap's own form or to the last contributing address. |
| Scanning.NothingMissed | src/yubtc/wallet.py:477-563 | Every used form below the end of the walk is in the result with its outputs. |
| Scanning.TargetFirstMet | src/yubtc/wallet.py:477-563 | A walk that met a positive target met it at its last nonce: without that nonce the sum falls short. |
| Scanning.StopUnique | src/yubtc/wallet.py:477-563 | Where the walk ends is fixed by the view alone. |
| Scanning.SelectUtxos | src/yubtc/wallet.py:974-992 | The smallest prefix that reaches the target, or everything when none does. |
| QuorumFees.ChooseQuorumFee | src/yubtc/wallet.py:1127-1161 | The given fee, or a choice of the loop; an error is the builder's. |
| QuorumFees.QuorumFeeConserves | src/yubtc/wallet.py:1127-1161 | Inputs equal outputs plus fee in every quorum spend, and a given fee is kept. |
| QuorumFees.QuorumChangeReturns | src/yubtc/wallet.py:1068-1150 | Change of a quorum spend has exactly the lock script of the inputs it spends. |
| QuorumFees.AtMostThree | src/yubtc/wallet.py:1133-1161 | Every finished run of the quorum loop makes two or three attempts. |
| QuorumFees.SpendWithinEstimate | src/yubtc/wallet.py:1085-1125 | For the witness forms, whatever members sign, the extracted transaction is no larger than the sized one. |
| QuorumShortfall.P2shEstimateHolds | src/yubtc/wallet.py:1080-1125 | For P2SH, the extracted transaction is no larger than the sized one if and only if its scriptSigs, each made of a dummy, M signatures of its input and the whole redeem script, take no more than the sized scriptSigs, which leave the redeem script out. |
| QuorumShortfall.P2shSpendUnderestimated | src/yubtc/wallet.py:1080-1161 | Every finished P2SH spend with signatures of at least 39 bytes is larger than the sized transaction, and the rate it owes is higher. |
| QuorumShortfall.P2shRunUnderestimated | src/yubtc/wallet.py:1080-1204 | In every run from the container made for a P2SH spend a copy gives a transaction if and only if each input met M members, and whatever it gives is larger than the sized one and owes a higher rate, if the signatures it holds take 39 bytes or more. |
| QuorumShortfall.P2shFeeFallsShort | src/yubtc/wallet.py:1080-1204 | Whatever fee the loop chose, with change or without: in every run whose signatures take 69 bytes or more, the finished P2SH spend pays less than the rate asked for. |
| QuorumFees.FeeCoversSpend | src/yubtc/wallet.py:1085-1161 | The fee chosen from the sized transaction pays the rate for the finalized and extracted one. |
| QuorumRuns.QuorumSpendCreated | src/yubtc/wallet.py:1163-1200 | In all three forms the Creator accepts every planned spend, for P2SH with the previous transactions that the listing names, and sets up each input as one of the quorum's own, unsigned. |
| QuorumRuns.FinalizableIffEnough | src/yubtc/psbt.py:1852-2044 | In any run and any of the three forms, an input of a copy can be finalized if and only if at least M member keys were applied to it. |
| QuorumRuns.QuorumSpendCompletes | src/yubtc/wallet.py:1006-1208 | From end to end, for every run and all three forms: a copy gives a transaction if and only if each input met M members; it is the planned one, and inputs equal outputs plus fee. For the witness forms it has the planned id, and a chosen fee pays the rate for its virtual size. |
| QuorumAcceptance.QuorumSpendAccepted | src/yubtc/wallet.py:1006-1208 | Whenever a copy of any run gives a transaction and what members' keys sign verifies under them, the interpreter accepts every P2SH and P2WSH input of that transaction, and the leaf of every P2TR input counts to M on its witness. |
| QuorumSends.CreateSend | src/yubtc/wallet.py:1006-1208 | The whole composition behind the queries, with every error: `NotAParticipant` without an own key; the address of all keys or its error; then the smallest covering prefix of the listed outputs with enough confirmations, the given or chosen fee, the fetched transactions, and the base64 text of the created container signed by the own key on every input, or the error of the first stage that refuses. |
| QuorumSends.SentStartsRun | src/yubtc/wallet.py:1006-1208 | In all three forms the text sent out is that of a copy in a run of the signing protocol, with the own key applied to every input of the container made for the plan; inputs equal outputs plus the reported fee. |
| QuorumSends.SendCompletes | src/yubtc/wallet.py:1006-1208 | From the arguments of a send to the chain, in all three forms: the cosigners read exactly the copy that was sent, nothing they do with it conflicts, and any copy they arrive at gives a transaction if and only if each input met M members; it spends what was selected, inputs equal outputs plus the reported fee, every lock script is satisfied (a P2TR leaf counts to M) when members sign what verifies, and for the witness forms id and rate are as planned. |
| QuorumSends.OwnSignedIsRun | src/yubtc/wallet.py:1202-1204 | The container sent out is a state of the signing protocol with the own key applied everywhere. |
| QuorumSends.AddressIsPlanned | src/yubtc/wallet.py:1042-1062 | The script of an address made by the wallet reads back as its quorum, exactly when the form is P2TR or every key has a compressed-key prefix. |
| Bech32.PolymodLoop | src/yubtc/bech32.py:90-99 | The nested loops, which mix the symbol in before the generators, compute the linear register. |
| Bech32.TwistLinear | src/yubtc/bech32.py:90-99 | The step of the checksum is linear over XOR. |
| Bech32.TwistInjective | src/yubtc/bech32.py:90-99 | The step is injective on 30-bit states. |
| Bech32.OneChangeShows | src/yubtc/bech32.py:90-99 | At any length, changing one symbol changes the checksum register. |
| Bech32.ChecksumUnique | src/yubtc/bech32.py:110-135 | For every prefix and constant exactly one six-symbol checksum passes, the one the encoder computes. |
| Bech32Codec.EncodeText | src/yubtc/bech32.py:110-135 | The encoder's loops give exactly the specified text or error. |
| Bech32Codec.DecodeText | src/yubtc/bech32.py:139-192 | The decoder's loops give exactly the specified parts or error. |
| Bech32Codec.DecodeOfEncode | src/yubtc/bech32.py:110-192 | What is encoded under a legal prefix decodes to the same prefix, encoding and data. |
| Bech32Codec.EncodeOfDecode | src/yubtc/bech32.py:139-192 | What decodes is the encoding of its parts, up to case. |
| Bech32Codec.SubstitutionDetected | src/yubtc/bech32.py:90-192 | Two strings that the decoder accepts, so of at most 90 characters, with one prefix and a difference in exactly one data symbol never have the same encoding constant. |
| Regrouping.BytesTo5Bit | src/yubtc/bech32.py:196-211 | The accumulator loop, under its 12-bit mask, gives the 5-bit groups of the bit string, zero-padded. |
| Regrouping.FiveBitToBytes | src/yubtc/bech32.py:215-240 | The accumulator loop gives the bytes of the bit string, or nothing for a bad value or bad padding. |
| Regrouping.FromFiveOfToFive | src/yubtc/bech32.py:196-240 | Regrouping to 5 bits and back returns the bytes. |
| Regrouping.ToFiveOfFromFive | src/yubtc/bech32.py:196-240 | Whatever regroups to bytes is the regrouping of those bytes. |
| Regrouping.TakeIn | src/yubtc/bech32.py:196-240 | Taking in more bits under the 12-bit mask loses no live bit. |
| Addresses.LockScriptOfAddress | src/yubtc/crypto.py:629-871 | The address built for any P2WPKH, P2WSH or P2TR program stands for exactly the script of that program. |
| Addresses.LockScriptIsOfProgram | src/yubtc/crypto.py:682-871 | A SegWit address that has a lock script is, up to case, the address of one program, and the script is that program's. |
| Addresses.LockScriptInjective | src/yubtc/crypto.py:828-871 | Two SegWit addresses with one script differ in case only. |
| Addresses.StrictDecoders | src/yubtc/crypto.py:743-817 | The P2WSH and P2TR decoders read back every address of their kind, and whatever else they accept is such an address in another case. |
| Addresses.OwnAddressIsOwn | src/yubtc/wallet.py:260-273 | What is paid to one of a key's own addresses, in any of the three forms, that key can sign for. |
| Addresses.QuorumChangeScript | src/yubtc/wallet.py:870-890 | The address of a quorum script stands for exactly the lock script the wallet spends from, in all three forms. |
| Addresses.QuorumAddressPermutation | src/yubtc/wallet.py:797-866 | Every order of the keys gives the same address and script, or the same error, in all three forms. |
| Addresses.QuorumAddressExists | src/yubtc/wallet.py:797-866 | An address exists if and only if the count and bounds hold and the keys are distinct, for P2TR in their x coordinates; keys that differ in parity only are reported as out of bounds. |
| Addresses.ParityTwinsHaveNoAddress | src/yubtc/wallet.py:849-856 | A concrete family of key pairs, equal but for parity: as a 1-of-2 quorum they have a P2SH and a P2WSH address, and for P2TR are refused as out of bounds. |

## Left out

- Hash functions, secp256k1, ECDSA and Schnorr, key derivation, BIP-32, the base58 library: foreign code, taken as functions.
- Network access, command line, text interface, prompts, seeds and wallet files: input and output only.
- `Wallet.send` and announcing: network output behind what is modelled; the callback that reports each address of the walk.
- `psbt_summary`, `validate_utxo_script` as a function of its own, satoshi and dust helpers: they would add easy members.
- `CTransaction.sign`, the legacy-only signing path: `sign_segwit` covers its inputs with the same digest.
- `parse_ms_keys` and `ms_wif_own_key`: parsing of key texts.
- Which of the two errors leftover bytes raise is modelled as the code decides it, but no property is claimed of the choice.
- Base64.DecodeOfEncode: one direction only, because the decoder also accepts padding inside the text and non-zero spare bits, so encoding does not undo decoding.
- FeeLoop.PickedPays: no rate is guaranteed below 1000 satoshi per kilobyte, because the fallback may then return a candidate without a fee.
- Accounting.MakeTransaction: the fee is rounded down on integers, where the source rounds a floating-point quotient.
- QuorumFees.SpendWithinEstimate: for the witness forms; for P2SH it is false (`QuorumShortfall.P2shSpendUnderestimated`).
- QuorumShortfall.P2shSpendUnderestimated: for signatures of at least 39 bytes, because shorter ones, which nothing in the model rules out, can make up for the redeem script; `QuorumShortfall.P2shEstimateHolds` has no such bound.
- QuorumRuns.QuorumSpendCompletes: for P2SH neither id nor rate is claimed, because there the id depends on the signatures and the estimate falls short.
- QuorumAcceptance.QuorumSpendAccepted: for P2SH the fetched transactions are taken to be the ones listed, to pay the quorum, and to be of a shape the encoding can carry (`QuorumRuns.Backed`); the Creator checks the first only.
- QuorumSends.SendCompletes: for P2SH under the same assumption, and for keys with the prefix of a compressed key, as `QuorumSends.AddressIsPlanned` says exactly.
- QuorumShortfall.P2shFeeFallsShort: for signatures of at least 69 bytes, because shorter ones can make up for the size of a change output.
- TapscriptSpends.TapscriptSpendCounts: the counter on reaching `OP_M` is proved, not acceptance of the terminator byte under Bitcoin's opcode table.
- ScriptMachine.GreedyComplete: the interpreter knows the pushes and the three signature opcodes that quorum scripts use, and no others.
- Bech32Codec.DecodeOfEncode: for lowercase, printable prefixes; the encoder does not check the prefix, so it can emit texts that the decoder refuses.
- Bech32Codec.EncodeText: prefixes within ASCII, because the source raises an encoding error for any other.
- Scanning.ScanInputs: the view does not change during the walk.
- Negative amounts, fees and thresholds: the source's callers pass non-negative numbers.
- Object identity of output maps and of lists shared between containers: outputs and keyed lists are values here.
