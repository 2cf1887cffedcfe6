# Waxwing: a verified model of the device core

Waxwing devices meet, sign an encounter together, pull each other's files and attestations over
Bluetooth, and keep small persistent stores about it. This project models the platform-free core of
the firmware, the parts of its vendored cryptography that signing uses, and the parts of the iOS
companion that must agree with it byte for byte. `dafny verify dfyconfig.toml` checks all of it.

**Signatures.** `ScalarModL` is Barrett reduction modulo the group order L on 32-bit limbs,
`FieldElement` the arithmetic modulo p = 2^255 - 19 on ten signed limbs, `SlidingWindow` the merged
verification ladder, `Comb` the twin signed comb for multiples of the base point, `Sha512`,
`Sha512Code` and `Sha256` the streaming hashes over `BlockHash`, and `Eddsa` puts them together:
whatever is signed is accepted, and a signature has no second form. The curve enters as any abelian
group (`Group`) in which [L]B is neutral, with tables that hold the stated multiples.

**Encounters.** `Cbor`, `CborTree`, `CborGrammar` and `CborCode` are the CBOR subset (RFC 8949), `EncounterRecord`
and `RecordCode` the canonical record, `EncounterSession` and `SessionCode` the three-message
handshake, and `Handshake` its agreement over many sessions and a network that loses, repeats,
reorders and alters messages. Signatures are ideal there: verification holds only for bytes that
the key has signed.

**Pulling.** `PeerSync` is the session's state machine, `PeerSyncCode` and `RequestCode` its code,
`RequestRoom` the output buffer it needs, `FileStore` and `FileList` the card under it.
`SyncSafety` proves what holds for every peer, however it answers. `Commands`, `CommandsCode`,
`EncountersGet` and `Pagination` are the other end, and `SyncWire`, `SyncAnswers`, `SyncRun`,
`SyncEnds` and `SyncOutcome` compose the two into a run, with the exact condition for it to end in
DONE and the files, sidecars and questions that it then leaves.

**Stores.** `Rings` are the three ring files as bounded queues, `Encounters` the store of
single-party records with its fixed-offset walks, `Ledger` the per-peer ledger as a map with
eviction, and `Png` and `PngChunks` with `Crc` the captions that the companion embeds in images.

What leaves the device or comes in is pinned down from outside as well: `Formats` spells out every
message and stored slot, `RecordMeaning`, `HalfMeaning`, `CommandMeaning`, `ReplyMeaning` and `Claims`
say which bytes are read as what, `SessionMeaning` and `SyncMeaning` what each call of the handshake
and each reply of a pull does, `HashMeaning` both hashes block by block, and `Sha512Abc`, `Sha256Abc`
and `Crc` derive published values.

Code that updates state in place is modelled by methods and classes; each is proved equal to a
function of its inputs, and the theorems are lemmas about those functions. Machine integers are
subset types of `int`, so every assignment proves the absence of overflow; wrap-around that the
code relies on is written out. The outcome of each file operation, link and clock reading is a
parameter, and the theorems hold for all values of it.

Where the code and its comments or documentation differ, the model follows the code:

- The comment on the field carry chain allows a first accumulator below 2^63 in magnitude;
  rounding adds 2^25 to it first, so `CarryChain` needs that much less. All callers stay far below.
- The 32-bit clamp of a received integer is documented as saturating; -2^64 becomes 0
  (`ClampExact`), and `WrappedReputation` is a record that shows it. At -2^31 the code negates the
  smallest 32-bit integer, modelled as two's complement wrap-around.
- DONE is not final: one more message moves a session to ERROR, after which no record can be taken
  (`NothingAfterDone`).
- A page that holds no element repeats its own offset (`LsStuck`, `BlobsStuck`): at offset 0 of a
  listing or batch that reads as its end, later a session asks for it forever (`StuckListing`,
  `StuckBatch`). Following the offsets yields everything exactly when each element fits a page
  (`LsCompleteExactly`, `BlobsCompleteExactly`), and a session reaches DONE exactly when the listing
  and all batches end (`EndsExactly`). An mtu of 235 guarantees both (`WideLink`).
- A sidecar is stored verbatim only up to 200 bytes, or less on a narrow link; a longer one is cut
  on the way and then not stored at all (`SidecarArrives`).
- A data reply without data makes no progress, and nothing bounds how often it is asked again
  (`EmptyDataHolds`).
- A session asks for 64 bytes of output space, but its requests fit exactly when there are 73
  (`RoomExactly`); `LongRequest` is a run that needs them. The end-to-end theorem assumes the 256
  bytes that the caller provides.

## Model

| member | source | states |
|---|---|---|
| `Limbs.Load32BufVal` | firmware/core/thirdparty/monocypher/monocypher.c:1658-1664 | loading little-endian words keeps the number that the bytes denote |
| `Limbs.Store32BufVal` | firmware/core/thirdparty/monocypher/monocypher.c:1614-1656 | storing little-endian words keeps the number that the limbs denote |
| `ScalarModL.Mac` | firmware/core/thirdparty/monocypher/monocypher.c:1573-1584 | one multiply-accumulate never overflows the 64-bit accumulator, and its two output words denote the exact sum |
| `ScalarModL.RowMulAdd` | firmware/core/thirdparty/monocypher/monocypher.c:1573-1584 | a row adds w times the second factor to a window of the accumulator and touches no other limb |
| `ScalarModL.Multiply` | firmware/core/thirdparty/monocypher/monocypher.c:1573-1584 | p becomes a * b + p exactly, whatever the upper eight limbs held before |
| `ScalarModL.IsAboveL` | firmware/core/thirdparty/monocypher/monocypher.c:1586-1599 | the carry out of x + ~L + 1 is set if and only if x is at least L, for every 256-bit x |
| `ScalarModL.RemoveL` | firmware/core/thirdparty/monocypher/monocypher.c:1602-1612 | L is subtracted exactly when x is at least L; the limbs above are untouched and the buffers may coincide |
| `ScalarModL.Reciprocal` | firmware/core/thirdparty/monocypher/monocypher.c:1614-1656 | the table R is the reciprocal of L scaled by 2^512, to within one L |
| `ScalarModL.EstimateBounds` | firmware/core/thirdparty/monocypher/monocypher.c:1614-1656 | the Barrett estimate is the true quotient or one less, for every x below the scale |
| `ScalarModL.TimesR` | firmware/core/thirdparty/monocypher/monocypher.c:1614-1656 | the first phase leaves the full 25-limb product x * R |
| `ScalarModL.TimesL` | firmware/core/thirdparty/monocypher/monocypher.c:1614-1656 | the second phase overwrites the low limbs with q * L; everything dropped is a multiple of 2^256 |
| `ScalarModL.Subtract` | firmware/core/thirdparty/monocypher/monocypher.c:1614-1656 | the third phase leaves x - q * L up to one borrow of 2^256 |
| `ScalarModL.LowLimbsSuffice` | firmware/core/thirdparty/monocypher/monocypher.c:1614-1656 | because x - q * L fits 256 bits, computing it modulo 2^256 loses nothing |
| `ScalarModL.Remainder` | firmware/core/thirdparty/monocypher/monocypher.c:1614-1656 | one conditional subtraction after the estimate yields exactly x mod L |
| `ScalarModL.ModL` | firmware/core/thirdparty/monocypher/monocypher.c:1614-1656 | for every 512-bit x the 32 output bytes denote x mod L, and no 64-bit carry overflows on the way |
| `ScalarModL.Reduce` | firmware/core/thirdparty/monocypher/monocypher.c:1658-1664 | any 64-byte hash is reduced to its value mod L |
| `ScalarModL.MulAdd` | firmware/core/thirdparty/monocypher/monocypher.c:1667-1678 | (a * b + c) mod L for all 256-bit a, b and c, also when the output overwrites an input |
| `FieldElement.CarryChain` | firmware/core/thirdparty/monocypher/monocypher.c:1105-1120 | no 64-bit intermediate overflows, the number changes by a multiple of p = 2^255 - 19, and all ten limbs come out tight |
| `FieldElement.FeCarry` | firmware/core/thirdparty/monocypher/monocypher.c:1105-1120 | the limbs written are tight and congruent mod p to the accumulators |
| `FieldElement.Mul` | firmware/core/thirdparty/monocypher/monocypher.c:1225-1273 | a 32 by 32 bit product under the limb bounds leaves room in 64 bits for the sums it enters |
| `FieldElement.Sum10` | firmware/core/thirdparty/monocypher/monocypher.c:1225-1273 | adding ten such products from left to right stays inside 64 bits at every step |
| `FieldElement.ProductIdentity` | firmware/core/thirdparty/monocypher/monocypher.c:1225-1273 | the ten accumulators of the 19-folded schoolbook product denote f * g up to a multiple of p |
| `FieldElement.FeMul` | firmware/core/thirdparty/monocypher/monocypher.c:1225-1273 | for loosely bounded f and g the result is tight and congruent to f * g mod p; the output may alias an input |
| `FieldElement.SquareTerms` | firmware/core/thirdparty/monocypher/monocypher.c:1281-1325 | each doubled and folded accumulator of the square equals that of f times itself |
| `FieldElement.FeSq` | firmware/core/thirdparty/monocypher/monocypher.c:1281-1325 | for loosely bounded f the result is tight and congruent to f * f mod p |
| `FieldElement.LoadLimbs` | firmware/core/thirdparty/monocypher/monocypher.c:1128-1147 | the ten loaded pieces denote exactly the low 255 bits of the 32 bytes |
| `FieldElement.FeFromBytes` | firmware/core/thirdparty/monocypher/monocypher.c:1128-1147 | every 32-byte string decodes to a tight element congruent to its low 255 bits |
| `FieldElement.TopCorrection` | firmware/core/thirdparty/monocypher/monocypher.c:1161-1196 | the correction predicted from the top limb alone never changes the sign of a tight number |
| `FieldElement.SignQuotient` | firmware/core/thirdparty/monocypher/monocypher.c:1161-1196 | the first carry loop finds exactly the sign of a tight number, 0 or -1 |
| `FieldElement.ReduceLimbs` | firmware/core/thirdparty/monocypher/monocypher.c:1161-1196 | the second carry loop leaves limbs of the representative in [0, p), each in its unsigned range |
| `FieldElement.PackLimbs` | firmware/core/thirdparty/monocypher/monocypher.c:1161-1196 | the eight packed words denote the same number as the ten reduced limbs |
| `FieldElement.FeToBytes` | firmware/core/thirdparty/monocypher/monocypher.c:1161-1196 | the bytes denote the unique representative in [0, p) of any tight element |
| `FieldElement.RoundTrip` | firmware/core/thirdparty/monocypher/monocypher.c:1128-1196 | encoding what was decoded gives the low 255 bits of the input reduced mod p, for every 32-byte input |
| `SlidingWindow.ScalarBit` | firmware/core/thirdparty/monocypher/monocypher.c:1478-1482 | the bit read is bit i of the number that the bytes denote, and 0 at position -1 |
| `SlidingWindow.LowestBit` | firmware/core/thirdparty/monocypher/monocypher.c:1938-1962 | v & (~v + 1) is the largest power of two dividing v |
| `SlidingWindow.SplitDigit` | firmware/core/thirdparty/monocypher/monocypher.c:1938-1962 | the three masks find that power: v is it times an odd digit below 16 in magnitude |
| `SlidingWindow.Window` | firmware/core/thirdparty/monocypher/monocypher.c:1938-1962 | the window value is what moves the carried number w positions down; it is not zero and fits the width |
| `SlidingWindow.NewWindow` | firmware/core/thirdparty/monocypher/monocypher.c:1938-1962 | a window leaves an odd digit below 2^(width-1) waiting at a position inside the window, and keeps the weighted sum |
| `SlidingWindow.SlideCtx.constructor` | firmware/core/thirdparty/monocypher/monocypher.c:1917-1936 | starts at or below position 253 with an empty sum, for every scalar below 2^253 |
| `SlidingWindow.SlideCtx.Step` | firmware/core/thirdparty/monocypher/monocypher.c:1938-1962 | each digit is zero or odd with magnitude below 2^(width-1), and doubling the sum and adding the digit keeps the recoding of the scalar |
| `SlidingWindow.SlideCtx.End` | firmware/core/thirdparty/monocypher/monocypher.c:1938-1962 | after all positions the digits, weighted by powers of two, sum to the scalar |
| `SlidingWindow.AddDigit` | firmware/core/thirdparty/monocypher/monocypher.c:1987-2018 | every table index is in range and the sum grows by [digit]P |
| `SlidingWindow.LadderStep` | firmware/core/thirdparty/monocypher/monocypher.c:1987-2018 | one merged iteration doubles both multiples and adds both digits, in any abelian group |
| `SlidingWindow.BelowL` | firmware/core/thirdparty/monocypher/monocypher.c:1917-1936 | a scalar below L has no bit at or above position 253 |
| `SlidingWindow.LutA` | firmware/core/thirdparty/monocypher/monocypher.c:1988-1997 | the table built by repeated addition holds the odd multiples of -A |
| `SlidingWindow.Ladder` | firmware/core/thirdparty/monocypher/monocypher.c:1987-2018 | for all h and s below L the sum is exactly [s]B + [h](-A), in any abelian group |
| `SlidingWindow.CheckEquation` | firmware/core/thirdparty/monocypher/monocypher.c:1968-2033 | accepts if and only if A and R decode, S is below L and [8]([S]B - [h]A - R) is neutral |
| `Comb.TeethIndex` | firmware/core/thirdparty/monocypher/monocypher.c:2138-2157 | the sign and index trick selects, up to sign, the entry with the four signs that the bits ask for, in range |
| `Comb.Select` | firmware/core/thirdparty/monocypher/monocypher.c:2138-2157 | the branch-free select is 1 exactly at the wanted index |
| `Comb.LookupAdd` | firmware/core/thirdparty/monocypher/monocypher.c:2138-2157 | adds the signed multiple of the comb that bits i, i+32, i+64 and i+96 stand for |
| `Comb.AccumulatedStep` | firmware/core/thirdparty/monocypher/monocypher.c:2190-2196 | doubling and adding both combs moves the signed-bit sum one position down |
| `Comb.AccumulatedEnd` | firmware/core/thirdparty/monocypher/monocypher.c:2190-2196 | with every bit read as a sign the sum is 2n - (2^256 - 1) |
| `Comb.Constants` | firmware/core/thirdparty/monocypher/monocypher.c:2160-2174 | the static tables denote (L + 1) / 2, and (2^256 - 1) / 2 modulo L |
| `Comb.Recoded` | firmware/core/thirdparty/monocypher/monocypher.c:2176-2177 | the recoding makes 2m - (2^256 - 1) congruent to the scalar modulo L |
| `Comb.CombLoop` | firmware/core/thirdparty/monocypher/monocypher.c:2186-2196 | the twin comb loop returns [2m - (2^256 - 1)]B |
| `Comb.ScalarMultBase` | firmware/core/thirdparty/monocypher/monocypher.c:2160-2205 | [scalar]B for every 32-byte scalar, in any abelian group where [L]B is neutral, given tables of the stated multiples |
| `Eddsa.HashReduce` | firmware/core/thirdparty/monocypher/monocypher-ed25519.c:427-442 | the SHA-512 of up to four strings in a row, reduced mod L |
| `Eddsa.TrimScalar` | firmware/core/thirdparty/monocypher/monocypher.c:1469-1475 | writes the trimmed scalar and nothing behind it, also in place |
| `Eddsa.TrimmedRange` | firmware/core/thirdparty/monocypher/monocypher.c:1469-1475 | a trimmed scalar is a multiple of 8 in [2^254, 2^255) |
| `Eddsa.TrimmedIs` | firmware/core/thirdparty/monocypher/monocypher.c:1469-1475 | a trimmed scalar is 2^254 plus bits 3 to 253 of the number, and nothing else |
| `Eddsa.HashOfAbc` | firmware/core/thirdparty/monocypher/monocypher-ed25519.c:304-310 | the bytes that the hash of "abc" has in FIPS 180-4 |
| `Eddsa.OrderIs` | firmware/core/thirdparty/monocypher/monocypher.c:1567-1570 | L is 2^252 + 27742317777372353535851937790883648493, as in section 5.1 of RFC 8032 |
| `Eddsa.ScalarBase` | firmware/core/thirdparty/monocypher/monocypher.c:2207-2213 | the encoding of [scalar]B |
| `Eddsa.KeyPair` | firmware/core/thirdparty/monocypher/monocypher-ed25519.c:414-425 | the public key is the encoding of [a]B, where a is the first half of the hash of the seed, trimmed; the secret key is seed and public key; the seed is wiped |
| `Eddsa.DomSign` | firmware/core/thirdparty/monocypher/monocypher-ed25519.c:444-470 | with x and y the halves of the hash of the seed, R encodes [r]B for the hash r of domain, y and message, and S is h * a + r mod L for the trimmed x as a and the hash h of domain, R, key and message |
| `Eddsa.Check` | firmware/core/thirdparty/monocypher/monocypher-ed25519.c:472-495 | returns 0 if and only if A and R decode, S is below L, and eight times S B - h A - R is neutral, h being the hash of domain, R, key and message |
| `Eddsa.SignedMultiple` | firmware/core/thirdparty/monocypher/monocypher-ed25519.c:444-464 | [h * a + r mod L]B equals [h]([a]B) + [r]B |
| `Eddsa.SignedAccepted` | firmware/core/thirdparty/monocypher/monocypher-ed25519.c:444-478 | every signature made with a key pair is accepted under its public key, for every seed, message and domain |
| `Eddsa.ScalarUnique` | firmware/core/thirdparty/monocypher/monocypher.c:1968-2033 | two scalars below L that satisfy the equation for the same A, R and h are equal, when B has order L |
| `Eddsa.Unmalleable` | firmware/core/thirdparty/monocypher/monocypher.c:1968-2033 | no two accepted signatures share R, key and message: the second half is determined byte for byte |
| `BlockHash.AbsorbTwice` | firmware/core/thirdparty/monocypher/monocypher-ed25519.c:212-273 | two updates leave the same state as one update with both parts |
| `BlockHash.AnySplit` | firmware/core/thirdparty/monocypher/monocypher-ed25519.c:212-273 | any sequence of updates leaves what one update with the whole message leaves |
| `BlockHash.Padding` | firmware/core/thirdparty/monocypher/monocypher-ed25519.c:275-302 | the padding reaches a whole number of blocks for every message length |
| `Sha512Code.RoundIs` | firmware/core/thirdparty/monocypher/monocypher-ed25519.c:144-177 | the rearranged sums of the code are the round of section 6.4.2 of FIPS 180-4 |
| `Sha512Code.ScheduleStep` | firmware/core/thirdparty/monocypher/monocypher-ed25519.c:144-177 | the in-place step writes the next word of the 80-word schedule into its slot and keeps the window |
| `Sha512Code.Compress` | firmware/core/thirdparty/monocypher/monocypher-ed25519.c:144-177 | with the 16-word buffer extended in place the hash becomes the compression of the original block |
| `Sha512.PartialSnoc` | firmware/core/thirdparty/monocypher/monocypher-ed25519.c:179-185 | or-ing a byte into its place extends a partly filled word |
| `Sha512.WordsSnoc` | firmware/core/thirdparty/monocypher/monocypher-ed25519.c:179-185 | setting one more byte changes exactly one input word |
| `Sha512.StoreLoad` | firmware/core/thirdparty/monocypher/monocypher-ed25519.c:82-104 | loading what was stored big-endian gives the word back |
| `Sha512Code.Context.Increment` | firmware/core/thirdparty/monocypher/monocypher-ed25519.c:187-194 | the two-word counter adds modulo 2^128 |
| `Sha512Code.Context.SetInput` | firmware/core/thirdparty/monocypher/monocypher-ed25519.c:179-185 | one more byte is pending |
| `Sha512Code.Context.LoadWords` | firmware/core/thirdparty/monocypher/monocypher-ed25519.c:212-273 | whole words loaded at a word boundary are pending as if set byte by byte |
| `Sha512Code.Context.Update` | firmware/core/thirdparty/monocypher/monocypher-ed25519.c:212-273 | through word alignment, block alignment, whole blocks and the rest, the context absorbs exactly the data |
| `Sha512Code.Context.Final` | firmware/core/thirdparty/monocypher/monocypher-ed25519.c:275-302 | the output is the hash of the whole message padded as in section 5.1.2 of FIPS 180-4 |
| `Sha512Code.PaddingShape` | firmware/core/thirdparty/monocypher/monocypher-ed25519.c:275-302 | one or two final blocks, split at 112 bytes, are exactly the padding |
| `Sha512Code.DigestIs` | firmware/core/thirdparty/monocypher/monocypher-ed25519.c:275-302 | the digest is one or two compressions after the pending bytes |
| `Sha512Code.HashPieces` | firmware/core/thirdparty/monocypher/monocypher-ed25519.c:196-310 | any split of a message into update calls gives the hash of the message |
| `HashMeaning.Digest512` | firmware/core/thirdparty/monocypher/monocypher-ed25519.c:144-302 | the digest as section 6.4 of FIPS 180-4 has it, for every message: shortest padding with the length in bits, and one chaining value a block, each added to what its rounds make of it |
| `Sha512Abc.DigestOfAbc` | firmware/core/thirdparty/monocypher/monocypher-ed25519.c:80-302 | the digest of "abc" is the one published for SHA-512, which fixes every rotation, constant and byte order |
| `Sha256.Schedule` | firmware/core/thirdparty/sha256/sha256.c:39-63 | the array holds the 64-word schedule of section 6.2.2 of FIPS 180-4 |
| `Sha256.Compress` | firmware/core/thirdparty/sha256/sha256.c:39-63 | the state becomes the compression of the block |
| `Sha256.Context.Update` | firmware/core/thirdparty/sha256/sha256.c:78-106 | through topping up, whole blocks and the rest, the context absorbs exactly the data |
| `Sha256.Context.Final` | firmware/core/thirdparty/sha256/sha256.c:108-136 | the output is the hash of the whole message padded as in section 5.1.1 of FIPS 180-4 |
| `Sha256.DigestIs` | firmware/core/thirdparty/sha256/sha256.c:108-136 | the digest is one or two compressions after the pending bytes, split at 56 |
| `Sha256.HashPieces` | firmware/core/thirdparty/sha256/sha256.c:65-136 | any split of a message into update calls gives the hash of the message |
| `HashMeaning.Digest256` | firmware/core/thirdparty/sha256/sha256.c:62-136 | the digest as section 6.2 of FIPS 180-4 has it, in the same way |
| `Sha256Abc.DigestOfAbc` | firmware/core/thirdparty/sha256/sha256.c:10-136 | the digest of "abc" is the one published for SHA-256, which fixes every rotation, constant and byte order |
| `Cbor.DecodeHeader` | firmware/core/cbor_decode.c:11-47 | a header written by the encoder decodes to its argument and its length, whatever follows |
| `Cbor.ShortestForm` | firmware/core/cborencode.c:9-32 | no header that decodes to the same argument is shorter than the one the encoder writes |
| `Cbor.Parse` | firmware/core/cbor_decode.c:56-145 | a successful parse starts at pos, consumes at least one byte and stays inside end |
| `Cbor.ParseMonotone` | firmware/core/cbor_decode.c:56-145 | a successful parse is unchanged by a later end, by other bytes behind the old end and by a smaller depth |
| `Cbor.Rewalk` | firmware/core/cbor_decode.c:56-145 | fresh top-level parses over the children of a parsed array or map never fail and stop exactly at its next |
| `CborTree.ParseEncoded` | firmware/core/cbor_decode.c:56-145 | any encoded tree within the depth limit parses to its item, whatever bytes follow |
| `CborTree.ReadEncoded` | firmware/core/cbor_decode.c:56-172 | reading an encoded tree child by child returns the tree |
| `CborTree.EncodeInjective` | firmware/core/cborencode.c:9-81 | the encoding is injective and prefix-free: equal streams start with equal trees and have equal tails |
| `CborGrammar.ParsesExactly` | firmware/core/cbor_decode.c:56-145 | the parser accepts exactly the items of a grammar of its own, with at most eight levels of containers in and around them, and reads their kind, argument and extent |
| `Formats.Integers` | firmware/core/cborencode.c:9-81 | the examples of unsigned integers in appendix A of RFC 8949, in every width |
| `Formats.Negatives` | firmware/core/cborencode.c:9-81 | its examples of negative numbers |
| `Formats.StringsAndSimple` | firmware/core/cborencode.c:9-81 | its examples of strings and booleans |
| `Formats.Containers` | firmware/core/cborencode.c:9-81 | its examples of arrays and maps |
| `CborTree.CutFails` | firmware/core/cbor_decode.c:56-145 | no proper beginning of an encoded tree parses |
| `CborTree.IsTextEncoded` | firmware/core/cbor_decode.c:152-172 | the key comparison on bytes holds exactly for the text with those characters |
| `SyncWire.FindShows` | firmware/core/cbor_decode.c:152-172 | searching the bytes of an encoded map under a key finds the item of the first pair with that key, or nothing |
| `CborCode.CborParse` | firmware/core/cbor_decode.c:56-145 | the loop over the children consumes what the recursive definition consumes, on every input |
| `CborCode.CborMapFind` | firmware/core/cbor_decode.c:152-172 | the loop finds the first pair with the key, and fails where a parse fails |
| `CborCode.EncodeHeader` | firmware/core/cborencode.c:9-32 | writes the shortest header into the buffer, returns its length and changes no other byte |
| `CborCode.EncodeUInt64` | firmware/core/cborencode.c:38-50 | writes the canonical item, its length is returned, no other byte changes |
| `CborCode.EncodeInt` | firmware/core/cborencode.c:52-56 | a negative number is written as the major type 1 item of -1 - x |
| `CborCode.EncodeString` | firmware/core/cborencode.c:58-68 | header and payload are written next to each other, no other byte changes |
| `CborCode.EncodeBool` | firmware/core/cborencode.c:70-73 | writes the one-byte item |
| `CborCode.CborBuilder.WriteArg` | ios/WaxwingCompanion/WaxwingCompanion/BLE/CBORBuilder.swift:35-58 | appends the very header that the firmware writes, for every 64-bit argument |
| `CborCode.CborBuilder.AddInt` | ios/WaxwingCompanion/WaxwingCompanion/BLE/CBORBuilder.swift:16-22 | appends the canonical item of any 64-bit signed integer, without overflow at the minimum |
| `CborCode.CborBuilder.AddByteString` | ios/WaxwingCompanion/WaxwingCompanion/BLE/CBORBuilder.swift:24-27 | appends the canonical byte string |
| `EncounterRecord.GetSet` | firmware/core/encounter_record.c:186-303 | storing one field changes that field and no other |
| `EncounterRecord.FieldsDecide` | firmware/core/encounter_record.c:58-134 | records with equal signed fields have the same body; with equal signatures too they are equal |
| `EncounterRecord.EncodedLength` | firmware/core/encounter_record.c:58-144 | the body is at most 317 bytes and the full record at most 451 |
| `EncounterRecord.BodyInjective` | firmware/core/encounter_record.c:58-139 | bodies are equal, even as beginnings of longer streams, if and only if all 17 signed fields agree |
| `EncounterRecord.ClampExact` | firmware/core/encounter_record.c:152-161 | the conversion saturates to 32 bits for every CBOR integer if and only if it is not -2^64, which becomes 0 |
| `EncounterRecord.WrappedReputation` | firmware/core/encounter_record.c:152-303 | a record that arrives with the reputation -2^64 is accepted, with the reputation 0 |
| `EncounterRecord.ReadFieldEncoded` | firmware/core/encounter_record.c:163-184 | reading the item of an encoded value gives the field that the value stands for |
| `EncounterRecord.DecodeEncoded` | firmware/core/encounter_record.c:186-303 | decoding an encoded map of any entries, with any tail, folds its entries in order |
| `EncounterRecord.UnknownIgnored` | firmware/core/encounter_record.c:186-303 | an entry whose key names no field is skipped wherever it stands |
| `EncounterRecord.RoundTrip` | firmware/core/encounter_record.c:58-303 | decoding an encoded full record followed by any tail returns the record |
| `RecordMeaning.NoMapNoRecord` | firmware/core/encounter_record.c:186-303 | anything that is no map is no record |
| `RecordMeaning.DecodesExactly` | firmware/core/encounter_record.c:186-303 | an encoded map decodes to a record if and only if each entry with a key from 1 to 19 has a value of its type, all these keys occur and the version is 1; the record then has the values of the last entries |
| `EncounterRecord.DecodedIsCanonical` | firmware/core/encounter_record.c:186-303 | whatever bytes a record was decoded from, its canonical encoding exists and decodes to it |
| `RecordCode.EncodeRecordInto` | firmware/core/encounter_record.c:58-144 | the cursor code writes exactly the canonical map into the buffer, inside its length, or nothing |
| `Formats.VerifiesExactly` | firmware/core/encounter_record.c:309-320 | a record verifies if and only if its version is 1, neither side has more than eight BSSIDs, and both signatures hold over the 17 entries |
| `Formats.RecordRoom` | firmware/core/encounter_record.c:58-144 | buffers below 384 bytes for a body and 512 for a full record are refused, whatever the record |
| `Formats.RecordIs` | firmware/core/encounter_record.c:58-144 | which entries the body and the full record have, key by key, and exactly which records have none |
| `RecordCode.EncodeBssidArray` | firmware/core/encounter_record.c:47-54 | writes the array of 6-byte strings in 1 + 7n bytes |
| `RecordCode.DecodeRecord` | firmware/core/encounter_record.c:186-303 | the loop with its set of seen keys decides as the recursive decoder, on every input |
| `RecordCode.RebuildBody` | ios/WaxwingCompanion/WaxwingCompanion/Models/EncounterRecord2.swift:171-194 | the companion app rebuilds, entry by entry, the very bytes that the firmware signs |
| `EncounterSession.HalfLength` | firmware/core/encounter_session.c:145-201 | a PROPOSE is at most 162 bytes and an ACCEPT at most 229, inside the staging buffer |
| `EncounterSession.FindFieldEncoded` | firmware/core/encounter_session.c:207-276 | looking a key up in the bytes of an encoded map is looking it up in the map |
| `EncounterSession.DecodeHalfEncoded` | firmware/core/encounter_session.c:207-276 | receiving a half message copies exactly the sender's side, and the signature only from an ACCEPT, with any tail |
| `EncounterSession.DecodeConfirmEncoded` | firmware/core/encounter_session.c:310-335 | the signature of a CONFIRM arrives unchanged |
| `Formats.HalfIs` | firmware/core/encounter_session.c:145-201 | which entries each side sends, key by key |
| `Formats.MessagesAre` | firmware/core/encounter_session.c:145-201 | the three messages as maps, and that buffers below 256 bytes get none |
| `HalfMeaning.NoMapNoMessage` | firmware/core/encounter_session.c:207-335 | anything that is no map is none of the three messages |
| `HalfMeaning.HalfDecodesExactly` | firmware/core/encounter_session.c:207-276 | an encoded map is received if and only if it has the expected type, version 1 and all keys with values of their types; it then replaces exactly the sender's side |
| `HalfMeaning.ConfirmDecodesExactly` | firmware/core/encounter_session.c:310-335 | an encoded map is a CONFIRM if and only if it has type 3 and 64 bytes of signature |
| `SessionCode.EncodeHalfInto` | firmware/core/encounter_session.c:145-201 | the cursor code writes exactly the half message, or nothing |
| `SessionCode.DecodeHalfMessage` | firmware/core/encounter_session.c:207-276 | the sequence of lookups decides and stores as the specification, on every input |
| `SessionCode.DecodeConfirmMessage` | firmware/core/encounter_session.c:322-335 | accepts exactly the inputs that the specification accepts |
| `SessionCode.SessionObject.StartSession` | firmware/core/encounter_session.c:347-386 | the object, the bytes written and the step are those of the start function, for both roles and bad input |
| `SessionCode.SessionObject.Accepted` | firmware/core/encounter_session.c:389-424 | in every branch the object, output and step are those of the initiator transition that the handshake proofs use |
| `SessionCode.SessionObject.Proposed` | firmware/core/encounter_session.c:427-476 | in every branch the object, output and step are those of the responder transition |
| `SessionCode.SessionObject.Confirmed` | firmware/core/encounter_session.c:480-499 | in every branch the object and step are those of the final transition |
| `SessionCode.SessionObject.HandleMessage` | firmware/core/encounter_session.c:501-528 | dispatch by role and state, DONE included, which one more message turns into ERROR |
| `SessionCode.SessionObject.Take` | firmware/core/encounter_session.c:530-535 | a record comes out at DONE and only there |
| `SessionMeaning.StartExactly` | firmware/core/encounter_session.c:347-386 | a session begins unless it has more than eight BSSIDs or less than 256 bytes of room; the initiator sends its own side, entry by entry |
| `SessionMeaning.ProposeExactly` | firmware/core/encounter_session.c:427-476 | exactly when a responder answers a PROPOSE, with which record and which bytes; every failure ends in ERROR without output |
| `SessionMeaning.AcceptExactly` | firmware/core/encounter_session.c:389-424 | exactly when an initiator confirms and completes, with which record and which bytes |
| `SessionMeaning.ConfirmExactly` | firmware/core/encounter_session.c:480-499 | exactly when a responder completes, and with which record |
| `SessionMeaning.NothingElse` | firmware/core/encounter_session.c:501-535 | no other state takes a message, and no other state than DONE has a record |
| `Handshake.HandleFacts` | firmware/core/encounter_session.c:501-528 | one call keeps role and key, never returns to a fresh state, signs only a fresh body, and reaches DONE only after verifying the peer |
| `Handshake.Invariant` | firmware/core/encounter_session.c:347-528 | every world reached by starts, deliveries of any bytes and outside signatures satisfies the protocol invariant |
| `Handshake.Agreement` | firmware/core/encounter_session.c:347-528 | a DONE party's peer key signed the same body; if that key is honest (and, for a responder, not its own) a session of it in the opposite role holds the same 17 fields |
| `Handshake.AllExpected` | firmware/core/encounter_session.c:100-107 | over all runs of all sessions: one that is DONE, or has answered as a responder, expects no one in particular or a peer whose key starts as that in its record |
| `Handshake.ExpectedPeer` | firmware/core/encounter_session.c:100-107 | the same of what one session was started with, whatever it is fed |
| `Handshake.SignsOnce` | firmware/core/encounter_session.c:347-528 | over any run each session signs at most once |
| `Handshake.PartnerUnique` | firmware/core/encounter_session.c:347-528 | with fresh nonces no two sessions of a party share a partner |
| `Handshake.ReflectedConfirm` | firmware/core/encounter_session.c:480-499 | a concrete run in which a responder, whose peer claims its own key, completes on its own reflected signature although no partner session exists, so the side condition of the agreement is needed |
| `Handshake.NothingAfterDone` | firmware/core/encounter_session.c:501-535 | after one more message at DONE, and forever after, no record can be taken |
| `Handshake.HonestRun` | firmware/core/encounter_session.c:347-535 | when the messages arrive, and each party is the one that the other expects, both reach DONE with the same record, field by field what the two put in, and both signatures of it hold |
| `Handshake.TakenVerifies` | firmware/core/encounter_record.c:309-319 | whatever a session is fed, both signatures of a record taken from it hold over its body |
| `Handshake.StartedVerifies` | firmware/core/encounter_session.c:530-535 | so does any record taken from a session that started normally |
| `FileStore.WriteExactly` | firmware/cardputer/src/hw/filestore_sd.cpp:346-421 | a write started, appended to in any pieces and finished: exactly when it starts, when the pieces are taken, and what is left in each case; success leaves exactly the file of the pieces, an overrun or a gap no file, and nothing else changes but a stale write that goes away |
| `FileStore.ShortWrite` | firmware/cardputer/src/hw/filestore_sd.cpp:379-431 | a piece taken only in part stays in the file uncounted until the write is ended, which takes the file away |
| `FileStore.MetaStored` | firmware/cardputer/src/hw/filestore_sd.cpp:589-599 | a sidecar is stored under a valid name that opens, and otherwise nothing happens |
| `FileStore.Card.Start` | firmware/cardputer/src/hw/filestore_sd.cpp:346-377 | for a size in range a stale open write is aborted first, even if the start is then refused for its name or by the card; otherwise the file, new or old, is opened empty; a size out of range changes nothing |
| `FileStore.Card.Append` | firmware/cardputer/src/hw/filestore_sd.cpp:379-390 | a short write or an overrun fails; otherwise the open file grows by the data |
| `FileStore.Card.Finish` | firmware/cardputer/src/hw/filestore_sd.cpp:392-421 | succeeds exactly when every declared byte has arrived under the right name |
| `FileStore.Card.Abort` | firmware/cardputer/src/hw/filestore_sd.cpp:423-432 | the open file disappears, no other file changes |
| `FileList.SortingSorts` | firmware/cardputer/src/hw/filestore_sd.cpp:203-216 | the listing has the same lines in ascending order |
| `FileList.AscendingUnique` | firmware/cardputer/src/hw/filestore_sd.cpp:203-216 | with distinct names it does not depend on how the card enumerates the directory |
| `FileList.GreaterLexical` | firmware/cardputer/src/hw/filestore_sd.cpp:203-216 | the order of names is that of their bytes |
| `FileList.SidecarsAre` | firmware/cardputer/src/hw/filestore_sd.cpp:157-200 | sidecars are the names that end in .meta or .h8 |
| `FileList.StagedAre` | firmware/cardputer/src/hw/filestore_sd.cpp:157-200 | staged are the first 64 entries that are neither directories nor sidecars, with names cut to 31 bytes |
| `FileList.InsertInPlace` | firmware/cardputer/src/hw/filestore_sd.cpp:203-216 | the inner loop puts one line in its place and leaves the rest of the array alone |
| `FileList.SortStage` | firmware/cardputer/src/hw/filestore_sd.cpp:203-216 | the in-place insertion sort produces that listing |
| `FileList.ListFiles` | firmware/cardputer/src/hw/filestore_sd.cpp:157-236 | a page is the slice of the sorted listing at the offset, and next is where it ends, or 0 at the end |
| `PeerSync.ScanFindsFirst` | firmware/core/peer_sync.c:238-303 | the entry locked in is the first of the page that is neither present by name or hash nor too big, whatever stands before it; when there is none the session leaves the page |
| `SyncSafety.OnSizeSafe` | firmware/core/peer_sync.c:379-428 | the size reply keeps the invariant, for every reply and every outcome of the card |
| `SyncSafety.OnDataSafe` | firmware/core/peer_sync.c:430-498 | so does the data reply, whatever it carries |
| `SyncSafety.OnMetaSafe` | firmware/core/peer_sync.c:500-524 | so does the sidecar reply |
| `SyncSafety.EventSafe` | firmware/core/peer_sync.c:704-775 | starting, any reply and ending keep it; ending leaves no write open |
| `SyncSafety.AnyPeer` | firmware/core/peer_sync.c:704-775 | over all event sequences: the open write is the session's with what it has received, earlier files keep their bytes, each new file has its declared size, the counter advances by the commits mod 256 |
| `SyncSafety.EndLeavesNothingOpen` | firmware/core/peer_sync.c:728-775 | at every point, ending the session leaves no write open |
| `SyncSafety.ChunkAdvances` | firmware/core/peer_sync.c:430-498 | a data reply leaves device and session as they are, asking for the same bytes again, if and only if it is empty; otherwise it moves on by its length or fails |
| `SyncSafety.EmptyDataHolds` | firmware/core/peer_sync.c:430-498 | at any point of any run, a peer that answers with empty data holds the session where it is for as long as it likes |
| `PeerSyncCode.FsHashExists` | firmware/core/peer_sync.c:185-205 | paging through the listing finds a hash exactly when some entry has it |
| `PeerSyncCode.EnqueueAll` | firmware/core/peer_sync.c:568-616 | queues each BSSID that is neither queued nor attested, up to the total |
| `PeerSyncCode.GatherAll` | firmware/core/peer_sync.c:568-616 | the paged scan of local records queues the same BSSIDs as one pass |
| `PeerSyncCode.DecodeEntries` | firmware/core/peer_sync.c:309-377 | malformed entries are dropped and the rest is kept in order, up to a page |
| `PeerSyncCode.ReadReply` | firmware/core/peer_sync.c:309-524 | every byte string is read, in the phase that waits for it, as the reply that the state machine handles |
| `ReplyMeaning.InterpretsExactly` | firmware/core/peer_sync.c:309-702 | whatever map a peer answers with, the session reads it entry by entry as spelled out: errors, lines of a listing, sizes modulo 2^32, data, a sidecar byte for byte, blobs |
| `ReplyMeaning.UpToNulIs` | firmware/core/cbor_decode.c:183-194 | a name that arrives ends at its first NUL |
| `ReplyMeaning.NoMapRefused` | firmware/core/peer_sync.c:160-183 | anything that is no map is refused, or no sidecar |
| `PeerSyncCode.DecodeBlobs` | firmware/core/peer_sync.c:652-698 | the non-empty byte strings of the array, in order |
| `PeerSyncCode.SyncSession.Begin` | firmware/core/peer_sync.c:704-726 | one slot: refused while in use; otherwise a wiped session asks for the first page |
| `PeerSyncCode.SyncSession.AbortInflight` | firmware/core/peer_sync.c:207-212 | an open write is aborted, and only then |
| `PeerSyncCode.SyncSession.Finish` | firmware/core/peer_sync.c:769-775 | ends as the safety proof assumes |
| `PeerSyncCode.SyncSession.StartNextFile` | firmware/core/peer_sync.c:238-303 | skipping, locking in or leaving the page, in place, as the transition function |
| `PeerSyncCode.SyncSession.EnterAttestPhase` | firmware/core/peer_sync.c:618-650 | the next batch of at most the batch size, or DONE |
| `PeerSyncCode.SyncSession.HandleListing` | firmware/core/peer_sync.c:309-377 | in place as the transition function, for every reply |
| `PeerSyncCode.SyncSession.HandleSize` | firmware/core/peer_sync.c:379-428 | in place as the transition function, for every reply and card outcome |
| `PeerSyncCode.SyncSession.HandleData` | firmware/core/peer_sync.c:430-498 | in place as the transition function, for every reply and card outcome |
| `PeerSyncCode.SyncSession.HandleMeta` | firmware/core/peer_sync.c:500-524 | in place as the transition function, for every reply and card outcome |
| `PeerSyncCode.SyncSession.HandleBlobs` | firmware/core/peer_sync.c:652-698 | in place as the transition function, for every reply |
| `PeerSyncCode.SyncSession.HandleResponse` | firmware/core/peer_sync.c:728-767 | the whole dispatch, on session and device together, equals the function that safety and end-to-end proofs are about |
| `SyncMeaning.BeginsExactly` | firmware/core/peer_sync.c:704-726 | one session at a time, with 64 bytes of room, from a clean slate |
| `SyncMeaning.Ignored` | firmware/core/peer_sync.c:728-767 | without a session or room, and after its end, a reply changes nothing |
| `SyncMeaning.StopsExactly` | firmware/core/peer_sync.c:769-775 | ending frees the slot and removes what was being written, and nothing else |
| `SyncMeaning.ListingExactly` | firmware/core/peer_sync.c:309-377 | a page is scanned from its first line, anything else is an error |
| `SyncMeaning.SizeExactly` | firmware/core/peer_sync.c:379-428 | exactly when a file is begun; otherwise no file changes and the scan goes on behind it |
| `SyncMeaning.DataExactly` | firmware/core/peer_sync.c:430-498 | exactly when data is kept, asked for again or completes the file, with the bytes on the card; in every other case the session is over and the file gone |
| `SyncMeaning.MetaExactly` | firmware/core/peer_sync.c:500-524 | a sidecar that arrives is stored, and the scan goes on in any case |
| `SyncMeaning.LeavesListing` | firmware/core/peer_sync.c:289-303 | behind the last line comes the next page, or the questions, gathered once |
| `SyncMeaning.BlobsExactly` | firmware/core/peer_sync.c:618-698 | answers are cached, then the same batch goes on or the next begins, twelve at a time and with 200 bytes of room |
| `RequestCode.RequestSizeExact` | firmware/core/peer_sync.c:89-151 | the exact length of every request on the wire |
| `RequestCode.RequestSizes` | firmware/core/peer_sync.c:89-151 | requests take at most 73 bytes, and one for a 31-byte name at an offset of 2^16 or more takes as many; a query for a batch takes at most 122 |
| `RequestCode.EncodeRequest` | firmware/core/peer_sync.c:89-151 | every request is written as its canonical map into any buffer that holds it, and nothing else is changed |
| `Formats.RequestsAre` | firmware/core/peer_sync.c:89-151 | the entries of every request, name by name |
| `Formats.RepliesAre` | firmware/core/commands.c:137-385 | the entries of the replies |
| `RequestRoom.RunSmall` | firmware/core/peer_sync.c:309-377 | over any events the names that a session holds fit their buffers, whatever the peer lists |
| `RequestRoom.BatchRoom` | firmware/core/peer_sync.c:618-650 | a batch of at most 12 BSSIDs is asked for if the buffer has 200 bytes, and otherwise the session fails |
| `RequestRoom.LongRequest` | firmware/core/peer_sync.c:728-734 | for every buffer size from 64 on, a run whose calls all give that size in which the session sends 73 bytes |
| `RequestRoom.RoomExactly` | firmware/core/peer_sync.c:704-767 | over all runs, every request fits the buffer it is written to if and only if the buffer holds 73 bytes or is refused for holding fewer than 64 |
| `Commands.FittingExact` | firmware/core/commands.c:160-175 | the budget loop takes as many leading items as fit, and no more |
| `Commands.LsEntrySizeExact` | firmware/core/commands.c:126-135 | the size estimate of a line is its exact encoded length |
| `Commands.BlobSizeExact` | firmware/core/commands.c:617-621 | the size estimate of a blob is its exact encoded length |
| `Commands.SafeChunkIs` | firmware/core/commands.c:40-46 | a chunk is the longest that fits the link with 16 bytes around it, but never below 16 or above 220 bytes |
| `Commands.FirstWithHashIs` | firmware/core/commands.c:91-108 | a hash names the first line that has it |
| `Pagination.LsReplyLength` | firmware/core/commands.c:137-200 | an ls reply never exceeds its budget, min(mtu - 3, buffer), once that holds an empty page |
| `Pagination.LsPageMaximal` | firmware/core/commands.c:137-200 | a page ends with the listing, at 16 lines, or where the next line would leave less than 27 bytes for the rest |
| `Pagination.LsProgress` | firmware/core/commands.c:137-200 | on a link of mtu 93 or more every next_offset is further on |
| `Pagination.LsPagesComplete` | firmware/core/commands.c:137-200 | when every line fits a page, the pages concatenate to the listing, each entry once and in order |
| `Pagination.LsCompleteExactly` | firmware/core/commands.c:137-200 | following next_offset from 0 ends with the whole listing if and only if every line of it fits a page of the link, for all listings and links |
| `Pagination.LinesFitWideLink` | firmware/core/commands.c:137-200 | on a link of mtu 93 or more every line fits |
| `Pagination.LsStuck` | firmware/core/commands.c:160-177 | at a line that does not fit the reply is empty and gives its own offset again |
| `Pagination.LsStuckForever` | firmware/core/commands.c:160-177 | behind the first line, a caller that follows next_offset gets that empty page forever |
| `Pagination.BlobReplyLength` | firmware/core/commands.c:503-589 | a reply of blobs or records never exceeds its budget, once that holds an empty page |
| `Pagination.BlobPageMaximal` | firmware/core/commands.c:643-707 | a page of blobs or records ends with them or where the next one would leave less than 32 bytes for the rest |
| `Pagination.BlobPagesComplete` | firmware/core/commands.c:617-707 | following next_offset, the pages concatenate to all matching elements, each once and in order |
| `Pagination.BlobsStuck` | firmware/core/commands.c:617-707 | at an element that does not fit the reply is empty and asks to go on at its own offset, forever |
| `Pagination.BlobsCompleteExactly` | firmware/core/commands.c:617-707 | following next_offset from 0 ends, and then with all elements, if and only if every one of them fits a page |
| `Pagination.StorableShort` | firmware/core/commands.c:617-707 | any stored blob fits a page on a link of mtu 235 or more |
| `CommandsCode.CountLines` | firmware/core/commands.c:160-175 | the loop counts exactly the lines that fit |
| `CommandsCode.AnswerLs` | firmware/core/commands.c:137-200 | the reply is the canonical map of the page, its header being the number of lines emitted |
| `CommandsCode.CountIsPage` | firmware/core/commands.c:623-632 | the counting pass finds exactly the page, and overflow exactly when elements remain |
| `CommandsCode.EmitIsPage` | firmware/core/commands.c:634-641 | the emitting pass yields exactly the slice that was counted |
| `CommandsCode.Walk.Count` | firmware/core/commands.c:623-632 | one callback step of the counting pass, including its stop |
| `CommandsCode.Walk.Emit` | firmware/core/commands.c:634-641 | one callback step of the emitting pass; it stops only when the page is complete |
| `CommandsCode.CountRing` | firmware/core/attest_query.c:82-106 | counting one ring with early stop equals counting all its matching blobs |
| `CommandsCode.EmitBoth` | firmware/core/attest_query.c:92-106 | emitting over both rings with early stop equals emitting from all matching blobs, own ones first |
| `CommandsCode.AnswerAttestQuery` | firmware/core/commands.c:643-707 | the reply is the canonical map of the page: array header, blobs and next_offset agree |
| `CommandsCode.ExtractBssids` | firmware/core/attest_query.c:16-55 | the BSSIDs claimed under key 4, up to the room given, or failure at the first malformed item |
| `Claims.NoMapNoClaims` | firmware/core/attest_query.c:16-80 | anything that is no map claims nothing and answers no query |
| `Claims.ExtractEncoded` | firmware/core/attest_query.c:16-55 | the claims of any encoded map are the six-byte strings of the array under its first key 4 |
| `Claims.ClaimsExactly` | firmware/core/attest_query.c:57-80 | an attestation for up to eight BSSIDs claims exactly those, and answers a query if and only if it asks for one of them |
| `Claims.RecordClaims` | firmware/core/attest_query.c:57-80 | a record that the device made is an attestation for the BSSIDs of its scan |
| `CommandsCode.MatchAny` | firmware/core/attest_query.c:57-71 | true exactly when a claimed BSSID is queried |
| `CommandsCode.Ingest` | firmware/core/commands.c:709-731 | the loop over the array, with its stop at a malformed element and cache writes that cannot be persisted |
| `CommandsCode.IngestCounts` | firmware/core/commands.c:709-744 | a report comes back if and only if every element parses, and then counts each once; in any case the cache ends as if every blob read had been written in turn, and it grows by what was stored while nothing is evicted |
| `EncountersGet.CountRecords` | firmware/core/commands.c:503-524 | counts the page of the records later than since, and whether some remain |
| `EncountersGet.EmitRecords` | firmware/core/commands.c:526-536 | emits exactly the counted records |
| `EncountersGet.AnswerEncountersGet` | firmware/core/commands.c:538-589 | the reply is the canonical map of the page, its header being the number of records emitted |
| `EncountersGet.PagesAreRecords` | firmware/core/commands.c:538-589 | following next_offset from 0 gives exactly the records later than since, each once and in order, on a link of mtu 206 or more |
| `EncountersGet.NewerExactly` | firmware/core/commands.c:503-524 | of the records that the device made, those with a later time are listed, in order |
| `CommandMeaning.RespondsExactly` | firmware/core/commands.c:772-816 | whatever map a command is, it is answered entry by entry as spelled out: the file meant by name or hash, sizes, chunks, sidecars, pages of lines and blobs, errors, and the room each answer asks for |
| `CommandMeaning.NoMapFails` | firmware/core/commands.c:772-784 | a command that is no map is an error, an empty one gets no answer |
| `SyncAnswers.Answered` | firmware/core/commands.c:772-816 | every request a session sends is answered by a reply that fits the buffer, and the link too unless its sidecar is too long for it; and the session reads what the link carries of it as it is meant, byte formats included |
| `SyncAnswers.QueryHandled` | firmware/core/commands.c:643-670 | a query is answered for its first twelve BSSIDs |
| `SyncAnswers.SidecarArrives` | firmware/core/commands.c:350-385 | an encoded map as a sidecar arrives byte for byte if and only if it fits the 200-byte read buffer and, with six bytes in front, the link; otherwise nothing is stored; a missing one arrives as an empty map |
| `SyncRun.ChunkRun` | firmware/core/peer_sync.c:430-498 | from any position in a file, finitely many chunk exchanges store the rest of the peer's bytes |
| `SyncRun.FetchRun` | firmware/core/peer_sync.c:379-524 | from locking a file in to moving on, the device gains exactly that file and its sidecar, or nothing |
| `SyncRun.PageRun` | firmware/core/peer_sync.c:238-303 | a page of the listing is pulled file by file |
| `SyncRun.ListRun` | firmware/core/peer_sync.c:309-377 | all pages are followed to the end of the listing |
| `SyncRun.BatchRun` | firmware/core/peer_sync.c:618-698 | a batch of BSSIDs is drained page by page |
| `SyncRun.AttestRun` | firmware/core/peer_sync.c:618-698 | all pending BSSIDs are asked, batch after batch |
| `SyncRun.WholeBatch` | firmware/core/peer_sync.c:618-698 | a batch whose first blob does not fit the link is over after one exchange, with nothing cached; one whose blobs all fit is drained |
| `SyncRun.Ends` | firmware/core/peer_sync.c:704-767 | when the listing and all batches end, every session reaches DONE, and the device is what pulling the offered files and asking the pending BSSIDs once makes of it |
| `SyncEnds.WideLink` | firmware/core/commands.c:137-200 | a link of mtu 235 or more holds every line and every blob |
| `SyncEnds.EndToEnd` | firmware/core/peer_sync.c:704-767 | against a fixed library, on any link of mtu 34 or more that holds the listed lines and the blobs asked for, every session reaches DONE after finitely many messages, the device is exactly the listed files pulled in order, and the BSSIDs asked are exactly the pending ones |
| `SyncEnds.StuckListing` | firmware/core/commands.c:137-200 | a session that waits for a page whose first line does not fit stays as it is, device included, and asks the same at every exchange |
| `SyncEnds.ReachLine` | firmware/core/peer_sync.c:309-377 | a session whose listing fits up to line k, but not line k itself, comes to that state |
| `SyncEnds.StuckBatch` | firmware/core/peer_sync.c:652-698 | a session that waits for a page whose first blob does not fit stays as it is, cache included, and asks the same at every exchange |
| `SyncEnds.ReachBlob` | firmware/core/peer_sync.c:652-698 | a batch whose blobs fit up to blob k, but not blob k itself, comes to that state |
| `SyncEnds.GetsStuck` | firmware/core/peer_sync.c:704-767 | from its start, every session whose listing or some batch does not end comes to one of the two states |
| `SyncEnds.EndsExactly` | firmware/core/peer_sync.c:704-767 | a session ever reaches DONE if and only if the listing and every batch end on its link: in each, the first element does not fit and reads as the end, or all of them fit |
| `SyncOutcome.FinalDevice` | firmware/core/peer_sync.c:704-767 | the end of every such session in terms of the listing: each listed file and its sidecar as they should be, new files only from the peer with its bytes, all other files and sidecars untouched, the counter advanced by the files stored, and the right BSSIDs asked, each once |
| `SyncOutcome.SidecarOutcome` | firmware/core/peer_sync.c:500-524 | each listed sidecar is the map that arrived, if its file was stored and one arrived, and otherwise what it was before |
| `SyncOutcome.SidecarStored` | firmware/core/commands.c:350-385 | a stored file gets the sidecar of the peer byte for byte, or an empty map for none, when that fits read buffer and link, and otherwise keeps what was there |
| `SyncOutcome.FileOutcome` | firmware/core/peer_sync.c:185-524 | each listed file is stored with exactly the peer's bytes if and only if, at its turn, no file has its name, its hash is eight zeros or no local file's, it fits the free space, and it has 1 to 524288 bytes |
| `SyncOutcome.OtherFiles` | firmware/core/peer_sync.c:238-524 | no other file appears, and files that were there keep their bytes |
| `SyncOutcome.GatherMeans` | firmware/core/peer_sync.c:568-616 | the pending BSSIDs are distinct and unattested, come from local records, and are all of those unless the limit is reached |
| `SyncOutcome.CounterAdvances` | firmware/core/peer_sync.c:430-498 | the manifest counter advances by the number of files stored, mod 256 |
| `SyncOutcome.CacheNeverRepeats` | firmware/core/attest_cache.c:72-99 | whatever a peer sends, the cache never holds two equal blobs and never outgrows the ring |
| `Rings.ShapesSound` | firmware/core/attest_cache.c:9-26 | the sizes that the ring theorems rely on hold of all three rings |
| `Rings.BlankEmpty` | firmware/core/attest_cache.c:28-48 | a blank or reset buffer is a valid ring that iterates over nothing |
| `Rings.SlotRoundTrip` | firmware/core/attest_cache.c:72-99 | a written slot reads back as its blob |
| `Rings.LiveAt` | firmware/core/attest_cache.c:106-122 | the k-th live slot, oldest first, holds the k-th blob of the contents |
| `Rings.StoredPushes` | firmware/core/attestations.c:58-83 | writing a blob is pushing it on a bounded queue, oldest out first |
| `Formats.RingSlot` | firmware/core/attestations.c:58-83 | a write changes, byte by byte, one slot and two bytes of the header |
| `Formats.RingFileTaken` | firmware/core/attest_cache.c:28-56 | exactly which files a ring is loaded from, and that anything else gives a blank one |
| `Rings.RingIsQueue` | firmware/core/attestations.c:58-106 | after any accepted writes iteration yields the last min(n, capacity) blobs, oldest first |
| `Rings.Reload` | firmware/core/attest_cache.c:50-56 | loading the persisted buffer restores the ring exactly |
| `Rings.CacheDistinct` | firmware/core/attest_cache.c:58-99 | a write into the cache keeps its blobs distinct |
| `Rings.Ring.Init` | firmware/core/attest_cache.c:50-56 | a missing, short or mislabelled file gives a blank ring, any other file the ring of its first bytes |
| `Rings.Ring.Present` | firmware/core/attest_cache.c:58-70 | true exactly when the same bytes are live |
| `Rings.Ring.Write` | firmware/core/attest_cache.c:72-99 | refusal, duplicate, failed and successful persistence are told apart, and the contents are the pushed queue; 0 means duplicate in the cache |
| `Rings.Ring.Collect` | firmware/core/attest_cache.c:106-122 | iteration visits exactly the contents, oldest first |
| `Encounters.RecordIsMap` | firmware/core/encounters.c:85-130 | the stored bytes are the canonical map of the record and fit a slot, for every width of the time value |
| `Encounters.CapturedExactly` | firmware/core/encounters.c:248-284 | which bytes have a time and which time, for arbitrary bytes |
| `Encounters.CapturedAtRecorded` | firmware/core/encounters.c:248-284 | the recorded time is read back by the fixed-offset walk, for every width |
| `Encounters.WalkAgrees` | firmware/core/encounters.c:132-204 | the walk over stored bytes reads what the encoder wrote: count, BSSIDs and time |
| `Encounters.CountAndKnown` | firmware/core/encounters.c:132-204 | among distinct BSSIDs, equal count and all known is the same set |
| `Encounters.ScanGuards` | firmware/core/encounters.c:132-136 | an empty scan or a store that is not ready records nothing; a store without records takes any scan |
| `Encounters.RefusedExactly` | firmware/core/encounters.c:132-204 | recording is refused if and only if the newest record has the same BSSID set and its age mod 2^32 is below the limit |
| `Encounters.JustRecorded` | firmware/core/encounters.c:132-241 | right after a scan is recorded the same set is refused until it is old enough |
| `Encounters.CheckScan` | firmware/core/encounters.c:132-204 | the offset-stepping code decides as specified, on any ring contents |
| `Encounters.BodyIsMap` | firmware/core/encounters.c:83-104 | the signed bytes are the canonical map of version, node, time and BSSIDs |
| `Encounters.SignedInjective` | firmware/core/encounters.c:83-104 | equal signed bytes mean the same node, time and scan, and only those |
| `Encounters.RecordHoldsBody` | firmware/core/encounters.c:83-130 | from a stored record a reader recovers the signed bytes, under the header of a smaller map, and the signature |
| `Encounters.Record` | firmware/core/encounters.c:206-241 | a valid scan is pushed as its record with the signature over exactly the signed bytes of that record; otherwise the ring is unchanged |
| `Ledger.SlotRoundTrip` | firmware/core/peer_ledger.c:27-70 | a slot decodes to the entry it was encoded from, negative reputation included |
| `Ledger.Reload` | firmware/core/peer_ledger.c:76-117 | loading what was persisted restores the ledger exactly, whatever a longer file holds behind it |
| `Formats.LedgerSlot` | firmware/core/peer_ledger.c:27-70 | a slot byte by byte |
| `Formats.LedgerFile` | firmware/core/peer_ledger.c:76-94 | the file byte by byte |
| `Formats.LedgerFileTaken` | firmware/core/peer_ledger.c:100-117 | exactly which files a ledger is loaded from |
| `Ledger.PeerLedger.Init` | firmware/core/peer_ledger.c:100-117 | a missing, short or mislabelled blob is an empty ledger; otherwise all slots are decoded |
| `Ledger.PeerLedger.Persist` | firmware/core/peer_ledger.c:76-94 | the buffer written slot by slot is the whole image |
| `Ledger.PeerLedger.FindIndex` | firmware/core/peer_ledger.c:129-136 | the first slot with the key, if any |
| `Ledger.PeerLedger.PickVictim` | firmware/core/peer_ledger.c:140-150 | the lowest-index minimum of the meeting counts |
| `Ledger.PeerLedger.Upsert` | firmware/core/peer_ledger.c:153-166 | keys stay distinct and at most 64; only a full ledger evicts, and only the victim |
| `Ledger.PeerLedger.Apply` | firmware/core/peer_ledger.c:200-215 | as a map: the key's entry takes the saturating sums and the larger meeting count, nothing else changes but an evicted victim |
| `Ledger.PeerLedger.SetRep` | firmware/core/peer_ledger.c:217-222 | as a map: the key's reputation changes, nothing else but an evicted victim |
| `Ledger.PeerLedger.Get` | firmware/core/peer_ledger.c:168-178 | the entry of the key in the map |
| `Ledger.History` | firmware/core/peer_ledger.c:153-222 | over any run that inserts a key and never evicts it, its totals are the capped sums of its own calls, its meeting count the largest seen and its reputation the last set |
| `Ledger.EvictedAsLeast` | firmware/core/peer_ledger.c:140-166 | over any run, a key that is lost was evicted by an insertion into a full ledger, when no entry had a lower meeting count |
| `Crc.BitsLinear` | ios/WaxwingCompanion/WaxwingCompanion/Imaging/PNGMetadata.swift:175-189 | eight register steps are linear over exclusive or |
| `Crc.ByteAtOnce` | ios/WaxwingCompanion/WaxwingCompanion/Imaging/PNGMetadata.swift:165-172 | a whole byte at once: the table entry of the low byte, exclusive or the shifted rest |
| `Crc.BuildTable` | ios/WaxwingCompanion/WaxwingCompanion/Imaging/PNGMetadata.swift:175-189 | entry n is the register after eight bits of n |
| `Crc.TableCrc` | ios/WaxwingCompanion/WaxwingCompanion/Imaging/PNGMetadata.swift:165-172 | the table-driven CRC equals the bit-by-bit CRC of section 5.5 of ISO/IEC 15948, for every byte string |
| `Crc.CheckValue` | ios/WaxwingCompanion/WaxwingCompanion/Imaging/PNGMetadata.swift:165-190 | the CRC of the digits 1 to 9 is the published check value |
| `Png.FindFirstChunk` | ios/WaxwingCompanion/WaxwingCompanion/Imaging/PNGMetadata.swift:125-148 | the offset of the first chunk with the name, on the walk |
| `Png.ExtractCaption` | ios/WaxwingCompanion/WaxwingCompanion/Imaging/PNGMetadata.swift:84-120 | the first caption on the walk |
| `Png.EmbedCaption` | ios/WaxwingCompanion/WaxwingCompanion/Imaging/PNGMetadata.swift:39-77 | the chunk goes in front of the first IDAT; without a caption or IDAT nothing changes |
| `Png.SharedWalk` | ios/WaxwingCompanion/WaxwingCompanion/Imaging/PNGMetadata.swift:84-148 | up to the insertion point the walk of the new file is the walk of the old one |
| `Png.ExtractEmbedded` | ios/WaxwingCompanion/WaxwingCompanion/Imaging/PNGMetadata.swift:39-120 | after embedding, extraction yields the caption unless a chunk before IDAT already held one, which then wins; IDAT is found behind the new chunk |
| `Png.CaptionRoundTrip` | ios/WaxwingCompanion/WaxwingCompanion/Imaging/PNGMetadata.swift:39-120 | the caption comes back if and only if no other caption stands in front of IDAT, for all files |
| `Png.CutRestores` | ios/WaxwingCompanion/WaxwingCompanion/Imaging/PNGMetadata.swift:39-77 | cutting the inserted chunk out restores every byte |
| `PngChunks.ExtractExactly` | ios/WaxwingCompanion/WaxwingCompanion/Imaging/PNGMetadata.swift:84-120 | of a file that consists of any chunks, the caption read is that of the first tEXt chunk with the keyword Comment and a zero byte |
| `PngChunks.EmbedExactly` | ios/WaxwingCompanion/WaxwingCompanion/Imaging/PNGMetadata.swift:39-77 | writing a caption adds one chunk, with its CRC, in front of the first IDAT, and changes nothing else |

## Left out

- Bluetooth, Wi-Fi, SD card and FreeRTOS glue, user interface, keychain, Python tools and the React lab: callbacks and I/O; their results are parameters here.
- ChaCha20, Poly1305, BLAKE2b, Argon2, X25519, Elligator, HMAC and HKDF: not used by the device core.
- The Edwards addition formulas, point decompression, the numbers in the point tables and the order of B: stated as hypotheses (`IsAbelian`, `CombTable`, `OddMultiples`, `IsCurve`); `Residues.HypothesesMet` shows that they can be met together.
- Unforgeability: the handshake assumes it, as verification that holds only for signed bytes.
- Constant-time selection beyond its result, and wiping of secrets other than the seed.
- Comparing the check point with the neutral element by encoding: done on group elements.
- EncounterSession.EncodeHalf: refuses a record of another version or with an oversized other side too, where the code looks only at the side it sends; the session passes no such record.
- BSSID slots behind the count: the code copies them locally and never sends or signs them; records are lists up to the count.
- Fields written before a half message turns out malformed, and fields set by a failed start: the session is in ERROR then, and no record can be taken.
- The `seen` bitmap of the record decoder is a set of keys.
- `encounter_record_id`, `manifest_counter`, `meeting_count`, `peer_table`, `mesh_state`, `ssid_scan` and `identity`: small, one reading settles them.
- Commands outside the pull protocol and the companion-only gate: easy members beside the modelled ones.
- The texts of error replies: every error reply carries an empty text.
- Listing offsets of 2^31 and more: the code casts to a signed int.
- `cur_received` as a 32-bit sum: replies that overflow it cannot be carried by the link.
- `ls_offset`, `file_committed` and the peer prefix of a session: written and never read by the modelled code.
- Directory entries beyond the 64 staged ones are not listed by the card; the end-to-end theorem takes the listing as given.
- Hash sidecars: a listing carries zero hashes in the current code; metadata sidecars live in a name space of their own.
- The second cut of a reply at 256 bytes by one of the two Bluetooth drivers: the link carries at most mtu - 3.
- The three arrays of the listing stage are one array of lines.
- Replies of the command handlers are built as growing byte strings; that they fit the output buffer is `LsReplyLength` and `BlobReplyLength`.
- Input words are placed by one shift per byte position, written out.
- The ring buffer of `Rings` is a header and equal slots; its flat file image is what is persisted and loaded.
- Opening a file for writing empties it, as the code relies on everywhere but in `write_hash_sidecar`, whose comment says that it does not and which removes the file first.
- Links of mtu below 34, which do not carry an empty page of blobs with its offset.
- A write to a system file or a sidecar that fails half way: the model leaves the file as it was, where the card may keep a part.
- The encoding of the `attest_ingest` report: the model has its three counts.
- `peer_ledger_get_by_prefix`, counts and resets: one line each.
- Truncating a caption to 140 characters and decoding its bytes as UTF-8: a caption is its UTF-8 bytes.
- The in-memory representation of a chunk of image data: the model handles the whole file as bytes.
