# Siemens fullflash security engine: verification model

A Siemens x65/x75/x85 phone keeps its identity (IMEI, ESN, SKEY, master codes) in a flash image: in two fields of
the bootcore and in blocks of an EEPROM file system that the firmware lays out in one of two incompatible ways. This
project models the code that reads that image, rewrites it for a new identity, and finds the ESN of an image by
exhaustive search. It proves that the parts fit together.

The program works on byte buffers in place, and so does the model: the EEPROM store is a class over an `array<byte>`,
the ciphers, hashes, builders and drivers are methods with loops, and each is proved equal to a function of its inputs
or of the old buffer. The theorems are lemmas about those functions. Bytes are `bv8`, words are `bv32` (so additions
wrap as in the source), addresses are unbounded naturals. An exception is a `Failure` or `Fail` value, a
`std::optional` an `Option`.

| file | models |
|---|---|
| `Bytes.dfy` | `src/utils/binary.h`: little-endian loads and stores, erased data |
| `AddressMap.dfy`, `Directory.dfy`, `BlockIndex.dfy`, `Eeprom.dfy`, `ParseMeaning.dfy`, `ParseFrame.dfy` | `src/siemens/eeprom.cpp`: address map, tables, index, class, meaning of a parse, what a parse depends on |
| `Search.dfy`, `SearchProgress.dfy`, `Candidates.dfy`, `Recovery.dfy`, `EsnRecovery.dfy`, `RecoveryMeaning.dfy` | `src/siemens/bruteforce.cpp`: worker step system, what it reports, 32-bit candidates in lanes of eight, match predicates, order of the searches, their meaning without the plan |
| `Cipher.dfy`, `CipherMeaning.dfy`, `Imei.dfy`, `Keys.dfy` | `src/siemens/crypto.cpp`: stream cipher, the same in plain numbers, IMEI cipher and packing, key derivation |
| `Records.dfy`, `RecordMeaning.dfy`, `ImeiBlock.dfy`, `Recalc.dfy`, `RecalcMeaning.dfy` | `src/siemens/recalc.cpp`: builders, what the records hold, driver, theorems about the driver |
| `SampleTables.dfy`, `SmallImage.dfy`, `Overlap.dfy`, `Overwrite.dfy`, `CleanImage.dfy` | concrete X65 images: overlapping blocks, a block over its table, and one that meets every hypothesis of the recovery theorems |
| `Fullflash.dfy` (and the decoder in `ImeiBlock.dfy`), `FullflashMeaning.dfy` | `src/siemens/fullflash.cpp`: bootcore layout, identity, and their meaning |
| `Registers.dfy`, `Padding.dfy`, `Md5.dfy`, `Md4.dfy` | `src/crypto/md5.cpp`, `src/crypto/md4.cpp` against RFC 1321 and RFC 1320 |
| `Md5Vectors.dfy`, `Md4Vectors.dfy`, `ImeiVectors.dfy` | worked examples: the known BKEY and HASH, the digest of a zero block, IMEI blocks 76 and 5009 |
| `Otp.dfy` | `src/siemens/otp.cpp`, `esnToHex` of `src/siemens/esn.cpp` |
| `Wrappers.dfy` | option and result types |

## Main results

- **Search.** For every thread count, every batch size dividing 2^32 and every interleaving of the workers' atomic
  steps, a finished search returns a value iff some candidate matches, and only a matching one; one thread returns the
  least; progress starts at 0, rises strictly and ends at 100, and a search without a match has reported every percentage
  that was due and no other; every run ends, and soon after the first find.
- **Parser.** For every image the parse is what a declarative reading says, the entries it lists or the error it stops
  with, in both layouts and with the duplicate rule of each; every byte of every block stays in its partition; the parse
  depends only on the bytes it is said to examine.
- **Recalculation.** Only the HASH and IMEI fields and the replaced blocks may change; "not changed" is reported
  exactly when the image was already right, and "complete" exactly when every required block is there with its size.
  When the writes leave the fields and every byte that layout detection and parsing examine as they are (which they do when
  the replaced blocks stay clear of those bytes), a second recalculation changes no byte, and it reports "not changed" iff no
  two of the writes disagree about a byte. Disjoint blocks never do. The code checks neither condition: `Overlap.dfy`
  exhibits an undisturbed image with two blocks over the same data for which the second call reports a change whatever the
  keys, and `Overwrite.dfy` one whose block lies over its entry table, where the first call succeeds and the next throws.
- **Writer meets reader.** Every record built for an ESN is accepted by the search predicate for that ESN. After an undisturbed
  recalculation that replaced blocks 52 and 5122, for every IMEI, the recovery returns, unless a callback throws, a value that
  its first search accepts (or the known ESN for the known HASH); when the recalculation was complete and the IMEI starts
  with 14 digits, every search it may make accepts the ESN. `CleanImage.dfy` exhibits an image for which all of this holds.
- **Recovery order.** Seven searches, each with the condition under which it is made and the words it accepts: "not
  found" means that no search that could be made accepts any word, and a word found is accepted by one that no search
  with an acceptable word precedes. With the default ESN and SKEY the HASH is the one recognised at once.
- **Contents.** The records are stated by what decrypting them gives: both streams of block 5008, block 5077, the SKEY
  marker and each of the six master codes of block 5121, and the IMEI of blocks 76 and 5009. The stream cipher is
  stated in natural numbers, key schedule and byte step.
- **Fast forms.** The eight-lane cipher, the batched MD5, the word-level BKEY/HASH derivation, the rotating MD4
  registers and the strided address map are each equal to a simple form, for all inputs.
- **Round trips.** Stream cipher, IMEI Feistel cipher, IMEI block, EEPROM read and write, ESN to OTP.

Where the code and its documentation differ the model follows the code. `docs/recalc-algorithm.md` lets a recalculation skip an
image with the default HASH; `recalculateFullflash` has no such check, it stops only on an unknown bootcore or an
erased HASH. And when the EEPROM parse throws, HASH and IMEI have already been replaced (`ThrowTwice`).

## Model

| member | source | states |
|---|---|---|
| Bytes.LoadU32 | src/utils/binary.h:12-18 | the accumulating loop reads the little-endian word of four bytes |
| Bytes.StoreU32 | src/utils/binary.h:28-32 | the loop stores exactly the four bytes of the word and nothing else |
| Bytes.IsErasedData | src/utils/binary.h:8-10 | true iff the range is not empty and holds only 0xFF |
| Bytes.U32RoundTrip | src/utils/binary.h:12-32 | reading a stored word gives it back |
| Bytes.ReadU32Bytes | src/utils/binary.h:12-32 | storing a read word gives its bytes back, so comparing words is comparing bytes |
| AddressMap.StridedEnumerates | src/siemens/eeprom.cpp:224-230 | from a start with bit 4 clear, the strided map visits exactly the later addresses with bit 4 clear |
| AddressMap.ByteOffsetIncreases | src/siemens/eeprom.cpp:224-230 | the map is strictly increasing in both layouts, so it visits them in order and once |
| AddressMap.RebaseShifts | src/siemens/eeprom.cpp:208-212 | moving the start to the second byte shifts the whole view by one: stripping metadata keeps the payload |
| AddressMap.InlinePlacement | src/siemens/eeprom.cpp:180-186 | inline data of any size n >= 1 starts inside the guard, ends 17 bytes below its entry and takes ceil(n/16) slots |
| AddressMap.InlineBytes | src/siemens/eeprom.cpp:28-34 | every inline byte lies between the aligned start and 17 bytes below the entry, with bit 4 clear |
| Directory.StoredBlockX85Inside | src/siemens/eeprom.cpp:176-197 | every stored byte of an X85 block, inline or not, lies in the partition |
| Directory.NumberMeaning | src/utils/binary.h:12-18 | ids, sizes and offsets are little-endian numbers of their bytes |
| BlockIndex.IndexMeaning | src/siemens/eeprom.cpp:86-215 | an id is registered iff listed; X65 keeps its first entry, X85 its last |
| BlockIndex.SlotX65WellPlaced | src/siemens/eeprom.cpp:106-152 | a VALID X65 entry yields a payload inside its partition, also after stripping; lite ids < 5000 <= full ids < 2^32 |
| BlockIndex.SlotX85WellPlaced | src/siemens/eeprom.cpp:154-215 | the same for X85, inline or linear, after stripping one or six metadata bytes |
| BlockIndex.IndexInvariant | src/siemens/eeprom.cpp:86-215 | after any successful parse every block of the index comes from a well-placed entry and lies in the image |
| EepromStore.ReadAfterWrite | src/siemens/eeprom.cpp:240-263 | reading a block just written gives the written value |
| EepromStore.PatchFrame | src/siemens/eeprom.cpp:249-263 | a write changes no byte outside the block's footprint |
| EepromStore.WriteElsewhere | src/siemens/eeprom.cpp:240-263 | a block with a disjoint footprint reads the same before and after a write |
| EepromStore.PatchSame | src/siemens/eeprom.cpp:249-263 | writing what is there leaves the image as it was |
| EepromStore.LinearBlockMeaning | src/siemens/eeprom.cpp:224-226 | reading a linear block is taking a slice of the image, writing it is storing the value there |
| EepromStore.OpenEeprom | src/siemens/eeprom.cpp:82-84 | a store over the caller's buffer with the layout and index of the parse and every block in the image, or the exception of the parse |
| EepromStore.Eeprom.ReadPartitionType | src/siemens/eeprom.cpp:47-72 | a header is told by its name; a named header with any other wrong byte is an error |
| EepromStore.Eeprom.ParsePartitionX65 | src/siemens/eeprom.cpp:106-152 | the index gains the entries before the first FREE slot, first one of an id kept, or the error of the listing |
| EepromStore.Eeprom.ParsePartitionX85 | src/siemens/eeprom.cpp:154-215 | the index gains the VALID entries of all slots, last one of an id kept, or the error of the listing |
| EepromStore.Eeprom.ParseStep | src/siemens/eeprom.cpp:88-102 | one 64 KiB step: X65, then X85, as far as the layout found so far allows |
| EepromStore.Eeprom.ParsePartitions | src/siemens/eeprom.cpp:86-104 | layout and index of the declarative listing with every block in the image, or its error |
| EepromStore.Eeprom.GetBlockSize | src/siemens/eeprom.cpp:236-238 | the payload size, or the error for an unknown id |
| EepromStore.Eeprom.ReadBlock | src/siemens/eeprom.cpp:240-247 | the payload in order, or the error for an unknown id |
| EepromStore.Eeprom.WriteBlock | src/siemens/eeprom.cpp:249-263 | the new image is the patched one; true iff the value differed from the previous read; errors leave the image alone |
| ParseMeaning.SlotX65Meaning | src/siemens/eeprom.cpp:112-148 | an X65 entry in full, for every masked state word: FREE, skipped (WRITING or OBSOLETE), unknown, or VALID with each error in the order of the guards and otherwise its id and payload |
| ParseMeaning.SlotX85Meaning | src/siemens/eeprom.cpp:161-213 | an X85 entry in full: skipped unless VALID, then each error in the order of the guards, and otherwise its id and the stored view, inline or linear, shifted past the metadata |
| ParseMeaning.TableX65Meaning | src/siemens/eeprom.cpp:106-152 | a table of 8191 slots ends at the first that is FREE, listing the VALID ones above it, or at the first that does not decode, with its error; else no free entry; a partition past the end is an error |
| ParseMeaning.TableX85Meaning | src/siemens/eeprom.cpp:154-215 | a partition ends with its header block and starts 0x30000 before it, or underflows; all 8191 slots decode and the VALID ones are listed, or the first that does not gives the error |
| ParseMeaning.HeaderMeaning | src/siemens/eeprom.cpp:46-72 | a header is 16 bytes at the start of a block on X65 and the last 32 on X85: no partition without one of two names, an error when another byte is wrong |
| ParseMeaning.ParseMeans | src/siemens/eeprom.cpp:86-104 | for every image: the first 64 KiB block with a header decides the layout, and the parse is the entries or the first error of all partitions of that layout; or that header is broken; or there is none |
| ParseFrame.ParseDependsOnExamined | src/siemens/eeprom.cpp:86-215 | images that agree on the examined bytes, and wake up no idle slot of an X85 partition the scan visits, have the same parse |
| Search.SearchCorrect | src/siemens/bruteforce.cpp:40-106 | under every interleaving: found iff some 32-bit candidate matches, and the value returned matches |
| Search.UniqueMatch | src/siemens/bruteforce.cpp:40-106 | a unique match is returned under every schedule |
| Search.OneThreadLeast | src/siemens/bruteforce.cpp:55-82 | one thread returns the least match |
| Search.RunInv | src/siemens/bruteforce.cpp:40-106 | the invariant of workers, shared atomics and progress log holds in every state of every run |
| Search.ProgressRises | src/siemens/bruteforce.cpp:49-101 | reported percentages start at 0, rise strictly and end at exactly 100 |
| SearchProgress.ProgressGenuine | src/siemens/bruteforce.cpp:61-74 | under every schedule each percentage reported is 0, 100 or that of a round in which worker 0 polls |
| SearchProgress.ProgressComplete | src/siemens/bruteforce.cpp:61-74 | a search that ends without a match has reported the percentage of every such round |
| Search.StopsSoon | src/siemens/bruteforce.cpp:55-82 | once a match is published, no worker evaluates more than one check interval of further batches |
| Search.RunsEnd | src/siemens/bruteforce.cpp:55-106 | no run is longer than the sweeps allow: every worker's sweep ends |
| Search.NoDeadlock | src/siemens/bruteforce.cpp:55-106 | until all workers are done some step is possible |
| Candidates.CandidateIsNumber | src/siemens/bruteforce.cpp:142-145 | first candidate plus lane, in 32-bit arithmetic, is the candidate of that number |
| Candidates.EightLanesFind | src/siemens/bruteforce.cpp:118-130 | the first matching lane of a batch is the least match of its eight numbers |
| Candidates.SearchWords | src/siemens/bruteforce.cpp:40-130 | a search over words finds a wanted word iff there is one, under every schedule |
| Candidates.SearchUniqueWord | src/siemens/bruteforce.cpp:40-130 | a single wanted word is what every schedule returns |
| Recovery.BuildCipherKeyBatch | src/siemens/bruteforce.cpp:30-37 | lane l holds the template with candidate first + l stored at the ESN offset |
| Recovery.FindMd5Match | src/siemens/bruteforce.cpp:118-130 | the lane loop returns the first candidate whose digest words equal the target |
| Recovery.MatchHashBatch | src/siemens/bruteforce.cpp:142-151 | a batch finds the first candidate whose MD5, as bytes, is the stored digest |
| Recovery.MatchBkeyBatch | src/siemens/bruteforce.cpp:173-196 | the word-level batch finds the first candidate whose byte-level BKEY (or HASH) is the wanted one |
| Recovery.MatchMarkerBatch | src/siemens/bruteforce.cpp:210-227 | a batch finds the first candidate whose key decrypts the marker to the fixed plaintext |
| Recovery.Match5008Batch | src/siemens/bruteforce.cpp:242-270 | a batch finds the first candidate for which both streams of 5008, and 5077 when present, check out |
| Recovery.Match5077Batch | src/siemens/bruteforce.cpp:285-300 | a batch finds the first candidate for which 5077 checks out and ends in the known tail |
| Recovery.TargetDigest | src/siemens/bruteforce.cpp:118-130 | four equal words are an equal 16-byte digest, and conversely |
| Recovery.BkeyDigest | src/siemens/bruteforce.cpp:173-186 | the padded derivation words hash to the byte-level BKEY |
| Recovery.DigestAgain | src/siemens/bruteforce.cpp:187-194 | the second compression over digest words is MD5 of the digest bytes |
| Recovery.Accepts5468 | src/siemens/recalc.cpp:159-172 | a built block 5468 passes its guard and is accepted at its ESN |
| Recovery.BkeyWordsDecide | src/siemens/bruteforce.cpp:173-196 | for every candidate, SKEY and target, the comparison on words holds iff the byte-level derivation gives that BKEY (or HASH) |
| Recovery.AcceptsBkey | src/siemens/crypto.cpp:176-184 | BKEY and HASH of an identity pass the comparison on words at its ESN |
| Recovery.Accepts5121 | src/siemens/recalc.cpp:114-130 | the marker of a built block 5121 is accepted at its ESN |
| Recovery.MarkerOf5123 | src/siemens/recalc.cpp:142-147 | both forms of block 5123 carry the marker of block 5121 where the search reads it |
| Recovery.Accepts5077 | src/siemens/recalc.cpp:98-111 | a built block 5077 is accepted at its ESN, for every IMEI |
| Recovery.Accepts5008 | src/siemens/recalc.cpp:77-95 | a built block 5008 is accepted at its ESN, alone and beside the block 5077 of the same identity |
| EsnRecovery.RecoverEsn | src/siemens/bruteforce.cpp:304-386 | the result is that of the first search of the plan with an acceptable word, or the known ESN; RecoveryMeaning.RecoversMeans says what that is without the plan |
| EsnRecovery.RecoverSlowly | src/siemens/bruteforce.cpp:336-385 | the searches of blocks 5008, 5121, 5123 and 5077 in that order; RecoveryMeaning.PlanLists says when each is made and what it accepts |
| RecoveryMeaning.RecoversMeans | src/siemens/bruteforce.cpp:304-386 | "not found" iff none of seven searches, each with its own guard, accepts a word; otherwise the first that accepts one decides; the known HASH answers at once |
| RecoveryMeaning.PlanLists | src/siemens/bruteforce.cpp:320-385 | the plan lists exactly the searches that can be made, in order, under their names, each accepting the right words |
| RecoveryMeaning.Opens5008Means | src/siemens/bruteforce.cpp:230-272 | block 5008 accepts a word iff under its key both streams are summed and a written 5077 is too |
| RecoveryMeaning.DefaultKeysRecovered | src/siemens/bruteforce.cpp:310-318 | an image cleanly recalculated with ESN 0x12345678 and SKEY 12345678 gives that ESN back without a search |
| EsnRecovery.EveryRunIsAnOutcome | src/siemens/bruteforce.cpp:40-106 | every finished run, for any thread count asked for and any hardware, is a search in the sense the driver relies on, and fails only through a callback |
| EsnRecovery.InfoFound | src/siemens/fullflash.cpp:184-248 | in an image with the HASH field and the blocks 52 and 5122 of an identity, SKEY and HASH read back, and BKEY unless it reads as erased, whatever the IMEI |
| EsnRecovery.ImeiFound | src/siemens/fullflash.cpp:199-214 | the IMEI read from the field, or else from block 76, has 15 digits and the first 14 of the identity's |
| EsnRecovery.RecalculatedImageRecovers | src/siemens/bruteforce.cpp:304-386 | after a complete undisturbed recalculation for an IMEI that starts with 14 digits, every search the recovery may make accepts the ESN |
| EsnRecovery.RecalculatedImeiBlocks | src/siemens/fullflash.cpp:206-214 | after a complete undisturbed recalculation blocks 76 and 5009 read, lite and full, as 14 digits and their check digit |
| EsnRecovery.FastPlanWants | src/siemens/bruteforce.cpp:320-331 | for every IMEI, at least one search that needs no IMEI is made, and all of those accept the ESN |
| EsnRecovery.RecalculatedEsnRecovered | src/siemens/bruteforce.cpp:304-386 | end to end, for every IMEI: what recovery then returns without a throw is a value its first search accepts, the ESN when that search accepts nothing else, the known ESN for the known HASH |
| CleanImage.ImageRecalculates | src/siemens/recalc.cpp:174-255 | a concrete X65 image that meets every hypothesis of the two theorems above, unless BKEY and HASH of the keys both read as erased |
| EsnRecovery.SkeyRoundTrip | src/siemens/recalc.cpp:133-139 | the SKEY read back from a built block 5122 is the one stored, as bytes and as the word of the searches |
| EsnRecovery.HeadOf52 | src/siemens/recalc.cpp:150-156 | a built block 52 starts with the BKEY that the identity reader takes from it |
| EsnRecovery.PackPrefix | src/siemens/crypto.cpp:37-44 | the IMEI enters the keys by its first 14 characters only |
| Cipher.ScheduleIsPermutation | src/siemens/crypto.cpp:111-125 | the key schedule only rearranges: its box has the multiset of the identity box and no byte twice, after any number of steps |
| Cipher.ScheduleHasAll | src/siemens/crypto.cpp:111-125 | every byte value occurs in it exactly once |
| Cipher.DecryptUndoesEncrypt | src/siemens/crypto.cpp:149-157 | decryption undoes encryption, for every length and key |
| Cipher.EncryptUndoesDecrypt | src/siemens/crypto.cpp:149-157 | encryption undoes decryption, for every length and key |
| Cipher.DecryptPrefix | src/siemens/crypto.cpp:127-146 | decrypting a prefix gives the prefix of the decryption |
| CipherMeaning.ScheduleMeaning | src/siemens/crypto.cpp:118-124 | in numbers: the index grows by the box byte and the key byte modulo 256, and two places are exchanged |
| CipherMeaning.ScheduleTellsKeys | src/siemens/crypto.cpp:118-124 | equal schedules come from equal keys: every key byte is read |
| CipherMeaning.StepMeaning | src/siemens/crypto.cpp:129-146 | in numbers: both indexes, the fed-back byte, the update that is not a swap, the output place, and that the ciphertext byte is fed back |
| CipherMeaning.RunMeaning | src/siemens/crypto.cpp:129-147 | the transform is that step, byte after byte |
| CipherMeaning.StreamStarts | src/siemens/crypto.cpp:149-157 | it starts from the scheduled box of the MD4 of the key block |
| Cipher.TransformCipher | src/siemens/crypto.cpp:106-147 | the interleaved loop over any number of lanes in one buffer gives each lane the key schedule and byte steps that CipherMeaning states in numbers |
| Cipher.CipherEncrypt | src/siemens/crypto.cpp:149-152 | encrypts a range in place under the MD4 of the key block and keeps the rest; CipherMeaning.StreamStarts, RunMeaning and StepMeaning say what that is |
| Cipher.CipherDecrypt | src/siemens/crypto.cpp:154-157 | decrypts a range in place under the MD4 of the key block and keeps the rest |
| Cipher.CipherDecryptBatch | src/siemens/crypto.cpp:159-164 | each of eight lanes becomes the scalar decryption of that lane under its own key |
| Imei.CalculateImeiCheckDigit | src/siemens/crypto.cpp:46-53 | the 32-bit loop computes the check digit |
| Imei.CheckDigitIsLuhn | src/siemens/crypto.cpp:46-53 | for digits it is the one digit that makes the Luhn sum a multiple of ten |
| Imei.PackImeiInjective | src/siemens/crypto.cpp:37-44 | packing loses none of the 14 digits |
| Imei.RoundsUndo | src/siemens/crypto.cpp:166-174 | the four Feistel rounds undo each other in both directions, in both variants |
| Imei.TransformImeiRound | src/siemens/crypto.cpp:87-103 | the in-place round, with its partial updates, is one round of the specification |
| Imei.ImeiCipherEncrypt | src/siemens/crypto.cpp:166-169 | four rounds with the keys in order |
| Imei.ImeiCipherDecrypt | src/siemens/crypto.cpp:171-174 | four rounds with the keys in reverse order |
| ImeiVectors.LiteBytes | src/siemens/tests/crypto.cpp:66-67 | the lite cipher of the bytes 0 to 9 |
| ImeiVectors.FullBytes | src/siemens/tests/crypto.cpp:73-74 | the full cipher of the bytes 0 to 9 |
| ImeiBlock.BuildImeiBlock | src/siemens/recalc.cpp:37-63 | digits, check digit, check bytes and encryption, in both variants |
| ImeiBlock.DecodeImeiBlock | src/siemens/fullflash.cpp:141-182 | decrypts, checks and spells out the digits, or rejects |
| ImeiBlock.DecodeBuilt | src/siemens/fullflash.cpp:141-182 | a built block decodes to the first 14 digits and their check digit |
| ImeiBlock.BuildDecoded | src/siemens/fullflash.cpp:141-182 | every accepted block is rebuilt byte for byte from its decoded IMEI, which passes the Luhn check |
| ImeiVectors.SampleBlock76 | src/siemens/recalc.cpp:37-61 | block 76 of IMEI 490154203237518, byte for byte |
| ImeiVectors.SampleBlock5009 | src/siemens/recalc.cpp:37-61 | block 5009 of IMEI 490154203237518, byte for byte |
| Keys.CipherKey2Head | src/siemens/crypto.cpp:73-85 | the second key starts with the byte 8 and the first seven packed bytes: the sums in its first word never carry |
| RecordMeaning.CodeKeysMeaning | src/siemens/crypto.cpp:64-85 | both keys of a code hold the masked code, the ESN and the IMEI at their places, the template elsewhere |
| RecordMeaning.EepromKeyMeaning | src/siemens/crypto.cpp:55-62 | the key of blocks 5008 and 5077 holds the ESN at 0x30 and the packed IMEI at 0x38 |
| RecordMeaning.PackedDigits | src/siemens/crypto.cpp:37-44 | in numbers: a packed byte is its low digit plus 16 times its high digit |
| Keys.EepromTemplate | src/siemens/bruteforce.cpp:30-37 | the EEPROM key template patched with a candidate is the key built for it |
| Keys.MarkerTemplate | src/siemens/bruteforce.cpp:30-37 | the marker key template patched with a candidate is the key built for it |
| Keys.CalculateBkeyAndHash | src/siemens/crypto.cpp:176-184 | the in-place overlapping XOR gives the derivation block; BKEY is its MD5, HASH the MD5 of BKEY |
| Keys.DerivationWords | src/siemens/bruteforce.cpp:178-183 | the derivation block is four words: ESN, SKEY and the two shifted-XOR words of the search |
| RecordMeaning.BkeyMeaning | src/siemens/crypto.cpp:176-184 | BKEY hashes ESN, SKEY and eight bytes that each XOR two earlier ones; HASH hashes BKEY |
| Md5Vectors.KnownIdentity | src/siemens/tests/crypto.cpp:31-42 | BKEY and HASH of ESN 0x12345678 and SKEY 12345678, byte for byte; the HASH is the recognised one |
| Records.WriteChecksum | src/siemens/recalc.cpp:65-74 | sum and xor of the range are stored after it |
| Records.HasValidChecksum | src/siemens/bruteforce.cpp:108-116 | true iff sum and xor of the range are stored after it |
| Records.ChecksumHolds | src/siemens/recalc.cpp:65-74 | a written checksum is valid, also after bytes outside its range were changed |
| RecordMeaning.SumOfMeaning | src/siemens/recalc.cpp:65-74 | the stored sum is the total of the range modulo 256 |
| RecordMeaning.SumOfJoins | src/siemens/recalc.cpp:65-74 | sum and XOR of a range are those of its parts |
| Records.Plain5008Checks | src/siemens/recalc.cpp:77-90 | the plaintext of 5008 passes both checks of the search: the masked headers miss the checked ranges |
| Records.Plain5077Checks | src/siemens/recalc.cpp:98-107 | the plaintext of 5077 passes the check and ends in the tail the search compares |
| Records.BuildBlock5008 | src/siemens/recalc.cpp:77-95 | the record: checked plaintext encrypted in two separate streams |
| Records.BuildBlock5077 | src/siemens/recalc.cpp:98-111 | the record: checked plaintext encrypted in one stream |
| RecordMeaning.Record5008Meaning | src/siemens/recalc.cpp:77-95 | both streams decrypt to a masked header, a summed range, erased bytes and their checksum, byte for byte |
| RecordMeaning.Record5077Meaning | src/siemens/recalc.cpp:98-111 | the stream decrypts to a masked header, erased bytes but one, and the tail, byte for byte |
| Records.BuildBlock5121 | src/siemens/recalc.cpp:114-130 | the buffer code yields the record whose marker and entries RecordMeaning.SkeyMarkerOpens and MasterEntryOpens decrypt |
| RecordMeaning.SkeyMarkerOpens | src/siemens/recalc.cpp:117-120 | the first eight bytes decrypt under the first key of the SKEY to the marker |
| RecordMeaning.MasterEntryOpens | src/siemens/recalc.cpp:122-128 | each master entry decrypts under its first key and then its second to the marker with its number in it |
| Records.BuildBlock5123 | src/siemens/recalc.cpp:142-147 | header of the short or long form, the marker, zeros |
| RecordMeaning.Record5123Meaning | src/siemens/recalc.cpp:142-148 | the two forms: a word that tells them apart, the marker, zeros |
| Records.BuildBlock5468 | src/siemens/recalc.cpp:159-172 | BKEY, 0x58, the digests of ESN and IMEI and of all before |
| RecordMeaning.Record5468Meaning | src/siemens/recalc.cpp:159-172 | BKEY, 0x58, and the digests of the ESN, the IMEI and everything before, each at its place |
| RecordMeaning.Records52And5122 | src/siemens/recalc.cpp:133-157 | block 52: BKEY, VerDown byte, constant, erased bytes; block 5122: SKEY, 0x58, 0 |
| Fullflash.ReadBootcoreVersion | src/siemens/fullflash.cpp:97-107 | the first of two interface headers that is there |
| Fullflash.GetBootcoreLayout | src/siemens/fullflash.cpp:109-139 | field offsets for a known version when the image holds both fields, else nothing |
| FullflashMeaning.LayoutMeaning | src/siemens/fullflash.cpp:97-139 | HASH and IMEI are found iff the magic is there, a header at 0x200 or else 0x1200 names one of three versions, and both fields fit |
| Fullflash.LayoutDependsOnExamined | src/siemens/fullflash.cpp:97-139 | the layout depends only on the magic and the deciding header |
| Fullflash.FieldsApart | src/siemens/fullflash.cpp:109-139 | HASH and IMEI lie apart from each other and from what layout detection reads |
| Fullflash.ReadString | src/siemens/fullflash.cpp:80-95 | a zero-terminated string inside the range, or nothing |
| FullflashMeaning.StringMeaning | src/siemens/fullflash.cpp:80-95 | a string is read iff its bytes are those up to the first zero inside its field |
| Fullflash.BuildDeviceName | src/siemens/fullflash.cpp:37-41 | the prefix and the model in lower case |
| Fullflash.GetFullflashInfo | src/siemens/fullflash.cpp:184-248 | vendor and model checks, device name, IMEI with its two fall-backs, BKEY that matches HASH, SKEY |
| FullflashMeaning.InfoFoundMeaning | src/siemens/fullflash.cpp:184-197 | an identity is found iff there is a layout, one of two vendors and a model |
| FullflashMeaning.ImeiMeaning | src/siemens/fullflash.cpp:199-214 | the IMEI is the field, or else what block 76 decodes to, or else block 5009 |
| FullflashMeaning.BkeyAndHashMeaning | src/siemens/fullflash.cpp:203-243 | BKEY is in block 52 or else 320 and hashes to HASH if there is one; an erased HASH is replaced by that digest |
| FullflashMeaning.SkeyAndDeviceMeaning | src/siemens/fullflash.cpp:215-245 | SKEY is the head of block 5122; the device name is the prefix and the model in lower case |
| Recalc.GenerateBlocks | src/siemens/recalc.cpp:208-222 | the ten blocks with ids and required flags, the two IMEI blocks each in its variant (RecalcMeaning.GeneratedImei) |
| Recalc.WriteBlocks | src/siemens/recalc.cpp:224-245 | the loop: blocks of matching size are written, complete and changed are exact |
| Recalc.RecalculateFullflash | src/siemens/recalc.cpp:174-255 | the whole run: final image and verdict, including the exception path |
| RecalcMeaning.GeneratedImei | src/siemens/recalc.cpp:211-222 | generated blocks 76 and 5009 decode, lite and full, to 14 digits and their check digit |
| RecalcMeaning.VerdictMeaning | src/siemens/recalc.cpp:174-208 | nothing happens iff there is no layout or HASH is erased; otherwise the fields are replaced and the parser decides between an exception and a result |
| RecalcMeaning.FieldsReplaced | src/siemens/recalc.cpp:185-206 | the fields then hold the HASH of ESN and SKEY and the IMEI, with its terminating zero when it has 14 characters |
| RecalcMeaning.RecalculateFrame | src/siemens/recalc.cpp:193-254 | every image: only HASH, IMEI and bytes of replaced blocks may change; length is kept |
| RecalcMeaning.ChangedBytes | src/siemens/recalc.cpp:193-254 | a byte that a recalculation changes lies in one of the two fields or in a stored block of one of the ten ids |
| RecalcMeaning.UnchangedIffAlreadyRight | src/siemens/recalc.h:30 | "not changed" iff the image already contains the right keys, and then no byte differs |
| RecalcMeaning.CompleteMeaning | src/siemens/recalc.cpp:224-237 | the verdict says "complete" iff every required id is stored with the size of its record |
| RecalcMeaning.WriteAllTwice | src/siemens/recalc.cpp:224-245 | repeating the writes changes nothing, overlapping or not |
| RecalcMeaning.StoredIffAgreeing | src/siemens/recalc.cpp:224-245 | after the writes every replaced block reads its record iff no two writes disagree about a byte |
| RecalcMeaning.ClearIsUndisturbed | src/siemens/recalc.cpp:193-245 | blocks that stay clear of the examined bytes and the fields leave them all as they are |
| RecalcMeaning.WritesKeep | src/siemens/recalc.cpp:193-254 | undisturbed writes keep layout, fields and parse |
| RecalcMeaning.RecalculateTwice | src/siemens/recalc.cpp:174-255 | a second run keeps every byte and "complete", stops only on an erased HASH, reports "not changed" iff the writes agree |
| RecalcMeaning.SecondRunUnchanged | src/siemens/recalc.cpp:174-255 | with disjoint blocks the second run reports "not changed" |
| RecalcMeaning.OverlapDisagrees | src/siemens/recalc.cpp:224-245 | blocks 5123 and 5468 over the same data disagree about a byte for all keys |
| RecalcMeaning.OverlapChangesAgain | src/siemens/recalc.cpp:224-254 | on every undisturbed image with those blocks the second run changes no byte and still reports "changed" |
| Overlap.ImageChangesAgain | src/siemens/recalc.cpp:174-255 | a concrete X65 image that parses, is undisturbed and fails so, unless the HASH of the keys is erased |
| Overwrite.NextCallThrows | src/siemens/recalc.cpp:193-245 | a concrete X65 image whose block lies over its table: the first call returns a result, the next throws for an unknown entry state |
| RecalcMeaning.ThrowTwice | src/siemens/recalc.cpp:193-208 | an EEPROM exception comes after the fields were replaced; a second run throws it again over the same image |
| RecalcMeaning.RecalculatedReads | src/siemens/recalc.cpp:224-245 | the recalculated image parses to the same index and every replaced block reads its record |
| Padding.PadLength | src/crypto/md5.cpp:132-143 | padding gives the least multiple of 64 that holds nine more bytes (RFC 1321, sections 3.1 and 3.2) |
| Padding.PadInjective | src/crypto/md5.cpp:132-143 | messages shorter than 2^61 bytes with equal padding are equal |
| Padding.DigestInjective | src/crypto/md5.cpp:149-154 | the 16 digest bytes determine the four registers |
| Registers.RotatingIsInPlace | src/crypto/md4.cpp:19-44 | rotating the registers after each step is updating them in turn in place |
| Md4.CompressBlock | src/crypto/md4.cpp:7-50 | the rotating loops are the in-place schedule of section 3.4 of RFC 1320 over all three rounds |
| Md4.Md4Block | src/crypto/md4.cpp:52-64 | MD4 of a 64-byte message: the digest over its padded two blocks |
| Md4Vectors.ZeroBlockDigest | src/siemens/tests/crypto.cpp:24-29 | the digest of 64 zero bytes, byte for byte |
| Md5.LineFollows | src/crypto/md5.cpp:20-84 | every line of the unrolled table has the registers, word, shift of section 3.4 of RFC 1321 |
| Md5.LineIsStep | src/crypto/md5.cpp:7-18 | a macro step, with its rewritten auxiliary functions, is the step of the RFC |
| Md5.CompressBlock | src/crypto/md5.cpp:87-102 | the unrolled scalar form is the compression function |
| Md5.CompressBlocks | src/crypto/md5.cpp:104-124 | the eight-lane form is the scalar compression lane by lane |
| Md5.Md5Batch | src/crypto/md5.cpp:126-130 | each lane's digest is the compression of that lane's block from the initial state |
| Md5.PadMessage | src/crypto/md5.cpp:132-143 | the push loops build the padding |
| Md5.Md5Digest | src/crypto/md5.cpp:132-155 | MD5 of every byte string as the chained compression of its padding |
| Md5.ShortMessage | src/siemens/bruteforce.cpp:142-151 | for messages of 4 and 16 bytes, one compression of their words with 0x80 and the bit length as padding is MD5 of the bytes |
| Otp.EsnToHex | src/siemens/esn.cpp:16-22 | the shift loop spells the ESN in eight hex digits |
| Otp.EsnToOtp | src/siemens/otp.cpp:25-45 | masked bytes, lowest first, or the error for a malformed ESN |
| Otp.OtpRoundTrip | src/siemens/otp.cpp:25-45 | the OTP word of an ESN gives the ESN back |
| Otp.OtpMeaning | src/siemens/otp.cpp:23-45 | only eight hex digits have an OTP word, and its bytes are theirs, last first, each under its mask |
| Otp.KnownOtp | src/siemens/tests/crypto.cpp:81 | the OTP word of ESN 12345678 |
| Otp.ImeiToOtp | src/siemens/otp.cpp:10-23 | accepts exactly 15 digits and swaps the first 14 in pairs |

## Left out

- Files, TOML, the ESN cache, `probeFullflash`, `recoverOtp`: the image is an in-memory byte array.
- Command line, environment, process launch and QEMU itself.
- Logging, timing and error message texts: an error is a constructor with the address or id it names.
- An exception thrown by the first or last progress report of one search, which are made outside the workers: the worker system
  models throws inside workers; the driver models any search that throws.
- Progress percentages of the driver beyond those of each search.
- C++ memory orders: each atomic access is one step of an interleaving, and joining the threads is a barrier.
- 64-bit overflow of `threads * batch` in the search and of address sums on images near 2^64 bytes.
- `hardware_concurrency` itself: it is any number, with the source's fall-back to one thread.
- Signed, floating-point and big-endian helpers of `src/utils/binary.h`; hex and join helpers of `src/utils/string.cpp`.
- Cryptographic strength: nothing is claimed about collisions or about the ESN being the only candidate a record accepts.
- The 64 additive constants of MD5 are the source's; they are not derived from the sine function, but `Md5Vectors.dfy` computes
  two digests with all of them.
- The constant tables (key templates, S-boxes, tail of block 52) are the source's, taken over as they are.
- Lane arrays (S-boxes, indexes, digest words of a batch) are sequences updated by position, not flat C arrays; the data buffer
  that the cipher changes in place is an array.
- EsnRecovery.RecalculatedEsnRecovered: when the BKEY reads as erased it asks that the HASH does not and that no block 320 longer
  than a BKEY is stored, because the reader would take its first bytes for the BKEY or have nothing to search with; and it speaks
  only of images whose vendor and model strings the reader accepts. Both hold of EsnRecovery.RecalculatedImageRecovers too.
- RecalcMeaning.RecalculateTwice: asks that the writes leave the bytes that layout detection and parsing examine as they are, because
  the code does not check this; Overwrite.NextCallThrows shows what happens otherwise.
