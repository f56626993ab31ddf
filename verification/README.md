# Verified models of mozc's core algorithms

A Dafny project that models the parts of this repository with the most arithmetic
and the most state, and proves what they are for. `dafny verify dfyconfig.toml`
checks all of it.

| files | what they model |
|---|---|
| `Gf256`, `SBoxTables`, `Columns`, `Aes256`, `KeySchedule`, `AesInPlace`, `Cbc`, `AesVectors` | the cipher of `src/base/unverified_aes256.cc`: the field, the tables, the rounds, the key schedule and the chaining, and the procedures that overwrite buffers |
| `Encryptor` | padding, strings and password protection of `src/base/encryptor.cc` |
| `ByteOrder`, `Sha1`, `Sha1Vectors` | byte order of `src/base/bits.h` and the hash of `src/base/unverified_sha1.cc` |
| `NumberParser`, `NumberReading`, `NumberShape`, `NumberAccepted` | the reading of Japanese numerals in `src/base/number_util.cc`, what it means, which numerals are read whole, and exactly when words are lost |
| `NumberPrinter`, `NumberRoundTrip`, `NumberText`, `NumberOldStyle`, `NumberSpelling` | the spelling of Japanese numerals, that it is the only one in its style, and reading it back |
| `RecursiveMutex`, `TaskManager` | the two state machines of `src/base/thread.h` |
| `Utf8`, `Utf8Strings` | the UTF-8 codec and iterators of `src/base/util.cc` |
| `ClientState`, `ClientSession`, `ClientReplay`, `ClientRuns`, `ClientProperties`, `Client` | the session client of `src/client/client.cc` against any server and launcher: opening a session, the retry in a new one, whole runs, and the class itself |
| `Calendar`, `DateWindow`, `DateText` | dates at the end of a text, `src/base/date_util.cc` |
| `SemVer`, `Releases`, `WindowsRevision` | version order, the choice of an update, and the Windows revision |
| `Options` | an optional value |

## How the models are built

Code that changes things step by step is a method on arrays, or a method of a class
with the source's fields, proved equal to a function; the functions carry the laws.
Iterators into a sequence are positions handed in and out. An output vector that is
appended to is handed in and out as a sequence.

Threads are step relations. In `RecursiveMutex` the relaxed atomic `owner_` is a
history in modification order: a load may return any entry no older than the last one
its thread knows of, a store may take any later place, and locking the mutex brings a
thread up to date. Thread ids are distinct and not zero, a thread calls `unlock()` only
while it has the lock, and a thread that ends does not come back under the same id. In
`TaskManager` the bodies do not call the manager themselves.

What the client cannot see is a function from moments to outcomes: what the server would
reply, and whether the launcher would start, stop or wait for a server. The theorems hold
for all such functions. A contact is a use of the IPC client by the Client class; the
pings of the launcher are not counted. The model is of the Linux release build.

Text is a sequence of characters, except in `Utf8`, which is about bytes. In `Encryptor`
a buffer has at most 2^63 - 1 bytes, as an object can have; in `Sha1` a message is shorter
than 2^61 bytes, where its length in bits fits 64.

The values of the characters that numerals are read by are those of
`src/data/preedit/kanjinumber-arabicnumber.tsv`; that this is the table compiled into the
program is assumed. For `WindowsRevision` the characters that `\d` matches are any table
that has the ASCII digits right and no other ASCII character.

## Where the code and what is said of it differ

- `GF_p8_mul3` multiplies by two, not by three (src/base/unverified_aes256.cc:100).
- A comment says that numbers with leading zeros are not converted
  (src/base/number_util.cc:212); only all zeros are treated in a special way, and others
  are converted. The models follow the code.
- The header says that an omitted year is resolved in a window from 90 days before to 275
  days after (src/base/date_util.h:40-43). One date in the window is refused; see
  `DateWindow.AcceptedIff`.
- The documentation of the Windows revision says that it rises with every release
  (src/build_tools/mozc_version.py:134-136). It does for versions in ASCII digits; see
  `WindowsRevision.AgreesIffAscii` and, for a version that is out of its place,
  `WindowsRevision.FullwidthAccepted`.

## Properties that are false, and when they hold

- An accepted numeral does not always have the value of all its words: two thousand and
  the digits 3456 is read as 2000. `NumberShape.ValueIffNoMisfit` says exactly when it has.
- Not every code point survives encoding and decoding: `Utf8.RoundTripIffCodable`.
- `EnsureSession` can report a good session with a server that has stopped answering:
  `ClientSession.SetRequestFailureHidden` says for which replies, and
  `ClientSession.SilentServerTakenForGood` gives such a server.
- A new session does not always receive the journal: a full one is dropped, and a replay
  stops at the first call that fails. `ClientReplay.RetryTraffic` says what it receives,
  and `ClientReplay.SucceedsAfterPartOfJournal` exactly when the command succeeds all the
  same; `ClientRuns.SecondKeyFindsAnotherServer` is such a run.
- A command can succeed without its input having been sent:
  `ClientProperties.SuccessMeansSent` says exactly when, and
  `ClientProperties.SuccessWithoutSending` gives a state in which it does.
- `SERVER_FATAL` can be left without `Reset`: `ClientProperties.FatalLeftByVersionCheck`
  says exactly when, and `ClientProperties.FatalLeftByFreshClient` gives a run.

## Model

| member | source | states |
|---|---|---|
| `Gf256.GfMulIsReducedProduct` | src/base/unverified_aes256.cc:100-103 | multiplication built from doubling is the product of polynomials over GF(2) reduced by x^8+x^4+x^3+x+1, for all 65536 pairs |
| `Gf256.GfDoubleLinear` | src/base/unverified_aes256.cc:100-103 | the doubling step GF_p8_mul3 (which multiplies by two, not three) is linear over exclusive or |
| `Gf256.GfMulLinear` | src/base/unverified_aes256.cc:100-103 | multiplication is linear in its right factor |
| `Gf256.GfMulLinearLeft` | src/base/unverified_aes256.cc:100-103 | multiplication is linear in its left factor |
| `Gf256.DoubleOfGfMul` | src/base/unverified_aes256.cc:100-103 | doubling a product doubles either factor |
| `SBoxTables.SBoxHidesInverse` | src/base/unverified_aes256.cc:43-64 | every entry of kSBox is the affine image of the multiplicative inverse of its index, as section 5.1.1 of FIPS 197 defines it |
| `SBoxTables.SBoxInverse` | src/base/unverified_aes256.cc:43-89 | kInvSBox undoes kSBox |
| `SBoxTables.InvSBoxInverse` | src/base/unverified_aes256.cc:43-89 | kSBox undoes kInvSBox |
| `Columns.InvMixOfMix` | src/base/unverified_aes256.cc:105-139 | the matrix of section 5.3.3 of FIPS 197 undoes that of section 5.1.3 |
| `Columns.MixOfInvMix` | src/base/unverified_aes256.cc:105-139 | and the other way round |
| `AesInPlace.MixColumnSums` | src/base/unverified_aes256.cc:109-117 | the four sums of MixColumnsImpl, over its tables of doubled and tripled bytes, are the rows of the matrix of section 5.1.3 |
| `AesInPlace.FactoredProducts` | src/base/unverified_aes256.cc:126-133 | the chains of doublings in InvMixColumnsImpl are products by 9, 11, 13 and 14 |
| `AesInPlace.InvMixColumnSums` | src/base/unverified_aes256.cc:135-138 | the four sums of InvMixColumnsImpl are the rows of the matrix of section 5.3.3 |
| `AesInPlace.MixColumnsImpl` | src/base/unverified_aes256.cc:105-118 | overwrites one column of the buffer with its product by the matrix; nothing else in the buffer changes |
| `AesInPlace.InvMixColumnsImpl` | src/base/unverified_aes256.cc:120-139 | overwrites one column with its product by the inverse matrix |
| `AesInPlace.MixColumnsInPlace` | src/base/unverified_aes256.cc:223-227 | mixes the four columns of one block of the buffer |
| `AesInPlace.InvMixColumnsInPlace` | src/base/unverified_aes256.cc:229-233 | unmixes the four columns of one block of the buffer |
| `AesInPlace.AddRoundKey` | src/base/unverified_aes256.cc:93-98 | adds a round key to one block of the buffer |
| `AesInPlace.SubBytesInPlace` | src/base/unverified_aes256.cc:211-215 | substitutes the bytes of one block |
| `AesInPlace.InvSubBytesInPlace` | src/base/unverified_aes256.cc:217-221 | substitutes them back |
| `AesInPlace.ShiftRowsInPlace` | src/base/unverified_aes256.cc:235-262 | the hand-written moves and swaps rotate row r of one block by r |
| `AesInPlace.InvShiftRowsInPlace` | src/base/unverified_aes256.cc:264-291 | the opposite moves rotate it back |
| `Aes256.SubBytesInverse` | src/base/unverified_aes256.cc:211-221 | the two substitutions of a block are inverse |
| `Aes256.ShiftRowsInverse` | src/base/unverified_aes256.cc:235-291 | the two row shifts are inverse |
| `Aes256.MixColumnsInverse` | src/base/unverified_aes256.cc:223-233 | the two column mixings of a block are inverse |
| `AesInPlace.TransformECB` | src/base/unverified_aes256.cc:293-305 | enciphers one block of a buffer in place by the cipher of section 5.1 of FIPS 197, for any 240-byte schedule |
| `AesInPlace.InverseTransformECB` | src/base/unverified_aes256.cc:307-319 | deciphers one block in place |
| `Aes256.InvCipherOfCipher` | src/base/unverified_aes256.cc:293-319 | deciphering undoes enciphering, for any schedule and any block |
| `Aes256.CipherOfInvCipher` | src/base/unverified_aes256.cc:293-319 | enciphering undoes deciphering |
| `AesVectors.LastKeyGoesInLast` | src/base/unverified_aes256.cc:293-305 | the last sixteen bytes of the schedule go in last of all: taken out again, the rest of the cipher depends on the first 224 bytes only |
| `AesVectors.AppendixC3` | src/base/unverified_aes256_test.cc:236-256 | the example of Appendix C.3 of FIPS 197 through the key schedule and the cipher, and back |
| `KeySchedule.MakeKeySchedule` | src/base/unverified_aes256.cc:181-209 | the loop that fills 32 bytes a time, and 16 the last time, fills the word-by-word expansion of section 5.2 of FIPS 197 |
| `KeySchedule.FirstWordRecurrence` | src/base/unverified_aes256.cc:191-195 | the first word of each 32 bytes, with its rotation folded into indices 28 to 31, follows the rule for words divisible by eight |
| `KeySchedule.MiddleRecurrence` | src/base/unverified_aes256.cc:202-204 | the fifth word follows the rule that substitutes without rotating |
| `KeySchedule.PlainRecurrence` | src/base/unverified_aes256.cc:196-207 | every other word follows the plain rule |
| `KeySchedule.RoundConstant` | src/base/unverified_aes256.cc:187-191 | the shifted one is the round constant as long as it is needed, in rounds 1 to 7 |
| `Cbc.TransformCBC` | src/base/unverified_aes256.cc:143-159 | enciphers a buffer in place, block by block, by the chaining of section 6.2 of SP 800-38A; what lies after it is untouched |
| `Cbc.InverseTransformCBC` | src/base/unverified_aes256.cc:161-179 | deciphers it in place, keeping each ciphertext block before it is overwritten |
| `Cbc.DecryptedOfEncrypted` | src/base/unverified_aes256.cc:143-179 | chained deciphering undoes chained enciphering, at any length |
| `Cbc.EncryptedOfDecrypted` | src/base/unverified_aes256.cc:143-179 | and the other way round |
| `Cbc.EncryptedBlock` | src/base/unverified_aes256.cc:143-159 | each block of ciphertext is the enciphering of its block combined with the block of ciphertext before, the first with the vector |
| `Cbc.DecryptedBlock` | src/base/unverified_aes256.cc:161-179 | each block is deciphered and combined with the block of ciphertext before |
| `Encryptor.EncryptedSizeExact` | src/base/encryptor.cc:116-122 | GetEncryptedSize is the padded size exactly while its 64-bit arithmetic does not wrap |
| `Encryptor.PaddingBytes` | src/base/encryptor.cc:194-204 | the padding reaches the next multiple of the block, is never empty, and each of its bytes is its length |
| `Encryptor.UnpaddedOfPadded` | src/base/encryptor.cc:183-254 | taking off the padding that was put on gives back the message |
| `Encryptor.PaddedOfUnpadded` | src/base/encryptor.cc:212-254 | what is accepted as padded is the padding of what it is taken to hold |
| `Encryptor.RoundTrip` | src/base/encryptor.cc:155-257 | deciphering an enciphered message other than the empty one succeeds and gives the message, for every key and initial vector |
| `Encryptor.ReverseRoundTrip` | src/base/encryptor.cc:195-255 | whatever ciphertext is accepted is the enciphering of what it deciphers to |
| `Encryptor.AcceptedIffEncrypted` | src/base/encryptor.cc:195-255 | the accepted ciphertexts are exactly the encipherings of messages that are not empty |
| `Encryptor.EncipheredInjective` | src/base/encryptor.cc:183-210 | different messages have different ciphertexts |
| `Encryptor.EncryptArray` | src/base/encryptor.cc:183-210 | pads and enciphers in the buffer, or fails and changes nothing; when it does which |
| `Encryptor.RemovePadding` | src/base/encryptor.cc:235-254 | accepts exactly the padding of section 6.3 of RFC 5652, and reports the size without it |
| `Encryptor.DecryptArray` | src/base/encryptor.cc:212-257 | accepts exactly what deciphers to a padded message; what the buffer holds in either case |
| `Encryptor.EncryptString` | src/base/encryptor.cc:155-167 | the string becomes the ciphertext; without a key it is left with room for padding added |
| `Encryptor.DecryptString` | src/base/encryptor.cc:169-181 | the string becomes the message; what it holds when it is not accepted |
| `Encryptor.EncryptThenDecrypt` | src/base/encryptor.cc:155-181 | the two procedures one after the other leave the string as it was |
| `Encryptor.Key.DeriveFromPassword` | src/base/encryptor.cc:124-153 | sets the key once, from a password that is not empty, and takes the initial vector given or zeros |
| `Encryptor.GetMSCryptDeriveKeyWithSHA1` | src/base/encryptor.cc:93-112 | the key is made of the digests of the two 64-byte masks combined with the hash of password and salt |
| `Encryptor.DerivedKeyMeans` | src/base/encryptor.cc:93-112 | the digest of the password followed by the salt, over 64 bytes of 0x36 and of 0x5c, and the digests of these |
| `Encryptor.ProtectData` | src/base/encryptor.cc:371-397 | the salt followed by the enciphered text |
| `Encryptor.UnprotectData` | src/base/encryptor.cc:400-432 | what comes back, and when nothing does |
| `Encryptor.ProtectThenUnprotect` | src/base/encryptor.cc:371-432 | protected text comes back, for every password and salt |
| `ByteOrder.LoadIsBigEndian` | src/base/bits.h:114-184 | loading and converting from network order reads big-endian on hosts of either byte order |
| `ByteOrder.StoreIsBigEndian` | src/base/bits.h:159-177 | converting to network order and storing writes big-endian on hosts of either byte order |
| `ByteOrder.Store64IsBigEndian` | src/base/bits.h:159-177 | the same of 64-bit words |
| `ByteOrder.LoadOfStore` | src/base/bits.h:114-184 | the big-endian bytes of a word read as that word |
| `Sha1.TotalMessageCount` | src/base/unverified_sha1.cc:175-187 | GetTotalMessageCount is the number of blocks of the padded message |
| `Sha1.PaddedAt` | src/base/unverified_sha1.cc:121-169 | the padding of section 5.1.1 of FIPS 180-4, byte by byte |
| `Sha1.PaddedMessageIterator.FillNextMessage` | src/base/unverified_sha1.cc:121-169 | fills the buffer with the next block of the padded message, whichever of its branches runs |
| `Sha1.PaddedMessageIterator.MoveNext` | src/base/unverified_sha1.cc:171 | goes on to the next block |
| `Sha1.BlocksAreMessage` | src/base/unverified_sha1.cc:106-192 | the blocks, joined, are the padded message, for every message under 2^61 bytes |
| `Sha1.BothDefinitions` | src/base/unverified_sha1.cc:52-70 | the two round functions are those of the older standard too |
| `Sha1.ConstantsAreRoots` | src/base/unverified_sha1.cc:81-91 | the round constants are 2^30 times the square roots of 2, 3, 5 and 10 |
| `Sha1.FillSchedule` | src/base/unverified_sha1.cc:205-218 | the message schedule of section 6.1.2, from words read big-endian |
| `Sha1.CompressBlock` | src/base/unverified_sha1.cc:220-240 | eighty rounds over the working variables, as section 6.1.2 has them |
| `Sha1.AsByteStreamIsBigEndian` | src/base/unverified_sha1.cc:93-104 | the digest is the hash words big-endian |
| `Sha1.MakeDigest` | src/base/unverified_sha1.cc:194-245 | the digest of the message, on hosts of either byte order |
| `Sha1.DigestIsFold` | src/base/unverified_sha1.cc:194-241 | the digest takes every block of the padded message in order, from the first hash value |
| `Sha1Vectors.DigestOfAbc` | src/base/unverified_sha1_test.cc:68-77 | the digest of abc, as the standard gives it, round by round |
| `NumberParser.AddAndCheckOverflow` | src/base/number_util.cc:537-545 | the wrapped sum, and whether it wrapped |
| `NumberParser.MultiplyAndCheckOverflow` | src/base/number_util.cc:549-557 | the wrapped product, and whether it wrapped |
| `NumberParser.ReduceLeadingNumbersAsBase10System` | src/base/number_util.cc:614-629 | reads the digits at the front exactly when their value fits 64 bits |
| `NumberParser.InterpretNumbersAsBase10System` | src/base/number_util.cc:635-642 | accepts exactly digits whose value fits |
| `NumberParser.ReduceOnesDigit` | src/base/number_util.cc:646-654 | takes one digit if there is one |
| `NumberParser.ReduceDigitsHelper` | src/base/number_util.cc:674-725 | one place of a coefficient: what is taken, what is left, and when the rest is given up |
| `NumberParser.ReduceNumberLessThan10000` | src/base/number_util.cc:750-777 | a coefficient of thousands, hundreds, tens and ones |
| `NumberParser.InterpretNumbersInJapaneseWay` | src/base/number_util.cc:783-808 | coefficients and bases added up with overflow checks |
| `NumberParser.NormalizeNumbersHelper` | src/base/number_util.cc:812-825 | the largest word decides between the two readings |
| `NumberReading.NormalizedReading` | src/base/number_util.cc:783-825 | an accepted numeral has the unwrapped value that an independent left-to-right reading gives it, up to the words that were passed over: none, or a run of two or more digits at the end |
| `NumberReading.Under10000Reading` | src/base/number_util.cc:750-777 | the same of one coefficient |
| `NumberReading.Under10000Bound` | src/base/number_util.cc:750-777 | a coefficient that is read lies from 1 to 9999 |
| `NumberReading.ExactIffNothingDropped` | src/base/number_util.cc:697-703 | the value is that of the whole numeral exactly when no word was passed over, and too small otherwise |
| `NumberReading.RunTooLongIsDropped` | src/base/number_util.cc:697-703 | two thousand followed by digits worth 1000 or more is accepted as two thousand |
| `NumberShape.InterpretedTerms` | src/base/number_util.cc:783-808 | the value is a sum of coefficients from 1 to 9999 times bases that strictly decrease, at least 10000 but for a last one of 1 |
| `NumberShape.ValueIffNoMisfit` | src/base/number_util.cc:674-777 | an accepted numeral has its whole value exactly when no hundred or thousand is followed by a run of digits that does not fit below it or that a smaller unit follows |
| `NumberAccepted.CoefficientReads` | src/base/number_util.cc:646-781 | exactly which words below ten thousand are read to their end, and that they count for what they mean |
| `NumberAccepted.ReadWholeIff` | src/base/number_util.cc:783-825 | exactly which numerals are read whole: all digits, or accepted coefficients with descending larger words, with a value below 2^64 |
| `NumberAccepted.OneBeforeUnit` | src/base/number_util.cc:706-710 | a one is refused before ten and a hundred and read before a thousand |
| `NumberAccepted.WordsForTens` | src/base/number_util.cc:717-724 | ten and twenty are read as words of their own, thirty and forty are not |
| `NumberPrinter.ArabicToKanji` | src/base/number_util.cc:201-323 | appends the spellings of a decimal string, in order, or nothing; it fails on other strings and on more than 20 digits that are not all zero |
| `NumberPrinter.VariationText` | src/base/number_util.cc:258-298 | the loop over groups of four digits spells the words of the number |
| `NumberPrinter.SegmentText` | src/base/number_util.cc:261-294 | the loop over the digits of a group spells its words |
| `NumberPrinter.ReplaceTwoTen` | src/base/number_util.cc:307-311 | every two-ten becomes the one character for twenty |
| `NumberRoundTrip.WordsReading` | src/base/number_util.cc:258-298 | in each of the four styles the words spelled read as the number, whatever its size |
| `NumberRoundTrip.WordsInterpreted` | src/base/number_util.cc:258-298 | the words of the three styles that are read back are interpreted as the number if it is below 2^64, and refused otherwise |
| `NumberRoundTrip.GroupsValueOf` | src/base/number_util.cc:233-246 | cutting the digits into groups of four loses nothing |
| `NumberText.NormalizeNumbers` | src/base/number_util.cc:827-909 | the Kanji and Arabic forms of a numeral text, or failure |
| `NumberText.WordsSpelled` | src/base/number_util.cc:827-867 | the text of words reads as those words |
| `NumberText.RoundTrip` | src/base/number_util.cc:201-323 | for 1 to 20 digits, not all zeros: normalising the Kanji or the Arabic-and-Kanji spelling gives back the digits without leading zeros if the number is below 2^64, and fails otherwise |
| `NumberText.CandidatesRoundTrip` | src/base/number_util.cc:201-323 | the same of every candidate that ArabicToKanji offers but the old style, for every input |
| `NumberText.ZeroRoundTrip` | src/base/number_util.cc:211-223 | zeros alone are spelled in one way, read back as zero |
| `NumberText.DigitsComeBack` | src/base/number_util.cc:875-892 | Arabic digits come back as they are written, or without their leading zeros when these are to be trimmed |
| `NumberText.DigitsInKanji` | src/base/number_util.cc:836-867 | the Kanji of the digits of either width |
| `NumberOldStyle.CandidatesMean` | src/base/number_util.cc:251-323 | every candidate, the old style and its special characters included, means the number |
| `NumberOldStyle.TwentiesRead` | src/base/number_util.cc:307-311 | the character for twenty does not change what is meant |
| `NumberSpelling.OneSpelling` | src/base/number_util.cc:252-299 | of the well spelled words of a style no two mean the same number |
| `NumberSpelling.CandidateSpelled` | src/base/number_util.cc:230-320 | each candidate is spelled by the only well spelled words of its style that mean the number, or by these with the character for twenty, or is the single character for ten or a thousand |
| `NumberSpelling.CandidateCharacters` | src/base/number_util.cc:277-297 | a candidate has the characters of its style only; a Kanji one stands at the end or before a larger character; an old-style unit has a digit before it |
| `NumberSpelling.CandidateList` | src/base/number_util.cc:235-320 | which candidates there are, in order |
| `NumberSpelling.RefusedIff` | src/base/number_util.cc:208-228 | exactly which inputs are refused |
| `RecursiveMutex.InvKept` | src/base/thread.h:348-406 | every step of every thread keeps the invariant |
| `RecursiveMutex.OwnIdIffHas` | src/base/thread.h:356-393 | however stale the value that a relaxed load returns, a thread loads its own id exactly when it has the lock |
| `RecursiveMutex.AtMostOneHas` | src/base/thread.h:348-406 | at most one thread has the lock |
| `RecursiveMutex.NoRace` | src/base/thread.h:359-387 | only the thread with mutex_ locked is ever about to touch recursion_depth_, and each access happens after all before it |
| `RecursiveMutex.DepthIsLocks` | src/base/thread.h:359-387 | the depth is the number of locks the holder has not given back |
| `RecursiveMutex.CallsEnd` | src/base/thread.h:356-387 | a call of lock() ends with one lock more and one of unlock() with one less; after the last, mutex_ is free |
| `RecursiveMutex.StoresLast` | src/base/thread.h:364-386 | a store to owner_ can only come last in its modification order |
| `RecursiveMutex.DebugChecks` | src/base/thread.h:350-380 | the conditions checked in debug builds always hold |
| `RecursiveMutex.NeverStuck` | src/base/thread.h:356-387 | a thread that waits for mutex_ can lock it, or the thread that has it can go on |
| `TaskManager.InvKept` | src/base/thread.h:239-290 | every step of every caller and of every background thread keeps the invariant |
| `TaskManager.OneAtATimeInOrder` | src/base/thread.h:267-290 | bodies begin in the order their Schedule calls locked the mutex, each after the one before it has ended |
| `TaskManager.WaitWaitsForAll` | src/base/thread.h:281-285 | when Wait is about to return every body scheduled before it has ended, and its thread is gone |
| `TaskManager.NotRunningMeansEnded` | src/base/thread.h:276-279 | when IsRunning returns false every body scheduled before it has ended |
| `TaskManager.IsRunningIffBusy` | src/base/thread.h:276-279 | IsRunning answers true exactly when some thread has not yet notified: never before anything is scheduled, always while a body has not ended |
| `TaskManager.CallsEnd` | src/base/thread.h:269-285 | a call goes on to its own end whatever the threads do, and a Schedule creates its own body |
| `TaskManager.ScheduleFollowsAll` | src/base/thread.h:270-274 | when Schedule creates its thread all the others are gone |
| `TaskManager.NeverStuck` | src/base/thread.h:267-290 | a caller that waits is never stuck: it can lock, or the caller that has the lock can go on, or waits for a thread that can |
| `Utf8Strings.SplitFirstChar32` | src/base/util.cc:393-481 | splits off the first character, or fails with nothing |
| `Utf8Strings.SplitLastChar32` | src/base/util.cc:483-519 | splits off the last character, or fails with nothing |
| `Utf8Strings.IsValidUtf8` | src/base/util.cc:521-531 | whether reading forward comes to the end |
| `Utf8Strings.Utf8ToUtf32` | src/base/util.cc:363-370 | the code points up to the end or the first error |
| `Utf8Strings.Utf32ToUtf8` | src/base/util.cc:372-378 | the encodings of the code points, joined |
| `Utf8Strings.CodepointToUtf8Append` | src/base/util.cc:539-544 | appends one encoding |
| `Utf8.CodepointToUtf8` | src/base/util.cc:546-597 | writes the encoding and a zero, and nothing after it |
| `Utf8.StandardBytes` | src/base/util.cc:546-597 | the bytes of each length, by the table of section 2 of RFC 2279 |
| `Utf8.Examples` | src/base/util.cc:546-597 | three characters, of two, three and four bytes |
| `Utf8Strings.ConstChar32Iterator.constructor` | src/base/util.cc:62-65 | starts with the code points of the string to come |
| `Utf8Strings.ConstChar32Iterator.Next` | src/base/util.cc:72-76 | drops the current code point |
| `Utf8Strings.ConstChar32ReverseIterator.constructor` | src/base/util.cc:80-84 | starts with the code points to come from the back |
| `Utf8Strings.ConstChar32ReverseIterator.Next` | src/base/util.cc:91-95 | drops the current code point |
| `Utf8.ForwardIffBackward` | src/base/util.cc:62-97 | reading any bytes forward comes to the end without an error exactly when reading them backward does, and then the two lists are each other reversed |
| `Utf8.RoundTripIffCodable` | src/base/util.cc:546-597 | decoding an encoding followed by anything gives the code point and its length exactly for 1..0x3FFFFFF and 0x8000000..0x7FFFFFFF |
| `Utf8.UncodableDecoded` | src/base/util.cc:580-596 | what the other code points are decoded as: the code point without the bit that had no room, exactly when that needs a form as long, and nothing otherwise |
| `Utf8.CharEncoded` | src/base/util.cc:393-481 | an accepted character is the encoding of its code point, or longer than that |
| `Utf8.StringRoundTrip` | src/base/util.cc:363-378 | a string comes back from its code points exactly when it is valid and every one of them survives |
| `Utf8.EncodedDecodedAll` | src/base/util.cc:363-378 | code points come back from their encoding exactly when every one of them survives |
| `Utf8Strings.DecodeThenEncode` | src/base/util.cc:363-378 | the same of the two procedures |
| `Utf8Strings.EncodeThenDecode` | src/base/util.cc:363-378 | the same in the other order |
| `Client.Client.Call` | src/client/client.cc:721-809 | what one call does to the status, the versions and the exchange, for every reply |
| `Client.Client.EnsureConnection` | src/client/client.cc:154-203 | true exactly in SERVER_OK and SERVER_INVALID_SESSION, and SERVER_FATAL otherwise |
| `Client.Client.EnsureSession` | src/client/client.cc:205-234 | true exactly when it ends in SERVER_OK |
| `Client.Client.CheckVersionOrRestartServerInternal` | src/client/client.cc:831-904 | the two trials of the version check |
| `Client.Client.CheckVersionOrRestartServer` | src/client/client.cc:371-384 | the version check, or else the connection |
| `Client.Client.CreateSession` | src/client/client.cc:459-491 | a new session id, or why there is none |
| `Client.Client.PlaybackHistory` | src/client/client.cc:259-274 | sends the journal again under the present id, until a call fails; drops a full one |
| `Client.Client.PushHistory` | src/client/client.cc:276-300 | journals a consumed input, and clears the journal on a commit |
| `Client.Client.EnsureCallCommand` | src/client/client.cc:386-440 | the two trials of a command; at most as many contacts as the journal is long and ten more; the journal stays within 512 |
| `Client.Client.DeleteSession` | src/client/client.cc:493-510 | the session closed, if there is one |
| `Client.Client.Shutdown` | src/client/client.cc:558-565 | the shutdown command, whose result is not looked at, and the wait |
| `Client.Client.Reset` | src/client/client.cc:906-910 | back to the beginning |
| `ClientSession.SessionIffOk` | src/client/client.cc:205-234 | EnsureSession is true exactly in SERVER_OK, and otherwise ends in SERVER_FATAL or SERVER_INVALID_SESSION |
| `ClientSession.ConnectionOrFatal` | src/client/client.cc:154-203 | EnsureConnection is true exactly in a usable status, and otherwise ends in SERVER_FATAL, with the launcher told the reason once |
| `ClientSession.CheckVersionBy` | src/client/client.cc:831-904 | the version check of a connected client succeeds exactly when one of its two trials gets an answer from a server that is not older; which, and what the server is sent meanwhile, from the replies and the launcher alone |
| `ClientSession.SessionBy` | src/client/client.cc:205-234 | a session is opened exactly when CREATE_SESSION is answered with success in a version check that succeeds; then its id is the client's; what is sent for it, opened or not: CREATE_SESSION, what makes an old server stop, CREATE_SESSION again, and last SET_REQUEST under the new id |
| `ClientSession.SetRequestFailureHidden` | src/client/client.cc:218-233 | a created session counts as good whatever becomes of SET_REQUEST: for every reply, the status overwritten, whether the request was sent, and when its failure left a trace |
| `ClientSession.SilentServerTakenForGood` | src/client/client.cc:218-233 | a client just made takes a server that never answers SET_REQUEST to be in SERVER_OK |
| `ClientReplay.ReplayBy` | src/client/client.cc:259-274 | a replay sends the journal in order under the present id as far as it is answered, and one input more if that got there; it changes nothing of the journal but the ids |
| `ClientReplay.CommandBy` | src/client/client.cc:386-440 | what a command comes to, by the reply to its first trial: retried exactly when that loses the session |
| `ClientReplay.RetryTraffic` | src/client/client.cc:408-439 | a command that loses its session: what is sent, whether it succeeds and what the journal holds, in every case, with replays cut short and full journals |
| `ClientReplay.SucceedsAfterPartOfJournal` | src/client/client.cc:267-273 | exactly when a command succeeds though the new session was not sent the rest of the journal |
| `ClientRuns.JournalOverRuns` | src/client/client.cc:276-300 | after any run of operations the journal is, ids aside, the first 512 consumed inputs since the last commit or reset, a reset being a full journal dropped or a second trial failed |
| `ClientRuns.ModeOverRuns` | src/client/client.cc:283-286 | after any run the mode remembered is that of the last consumed input that had one |
| `ClientRuns.NewSessionTraffic` | src/client/client.cc:408-439 | what the new session is sent after any run, exactly: what opens it, those inputs as far as they are answered, and the input that met the loss |
| `ClientRuns.NewSessionReceivesJournal` | src/client/client.cc:410-420 | when all is answered from then on, the command succeeds and the new session has been sent all of those inputs, in order and under the new id, and then its own |
| `ClientRuns.SecondKeyFindsAnotherServer` | src/client/client.cc:408-439 | such a run, and one that succeeds without the first key in the new session |
| `ClientProperties.JournalBounded` | src/client/client.cc:276-300 | over any run of operations the journal holds at most 512 inputs between them |
| `ClientProperties.CommandContacts` | src/client/client.cc:386-440 | a command contacts the server at most ten times more than the journal is long |
| `ClientProperties.CheckVersionContacts` | src/client/client.cc:831-904 | the version check contacts it at most three times |
| `ClientProperties.SuccessMeansSent` | src/client/client.cc:386-440 | a command that succeeds has sent its input last of all unless nothing can be sent; when nothing can be sent it succeeds in its session exactly when the protocol last seen is the client's, sending nothing |
| `ClientProperties.SuccessWithoutSending` | src/client/client.cc:386-440 | a state in which every command does so |
| `ClientProperties.CloseSessionBy` | src/client/client.cc:493-510 | closing sends DELETE_SESSION under the id and nothing else, and takes an answer, else the id stays; closing again does nothing; after SERVER_OK the client still counts as in a session |
| `ClientProperties.CallCommandBy` | src/client/client.cc:699-705 | a command outside a session sends its own kind under the id of the client, and succeeds when it is answered |
| `ClientProperties.VersionCheckBy` | src/client/client.cc:371-384 | what the version check sends from any state: NO_OPERATION, what makes an old server stop, NO_OPERATION again |
| `ClientProperties.ShutdownBy` | src/client/client.cc:558-565 | a shutdown succeeds exactly when the launcher says so, sent or not |
| `ClientProperties.ResetKeepsJournalUnsent` | src/client/client.cc:906-910 | after Reset the client connects whenever the server can be started; the journal stays, but a session opened then is not sent it |
| `ClientProperties.FatalStays` | src/client/client.cc:154-164 | from SERVER_FATAL no run of operations but Reset and the version check contacts the server or changes anything |
| `ClientProperties.FatalLeftByVersionCheck` | src/client/client.cc:834-886 | the version check contacts the server from SERVER_FATAL, and leaves that status, each under its exact condition on the protocol last seen, the launcher and the reply |
| `ClientProperties.FatalLeftByFreshClient` | src/client/client.cc:371-384 | a client just made whose server does not start gets out of SERVER_FATAL by its next version check |
| `Calendar.NextCounts` | src/base/date_util.cc:168-188 | the day numbers count days: the day after has the next number, over months, years and leap days |
| `Calendar.NormalizedCounts` | src/base/date_util.cc:172-187 | a day past the end of its month is that many days later, and a date is valid exactly when it is left as it is |
| `DateWindow.ResolveDate` | src/base/date_util.cc:157-188 | the end of ParseTrailingDate |
| `DateWindow.AcceptedInWindow` | src/base/date_util.cc:168-188 | an accepted date without a year lies from 90 days before today to 275 after, for every today |
| `DateWindow.AcceptedIff` | src/base/date_util.cc:168-188 | a date is accepted exactly when it falls in that window in some year, but for the 29th of February asked for on the 30th of May of the year before |
| `DateWindow.MissedIsInWindow` | src/base/date_util.cc:168-188 | that date is 275 days away and is refused |
| `DateWindow.AsWritten` | src/base/date_util.cc:162-188 | an accepted date has the month, the day and the year that were written; a written year is accepted from 1900 to 2100 |
| `DateText.ConsumeTrailingDigits` | src/base/date_util.cc:48-57 | all the digits at the end |
| `DateText.ParseTrailingDate` | src/base/date_util.cc:90-188 | the date of the one way in which the text ends in a date, if it is accepted, and nothing if there is no such way |
| `DateText.PartsMean` | src/base/date_util.cc:88-188 | month, day and year of the date from the parts of the text, and exactly when it is accepted |
| `DateText.RefusedTexts` | src/base/date_util.cc:124-151 | texts with slashes that are no date: a month too long or missing, a full stop before it, a year not of four digits |
| `DateText.ExampleDates` | src/base/date_util.cc:92-156 | a date of each form |
| `DateText.OneDate` | src/base/date_util.cc:90-155 | a text ends in a date in one way at most |
| `SemVer.ParseMarinaSemVer` | src/base/marina_semver.cc:35-89 | the version a text holds, if any; a final release has no prerelease number |
| `SemVer.SplitPrerelease` | src/base/marina_semver.cc:68-77 | the loop that sorts letters from digits |
| `SemVer.LessTotal` | src/base/marina_semver.cc:117-143 | of two parsed versions that are different exactly one is less |
| `SemVer.LessTransitive` | src/base/marina_semver.cc:117-143 | the order is transitive |
| `SemVer.Ladder` | src/base/marina_semver.cc:104-143 | other suffixes, alpha, beta, rc by number, final: the stages of one release in order, below the next patch |
| `SemVer.NumbersDecide` | src/base/marina_semver.cc:117-127 | major before minor before patch, whatever comes after |
| `SemVer.NoPatchIsPatchZero` | src/base/marina_semver.cc:55-64 | a version of two numbers is that with a patch of zero |
| `SemVer.TagLessOrder` | src/base/marina_semver.cc:147-154 | the order of texts is asymmetric and transitive, those that are not versions included |
| `Releases.SelectNewerMarinaRelease` | src/base/marina_github_releases.cc:196-225 | the first of the newest eligible releases above the current version, or none exactly when there is none |
| `Releases.SelectionIff` | src/base/marina_github_releases.cc:196-225 | nothing is selected exactly when no release that may be offered, by its marks and its version, is newer |
| `Releases.HigherIsSelected` | src/base/marina_github_releases.cc:196-225 | with a release of a higher major, minor or patch version something is selected |
| `Releases.SelectionIsNewest` | src/base/marina_github_releases.cc:196-225 | no eligible release is newer than the one selected |
| `Releases.SelectionSettles` | src/base/marina_github_releases.cc:196-225 | with the selected tag as the current version nothing is selected |
| `Releases.NormalizedOnce` | src/base/marina_semver.cc:27-33 | taking the letter off a version that can be read leaves none to take off |
| `WindowsRevision.OrderEmbedding` | src/build_tools/mozc_version.py:146-166 | for accepted versions in ASCII digits, one revision is below another exactly when MarinaSemVerLess puts the one version before the other |
| `WindowsRevision.AgreesIffAscii` | src/build_tools/mozc_version.py:146-166 | an accepted version is in its place among those exactly when it is in ASCII digits itself, whatever other digits the pattern matches |
| `WindowsRevision.FullwidthAccepted` | src/build_tools/mozc_version.py:146-166 | a version with a full-width digit that is accepted, and out of its place |
| `WindowsRevision.Revision` | src/build_tools/mozc_version.py:146-166 | a revision fits in 16 bits and is not zero |
| `WindowsRevision.AsciiParsed` | src/build_tools/mozc_version.py:146-151 | what C++ reads from a version the build accepts |
| `WindowsRevision.WrittenParsed` | src/base/marina_semver.cc:35-88 | any version written in ASCII digits that fit is read in C++ as its numbers |
| `WindowsRevision.AcceptedIffBelow` | src/build_tools/mozc_version.py:130-166 | exactly which versions have a revision, and its base and slot |
| `WindowsRevision.DocumentedRevisions` | src/build_tools/mozc_version.py:125-129 | the four revisions that the documentation gives |

## Left out

- The `__APPLE__`, `_WIN32` and DEBUG branches of the client, the preferences that are
  added to its inputs, and the commands that only call the server and copy a reply.
- The contents of protocol messages beyond what the client looks at; the body of the
  server launcher; timing.
- `src/base/process_mutex.cc`: its guarantees are those of the file system.
- The operating system's part of data protection, the salts that are drawn at random, and
  where passwords are kept (src/base/encryptor.cc:262-350).
- `NormalizeNumbersWithSuffix` (src/base/number_util.cc:911-919), whose suffix test rests
  on the script tables.
- Reading the old-style numerals back: two of their characters are not in the table that
  numerals are read by, so there is no round trip; what they mean is proved instead.
- The cutting of a long text to 64 bytes and its conversion to half-width characters
  before a date is read (src/base/date_util.cc:66-82).
- The JSON scanner and the choice of an asset in `src/base/marina_github_releases.cc`.
- A thread id that is used again after its thread has ended, and the destructors of
  `RecursiveMutex` and `TaskManager`.
- Exceptions thrown by a body or by running out of memory, and the overflow of
  `recursion_depth_` after 2^31 - 1 nested locks.
- Plain table look-ups: scripts, widths, brackets and weekdays.
