# Firmware cryptography: what the code computes

This project models the cryptographic library in `43602/src/bcmcrypto` of a Wi-Fi firmware and
proves what its functions compute. The library is written as loops over byte and word buffers,
with tables, carries, caches and in-place updates; the standards it follows are written as
recurrences over blocks and bits. The proofs close that distance, and then say what the library
is for: that a receiver recovers what a sender protected, that a hash does not depend on how the
message was cut, that no sequence number is accepted twice.

The files build on each other, each layer on the contracts of the one below.

- `Words`, `WordBits`, `BlockCipher`, `HashBlocks`, `Dot11`: bytes, words, what the word operations
  do to single bits and to numbers, buffers, block functions, padded messages, and the frame-control
  bits.
- `SboxAlgebra`: the S-boxes of AES and SMS4 as inversion in a field between affine maps.
- `GaloisField`, `SBox`, `AesSpec`, `Rijndael`, `RijndaelKey`, `AesTables`, `Aes`: FIPS 197 on
  columns of bytes, the table cipher and its schedules against it, and AES as a block function with
  a two-sided inverse.
- `KeyWrap`, `Ctr`, `CbcMac`, `Ccm`, `Ccmp`, `Cmac`: the modes over an arbitrary block function.
- `Sha1Block`, `Sha1`, `Prf`, `PassHash`: SHA-1, HMAC, the two PRF versions, and PBKDF2 in one go
  and in slices.
- `Sha256Tables`, `Sha256Block`: the rolled and the unrolled SHA-256 block function.
- `Md5Block`, `Md5`: MD5 and its streaming context.
- `Sms4Tables`, `Sms4`, `Sms4Wpi`, `Sms4Packet`: SMS4, its two WPI modes, and WPI frames.
- `CkipReplay`, `CkipMic`: the CKIP replay window and message integrity code.
- `Tkip`: TKIP key mixing.
- `DesTables`, `Des`, `DesStandardTables`, `DesStandard`, `DesRefines`, `DesKeyRefines`: DES as coded,
  FIPS 46-3 on bits with its own tables, and the refinement between them: the cipher, then the key
  schedule.
- `Sha1Answer`, `Sms4Answer`, `TkipAnswer`: known answers, proved word by word and round by round.

Buffers are arrays that the methods change in place; a C pointer into a buffer is an array and an
offset. Streaming contexts are classes with a ghost field for the message fed so far. A method is
stated against a function of the old contents, and the lemmas are about those functions. Where code
and standard use the same elementary function, that function has laws of its own that do not mention
its definition: what it does to each bit, which number it computes, or that it loses nothing.

## Where the code departs from its standards

Each of these is proved with its exact condition.

- Key wrap exclusive-ors the step number into one byte, not into 64 bits. It agrees with RFC 3394
  on every input of a length exactly up to 336 bytes; the code accepts 384
  (`KeyWrap.AgreesWithRfc`).
- `hmac_sha1` writes the hash of a key longer than 64 bytes over the caller's key, so `PRF` uses a
  different key for each block after the first while `fPRF` does not. Whatever the hash, the two
  agree on all keys of a length exactly up to 64 bytes, or with at most one block of output
  (`Prf.VersionsAgree`); `Prf.LongKeyDiffers` gives a hash and a key on which they differ.
- For the same reason the passphrase hash is PBKDF2 exactly for password lengths up to 64, a length
  that is passed beside the string and not checked (`PassHash.PasswordLengths`).
- The length check of both PRF versions counts one of the two octets that a prefix brings. With a
  prefix and a sum that meets the limit, such as 1 and 126 bytes, the input is one byte longer than
  its buffer (`Prf.InputFits`, `Prf.InputOverflows`).
- `aes_unwrap` computes the output length before any check; an empty input passes the checks with a
  length that has wrapped around (`KeyWrap.OutputLengthFits`).
- `do_passhash` takes a negative slice off its counter but not off the iterations, so that the block
  ends with too many (`PassHash.StaysInStep`, `PassHash.ExcessAdds`, `PassHash.NegativeSlice`).
- The CKIP reduction gives 15 instead of 0 on the multiples q p of p = 2^32+15 with 15 q >= 2^32,
  and agrees with the modulus on all other sums (`CkipMic.ReduceIsModulo`).
- The two CCM length octets are exact below 2^16 bytes; the code accepts up to 2^20
  (`Ccm.LengthExact`).
- The last of 65536 blocks of CCM data is enciphered under the counter block of the MAC; up to 65535
  blocks none is (`Ccm.MacCounterApart`).
- `SHA1Input` reports success on the call in which the message reaches 2^64 bits; the context is
  corrupted from then on, and the next call says so (`Sha1.SHA1Context.Input`).
- A packet that is refused because its data are too long already carries a MAC under CCM and CCMP
  (`Ccm.AesCcmEncrypt`, `Ccmp.AesCcmpEncrypt`), and may carry one under WPI
  (`Sms4Packet.PktEncrypt`).

## Model

| member | source | states |
|---|---|---|
| SBox.SboxInverse | 43602/src/bcmcrypto/rijndael-alg-fst.c:317-382 | the byte lanes of Te4 and of Td4 are inverse permutations of the 256 bytes |
| SboxAlgebra.AesBoxIsInverse | 43602/src/bcmcrypto/rijndael-alg-fst.c:317-382 | for all bytes x and y, S(x) is the affine image of y exactly when y is the inverse of x in GF(2^8), or both are 0 (section 5.1.1 of FIPS 197) |
| SboxAlgebra.MixCoefficients | 43602/src/bcmcrypto/rijndael-alg-fst.c:38-50 | the coefficients 2 and 3 of the Te tables are products in the field of that definition |
| SboxAlgebra.InverseCoefficients | 43602/src/bcmcrypto/rijndael-alg-fst.c:38-50 | and so are the coefficients 9, b, d and e of the Td tables |
| AesSpec.MixColumnInverse | 43602/src/bcmcrypto/rijndael-alg-fst.c:38-50 | the 0e,09,0d,0b columns of the Td tables undo the 02,01,01,03 columns of the Te tables, in both orders |
| AesSpec.RoundInverse | 43602/src/bcmcrypto/rijndael-alg-fst.c:1116-1349 | an equivalent-inverse round under the InvMixColumns image of a key undoes the round under that key, and the other way around (section 5.3.5 of FIPS 197) |
| AesSpec.CipherInverse | 43602/src/bcmcrypto/rijndael-alg-fst.c:837-1349 | for every list of round keys the equivalent inverse cipher over the reversed, mixed keys and the cipher undo each other on every state |
| Rijndael.EncWordsAreRound | 43602/src/bcmcrypto/rijndael-alg-fst.c:1024-1079 | four T-table words of one table-driven round are SubBytes, ShiftRows, MixColumns and AddRoundKey |
| Rijndael.DecWordsAreInvRound | 43602/src/bcmcrypto/rijndael-alg-fst.c:1260-1315 | four Td words of one round are the equivalent-inverse round of the standard |
| Rijndael.EncLastWordsAreLastRound | 43602/src/bcmcrypto/rijndael-alg-fst.c:1083-1112 | the masked Te4 words of the last round are the round without MixColumns |
| Rijndael.DecLastWordsAreInvLastRound | 43602/src/bcmcrypto/rijndael-alg-fst.c:1317-1348 | the masked Td4 words of the last round are the inverse round without InvMixColumns |
| Rijndael.RijndaelEncrypt | 43602/src/bcmcrypto/rijndael-alg-fst.c:879-1113 | the looped table cipher writes the cipher of FIPS 197 under the round keys the array holds, for every even number of rounds |
| Rijndael.RijndaelDecrypt | 43602/src/bcmcrypto/rijndael-alg-fst.c:1115-1349 | the looped table decryption writes the equivalent inverse cipher under the round keys the array holds |
| RijndaelKey.RconTableIsRcon | 43602/src/bcmcrypto/rijndael-alg-fst.c:713-718 | the ten rcon literals are the successive powers of x in GF(2^8) |
| RijndaelKey.ExpandKey128 | 43602/src/bcmcrypto/rijndael-alg-fst.c:749-830 | the unrolled 128-bit loop writes exactly the 44 words of the recurrence of section 5.2 of FIPS 197 |
| RijndaelKey.ExpandKey192 | 43602/src/bcmcrypto/rijndael-alg-fst.c:749-830 | the unrolled 192-bit loop writes exactly the 52 words of the recurrence |
| RijndaelKey.ExpandKey256 | 43602/src/bcmcrypto/rijndael-alg-fst.c:749-830 | the unrolled 256-bit loop writes exactly the 60 words of the recurrence |
| RijndaelKey.RijndaelKeySetupEnc | 43602/src/bcmcrypto/rijndael-alg-fst.c:749-830 | the number of rounds for each key size, 0 for any other, and the whole expanded key |
| RijndaelKey.MixedKeyWordIsInvMixColumn | 43602/src/bcmcrypto/rijndael-alg-fst.c:853-875 | a schedule word through Te4 and the Td tables is InvMixColumn of the word |
| RijndaelKey.ReverseKeys | 43602/src/bcmcrypto/rijndael-alg-fst.c:837-877 | the swap loop leaves round key q where round key nr-q was, for every q |
| RijndaelKey.MixMiddleKeys | 43602/src/bcmcrypto/rijndael-alg-fst.c:837-877 | the second loop applies InvMixColumns to every round key but the first and the last |
| RijndaelKey.RijndaelKeySetupDec | 43602/src/bcmcrypto/rijndael-alg-fst.c:837-877 | the decryption schedule is the encryption schedule of the key reversed with its middle keys mixed |
| Aes.DecryptInvertsEncrypt | 43602/src/bcmcrypto/rijndael-alg-fst.c:749-1349 | for every 16-, 24- or 32-byte key and every block, decryption undoes encryption and encryption undoes decryption |
| Aes.AesIsInvertible | 43602/src/bcmcrypto/aes.c:98-113 | under every key AES is a block function with a two-sided inverse, as the modes require |
| Aes.AesEncrypt | 43602/src/bcmcrypto/aes.c:98-104 | key set-up followed by the cipher writes AES of the block |
| Aes.AesDecrypt | 43602/src/bcmcrypto/aes.c:107-113 | key set-up followed by the inverse cipher writes inverse AES of the block |
| AesTables.ChainedMultiples | 43602/src/bcmcrypto/aes.c:843-865 | the chained doublings and sums of the generator are the multiples 9, b, d and e |
| AesTables.EncEntries | 43602/src/bcmcrypto/aes.c:839-876 | the five encryption words generated for an index are those the table equations define |
| AesTables.DecEntries | 43602/src/bcmcrypto/aes.c:847-887 | the five decryption words generated for an index are those the table equations define |
| AesTables.AesGenTables | 43602/src/bcmcrypto/aes.c:829-889 | every table that is asked for receives all 256 entries of its equation, the others are left alone |
| KeyWrap.StepInverse | 43602/src/bcmcrypto/aeskeywrap.c:73-222 | one unwrap step undoes one wrap step and the other way around |
| KeyWrap.UnwrapIffWrapped | 43602/src/bcmcrypto/aeskeywrap.c:73-222 | unwrapping c gives p exactly when c is the wrapping of p, for every invertible block function |
| KeyWrap.AgreesWithRfc | 43602/src/bcmcrypto/aeskeywrap.c:90-125 | wrapping equals that of section 2.2.1 of RFC 3394 for every block function and input of a length exactly when its step numbers stay below 256: the code exclusive-ors the step number into one byte only |
| KeyWrap.AesWrap | 43602/src/bcmcrypto/aeskeywrap.c:73-141 | the error cases, and the wrapping of the input behind the check value |
| KeyWrap.OutputLengthFits | 43602/src/bcmcrypto/aeskeywrap.c:155-171 | of the lengths that pass the checks, the output length is eight less than the input exactly when the input is not empty; zero wraps around |
| KeyWrap.AesUnwrap | 43602/src/bcmcrypto/aeskeywrap.c:148-222 | success exactly when the input is a wrapping, and then the unwrapped key data; every error case |
| Aes.AesUnwrapIffWrapped | 43602/src/bcmcrypto/aeskeywrap.c:73-222 | the same with AES as the block cipher, for every key-encryption key |
| Ctr.BumpAddsOne | 43602/src/bcmcrypto/aes.c:281-282 | the two-byte increment with its carry adds one modulo 2^16 and leaves the other 14 bytes |
| Ctr.CountersDistinct | 43602/src/bcmcrypto/aes.c:276-285 | counter blocks j and k coincide exactly when j and k agree modulo 2^16, so 2^16 blocks never repeat one |
| Ctr.KeystreamRepeats | 43602/src/bcmcrypto/aes.c:263-294 | under an invertible cipher blocks j and k of the keystream are the same exactly when j and k agree modulo 2^16 |
| Ctr.NonceMatters | 43602/src/bcmcrypto/aes.c:263-294 | two starting counters give the same keystream exactly when they are the same |
| Ctr.CryptTwice | 43602/src/bcmcrypto/aes.c:263-294 | counter mode undoes itself under the same nonce |
| Ctr.AesCtrCrypt | 43602/src/bcmcrypto/aes.c:263-294 | the length limit, and data exclusive-ored with the keystream, also when input and output are the same bytes |
| CbcMac.AbsorbIsCbc | 43602/src/bcmcrypto/aes.c:303-384 | byte-by-byte absorption with an encryption whenever a block fills up is CBC over the zero-padded input |
| CbcMac.AbsorbByte | 43602/src/bcmcrypto/aes.c:340-378 | one exclusive-ored byte, and an encryption if it completes a block, is absorption of one more byte |
| CbcMac.OneBlockMatters | 43602/src/bcmcrypto/aes.c:303-384 | under an invertible cipher, whatever surrounds it, changing one block changes the chaining value |
| Ccm.LengthExact | 43602/src/bcmcrypto/aes.c:325-345 | the two length octets hold the length exactly when it is below 2^16 |
| Ccm.FlagsOfRfc | 43602/src/bcmcrypto/aes.c:303-334 | the first octet of B_0 is 64 Adata + 8 M' + L' and that of a counter block L', of section 2.2 and 2.3 of RFC 3610 |
| Ccm.FormattingInjective | 43602/src/bcmcrypto/aes.c:303-384 | whatever the nonce, additional data and message are, two triples make the same MAC blocks exactly when they are equal |
| Ccm.CounterFormat | 43602/src/bcmcrypto/aes.c:394-483 | a counter block is flags, nonce and the block number modulo 2^16 |
| Ccm.MacCounterApart | 43602/src/bcmcrypto/aes.c:403-427 | no counter block of the data is that of the MAC exactly up to 65535 blocks of data |
| Ccm.AbsorbAad | 43602/src/bcmcrypto/aes.c:336-358 | the additional-data loop is CBC over its length, its bytes and zero padding, including the empty case |
| Ccm.AbsorbData | 43602/src/bcmcrypto/aes.c:360-378 | the message loop is CBC over the zero-padded message for every length |
| Ccm.AesCcmMac | 43602/src/bcmcrypto/aes.c:303-384 | the limits, and the first eight bytes of the CBC-MAC over blocks B_0 to B_n of section 2.2 of RFC 3610 |
| Ccm.OpenIffSealed | 43602/src/bcmcrypto/aes.c:394-483 | opening c gives data exactly when c is the sealing of data under the same nonce and additional data |
| Ccm.AesCcmEncrypt | 43602/src/bcmcrypto/aes.c:394-430 | the limits, ciphertext and encrypted MAC of the plaintext, also in place, and what a refused call leaves: the MAC alone when only the data are too long |
| Ccm.AesCcmDecrypt | 43602/src/bcmcrypto/aes.c:441-483 | success exactly when the MAC belongs to the recovered plaintext, and the plaintext, also in place |
| Ccmp.CalParams | 43602/src/bcmcrypto/aes.c:563-697 | nonce, additional data and header length of a packet header, in every combination of WDS, QoS and legacy mode |
| Ccmp.UnprotectIffProtected | 43602/src/bcmcrypto/aes.c:494-561 | a packet opens to p exactly when it is the protection of p, header and body |
| Ccmp.ProtectedHeader | 43602/src/bcmcrypto/aes.c:494-561 | the packet opens under any header that gives the same nonce and additional data |
| Ccmp.NonceOrder | 43602/src/bcmcrypto/aes.c:602-619 | octet k of the packet number lies k places before the end of the nonce |
| Ccmp.MaskedBits | 43602/src/bcmcrypto/aes.c:626-650 | which frame-control bits enter the additional data, for every build, mode and nonce flag |
| Ccmp.MaskedControls | 43602/src/bcmcrypto/aes.c:652-690 | which bits of sequence control and QoS control enter the additional data |
| Ccmp.AadLayout | 43602/src/bcmcrypto/aes.c:651-697 | which field each octet of the additional data comes from |
| Dot11.FieldBits | 43602/src/bcmcrypto/aes.c:563-584 | which frame-control bits make a data frame, a QoS frame, a fourth address and the Protected flag |
| WordBits.Get16Bit | 43602/src/bcmcrypto/aes.c:563-584 | bit i of a little-endian header field is bit i mod 8 of its byte i / 8 |
| WordBits.Put16Inverse | 43602/src/bcmcrypto/aes.c:651-652 | a field stored in the additional data reads back as it was |
| Ccmp.ParametersAgree | 43602/src/bcmcrypto/aes.c:563-697 | two headers of a length give the same nonce and additional data exactly when they agree in the masked fields, the addresses and the packet number, in every mode |
| Ccmp.HeaderChangesTolerated | 43602/src/bcmcrypto/aes.c:494-697 | changes in transit outside those parts do not stop the receiver from recovering the body |
| Ccmp.MutedBitsTolerated | 43602/src/bcmcrypto/aes.c:613-640 | in particular flipping Retry, and outside legacy mode PwrMgmt and MoreData |
| Ccmp.AesCcmpEncrypt | 43602/src/bcmcrypto/aes.c:494-527 | the protected packet in place, with the header as it was; or the error for a body that is too long, with the MAC alone behind it |
| Ccmp.AesCcmpDecrypt | 43602/src/bcmcrypto/aes.c:529-561 | success exactly when the packet is authentic, and the whole packet afterwards: header and plaintext in place, authentic or not |
| Cmac.ShiftLeftDoubles | 43602/src/bcmcrypto/aes.c:714-751 | the byte loop with carries doubles the 128-bit number, the carry out aside |
| Cmac.DoubleIsFieldDouble | 43602/src/bcmcrypto/aes.c:714-751 | shift and conditional 0x87 is doubling modulo x^128+x^7+x^2+x+1, on every block |
| Cmac.DoubleBit | 43602/src/bcmcrypto/aes.c:714-751 | bit i of the double is bit i-1 of the block, changed at places 0, 1, 2 and 7 when the top bit left |
| Cmac.PadOneInjective | 43602/src/bcmcrypto/aes.c:785-792 | the marker keeps different last blocks different |
| Cmac.GenSubkeys | 43602/src/bcmcrypto/aes.c:714-751 | K1 and K2 are the first and second double of the enciphered zero block (section 2.3 of RFC 4493) |
| Cmac.MacByBlocks | 43602/src/bcmcrypto/aes.c:758-811 | the recursive MAC of section 2.4 of RFC 4493 is the chain over all blocks but the last and then the last |
| Cmac.LastBlock | 43602/src/bcmcrypto/aes.c:758-811 | the last block under K1 when complete, padded and under K2 otherwise |
| Cmac.AesCmac | 43602/src/bcmcrypto/aes.c:758-811 | the MAC of RFC 4493 under any two subkeys for every length, 0 and multiples of 16 included |
| Cmac.AesCmacCalc | 43602/src/bcmcrypto/aes.c:813-821 | with the subkeys of the key, AES-CMAC of the message |
| Sha1Block.Schedule | 43602/src/bcmcrypto/sha1.c:278-287 | the 80 schedule words are those of section 6.1 of RFC 3174 |
| Sha1Block.FirstForty | 43602/src/bcmcrypto/sha1.c:295-312 | the first two round loops carry the working variables through rounds 0 to 39 of the standard |
| Sha1Block.LastForty | 43602/src/bcmcrypto/sha1.c:314-331 | the other two loops carry them through rounds 40 to 79 |
| Sha1Block.ProcessBlock | 43602/src/bcmcrypto/sha1.c:261-340 | one block takes the chaining words to the compression of the standard |
| Sha1Block.ChooseBit | 43602/src/bcmcrypto/sha1.c:295-302 | in rounds 0 to 19 each bit of B decides between C and D |
| Sha1Block.MostBit | 43602/src/bcmcrypto/sha1.c:314-321 | in rounds 40 to 59 a bit is set exactly where at least two of the three are |
| Sha1Block.ParityBit | 43602/src/bcmcrypto/sha1.c:304-331 | in the other rounds a bit is the parity of the three |
| Sha1Block.MixBit | 43602/src/bcmcrypto/sha1.c:284-287 | a schedule word before its rotation has the parity of four earlier words |
| Sha1Block.SumIsModular | 43602/src/bcmcrypto/sha1.c:295-331 | the sum of a round is the sum of the five numbers modulo 2^32 |
| Sha1Block.AddChainIsModular | 43602/src/bcmcrypto/sha1.c:333-337 | the chaining words grow by the working variables, as numbers modulo 2^32 |
| Sha1Block.ConstantsAreRoots | 43602/src/bcmcrypto/sha1.c:264-269 | the four constants are the square roots of 2, 3, 5 and 10 in units of 2^-30 |
| Sha1Answer.DigestOfAbc | 43602/src/bcmcrypto/sha1.c:428-450 | the digest of the first test message is the one the test expects |
| WordBits.RotlBit | 43602/src/bcmcrypto/sha1.c:284-287 | a rotation by n moves bit i to place (i + n) mod 32 |
| WordBits.SumBit | 43602/src/bcmcrypto/sha1.c:295-331 | bit i of a sum is both bits and the majority carried from the places below |
| WordBits.AddIsModular | 43602/src/bcmcrypto/sha1.c:295-331 | adding words adds the numbers their bits stand for, modulo 2^32 |
| WordBits.Get32Bit | 43602/src/bcmcrypto/sha1.c:278-283 | bit i of a big-endian word is bit i mod 8 of the byte i / 8 places before its last |
| HashBlocks.FeedByte | 43602/src/bcmcrypto/sha1.c:219-236 | one more byte joins the buffered rest or completes a block that is compressed |
| HashBlocks.PadOneBlock | 43602/src/bcmcrypto/sha1.c:366-406 | up to 55 buffered bytes pad to one last block |
| HashBlocks.PadTwoBlocks | 43602/src/bcmcrypto/sha1.c:366-406 | more than 55 buffered bytes pad to two blocks |
| Sha1.PaddingInjective | 43602/src/bcmcrypto/sha1.c:366-406 | no two messages of fewer than 2^64 bits pad to the same blocks |
| Sha1.CountByte | 43602/src/bcmcrypto/sha1.c:223-230 | the two-word bit count with its carry test, exact up to 2^64 bits where it is detected |
| Sha1.SHA1Context.constructor | 43602/src/bcmcrypto/sha1.c:105-126 | a fresh context stands for the empty message |
| Sha1.SHA1Context.Reset | 43602/src/bcmcrypto/sha1.c:105-126 | afterwards the context stands for the empty message |
| Sha1.SHA1Context.InputByte | 43602/src/bcmcrypto/sha1.c:219-236 | buffer, chaining words and bit count stand for the message with one more byte, or the context is corrupted at 2^64 bits |
| Sha1.SHA1Context.Input | 43602/src/bcmcrypto/sha1.c:199-239 | the context stands for the message with the new bytes; empty input, input after the digest and corrupted contexts behave as coded |
| Sha1.SHA1Context.PadMessage | 43602/src/bcmcrypto/sha1.c:366-406 | the chaining words become the final ones of the padded message (section 4 of RFC 3174) |
| Sha1.SHA1Context.Result | 43602/src/bcmcrypto/sha1.c:147-177 | the digest of the message, again on every further call; a corrupted context writes nothing |
| Sha1.DigestOfPieces | 43602/src/bcmcrypto/sha1.c:147-239 | however a message of fewer than 2^64 bits is cut into calls, the digest is that of the whole message, twice |
| Prf.XorWordIsBytes | 43602/src/bcmcrypto/prf.c:64-68 | a word exclusive-ored with four equal bytes is its bytes exclusive-ored, whatever the byte order |
| Prf.MakePads | 43602/src/bcmcrypto/prf.c:46-68 | both pads hold the effective key filled with zeros and masked; a key above 64 bytes has its hash left in the caller's buffer |
| Prf.HmacSha1 | 43602/src/bcmcrypto/prf.c:33-87 | HMAC of section 2 of RFC 2104 for every key length, and what happens to the key buffer |
| Prf.HmacIsRfc | 43602/src/bcmcrypto/prf.c:33-87 | over every hash, the formula of RFC 2104: the zero-padded key plus the repeated bytes 5c and 36 |
| Prf.PrfInputInjective | 43602/src/bcmcrypto/prf.c:109-120 | no two labels without a zero octet and data make the same input |
| Prf.BlocksCover | 43602/src/bcmcrypto/prf.c:117-122 | as many blocks as hold the length asked for, and no more |
| Prf.CountIsModulo | 43602/src/bcmcrypto/prf.c:119-124 | the count octet of block i is i modulo 256 |
| Prf.PRF | 43602/src/bcmcrypto/prf.c:98-127 | the length error, and the concatenated HMAC blocks over prefix, zero octet, data and count, with the key drifting for long keys |
| Prf.FPRF | 43602/src/bcmcrypto/prf.c:133-205 | the same length error, and the concatenated HMAC blocks under one key |
| Prf.VersionsAgree | 43602/src/bcmcrypto/prf.c:33-205 | over every hash in place of SHA-1, both versions write the same bytes for all keys of a length exactly when it is at most 64 or there is at most one block |
| Prf.LongKeyDiffers | 43602/src/bcmcrypto/prf.c:43-51 | a hash and a key on which they differ from the second block on |
| Prf.InputFits | 43602/src/bcmcrypto/prf.c:109-120 | of the lengths that pass the check, the input with its two octets fits its buffer exactly when there is no prefix or the sum stays below the limit |
| Prf.InputOverflows | 43602/src/bcmcrypto/prf.c:109-120 | a prefix and data that pass the check and make one byte too many |
| PassHash.BlockAgrees | 43602/src/bcmcrypto/passhash.c:32-62 | over every hash in place of SHA-1, a block is that of PBKDF2 (section 5.2 of RFC 8018) for all passwords of a length exactly when it is at most 64 or there is one iteration |
| PassHash.PasswordLengths | 43602/src/bcmcrypto/passhash.c:71-81 | and the 40 bytes are those of PBKDF2 exactly for lengths up to 64 |
| PassHash.F | 43602/src/bcmcrypto/passhash.c:32-62 | one block under HMAC-SHA1 for every iteration count and password length, and what it leaves of the password |
| PassHash.Passhash | 43602/src/bcmcrypto/passhash.c:71-81 | the argument checks, both blocks of 4096 iterations, and what they leave of the password |
| PassHash.StrLen | 43602/src/bcmcrypto/passhash.c:76-76 | the index of the first zero byte |
| PassHash.DoF | 43602/src/bcmcrypto/passhash.c:104-120 | n more iterations take digest, output and password n iterations further, none when n is negative |
| PassHash.PassHash.Init | 43602/src/bcmcrypto/passhash.c:131-146 | the password check, and a run at its start |
| PassHash.ExcessAdds | 43602/src/bcmcrypto/passhash.c:148-173 | what every slice, negative ones included, does to the difference between iterations computed and counted, and that a block ends with that many too many |
| PassHash.StaysInStep | 43602/src/bcmcrypto/passhash.c:148-173 | the counter stays the number of iterations computed exactly when the slice is not negative or takes the counter back to 0 |
| PassHash.NegativeSlice | 43602/src/bcmcrypto/passhash.c:148-173 | a run with a negative slice whose block ends after 4097 iterations |
| PassHash.PassHash.Do | 43602/src/bcmcrypto/passhash.c:148-173 | one slice of any size: the run steps on, the finished blocks and the one in progress hold what its HMACs make, and completion is reported exactly at the end |
| PassHash.PassHash.Get | 43602/src/bcmcrypto/passhash.c:175-183 | the bytes of both finished blocks exactly when the run is complete and they fit |
| PassHash.SlicesFinish | 43602/src/bcmcrypto/passhash.c:122-173 | every run of positive slices ends within as many calls as iterations, never past the end, and never before enough were asked for |
| PassHash.StaysStraight | 43602/src/bcmcrypto/passhash.c:148-173 | a positive slice loses and repeats nothing and advances by its size, up to the end of the block |
| PassHash.HashInSlices | 43602/src/bcmcrypto/passhash.c:122-183 | init, do for every slice and get write the bytes that passhash writes, exactly when the password is accepted and the slices reach the end |
| Sms4.LIsFiveTerms | 43602/src/bcmcrypto/sms4.c:305-314 | the factored L is B ^ B<<<2 ^ B<<<10 ^ B<<<18 ^ B<<<24 |
| Sms4.Sms4Enc | 43602/src/bcmcrypto/sms4.c:343-395 | 32 rounds of the recurrence over in-place rotated words, output reversed, also when X and Y are the same array |
| Sms4.Sms4Dec | 43602/src/bcmcrypto/sms4.c:397-416 | the same under the round keys taken from the end |
| Sms4.DecryptInvertsEncrypt | 43602/src/bcmcrypto/sms4.c:343-416 | decryption and encryption undo each other under any round keys |
| SboxAlgebra.Sms4BoxIsInverse | 43602/src/bcmcrypto/sms4.c:38-71 | for all bytes x and y, S(x) is the affine image of y exactly when y is the inverse of the affine image of x in GF(2)[t]/(t^8+t^7+t^6+t^5+t^4+t^2+1) |
| Sms4.Sms4KeyExp | 43602/src/bcmcrypto/sms4.c:460-475 | the 32 round keys are the words of the key recurrence |
| Sms4.CkBytes | 43602/src/bcmcrypto/sms4.c:418-427 | byte j of constant CK_i is (4i + j) * 7 modulo 256 |
| Sms4Answer.CipherOfVector | 43602/src/include/bcmcrypto/sms4_vectors.h:20-32 | key expansion and encryption of the first test vector give its ciphertext |
| Sms4Wpi.XorQuadIsXorBlock | 43602/src/bcmcrypto/sms4.c:525-545 | exclusive-oring big-endian words is exclusive-oring bytes |
| Sms4Wpi.ChainStretch | 43602/src/bcmcrypto/sms4.c:523-573 | word-wise chaining of a stretch with a zero-filled last block is CBC over its zero padding |
| Sms4Wpi.WpiMacParts | 43602/src/bcmcrypto/sms4.c:488-578 | chaining packet number, additional data and payload one after the other is one CBC-MAC over all three |
| Sms4Wpi.Sms4WpiCbcMac | 43602/src/bcmcrypto/sms4.c:488-578 | the length limit read from the additional data, and the CBC-MAC stored behind the payload |
| Sms4Wpi.OfbTwice | 43602/src/bcmcrypto/sms4.c:659-712 | output feedback undoes itself under the same packet number |
| Sms4Wpi.KeystreamFeeds | 43602/src/bcmcrypto/sms4.c:659-712 | each keystream block is the cipher of the one before it, the first that of the packet number |
| Sms4Wpi.PacketNumberMatters | 43602/src/bcmcrypto/sms4.c:659-712 | under an invertible cipher two packet numbers give the same block k of keystream exactly when they are the same |
| Sms4Wpi.Sms4OfbCrypt | 43602/src/bcmcrypto/sms4.c:659-712 | the length limit, and the data exclusive-ored with the feedback keystream in place, partial block included |
| Sms4Packet.AadLength | 43602/src/bcmcrypto/sms4.c:796-801 | the length field of the additional data is the payload length modulo 2^16 |
| Sms4Packet.CalParams | 43602/src/bcmcrypto/sms4.c:744-808 | additional data and reversed packet number of a header, for WDS and QoS frames |
| Sms4Packet.PnAt | 43602/src/bcmcrypto/sms4.c:807-808 | octet k of the packet number lands in position 15-k of the starting value |
| Sms4Packet.MaskedBits | 43602/src/bcmcrypto/sms4.c:771-781 | which bits of frame control and sequence control enter the additional data |
| Sms4Packet.AadLayout | 43602/src/bcmcrypto/sms4.c:768-801 | which field each octet of the additional data comes from |
| Sms4Packet.ParametersAgree | 43602/src/bcmcrypto/sms4.c:744-808 | two headers of a length give the same starting value and additional data exactly when they agree in the masked fields, the addresses, the QoS control, key index, reserved octet and all sixteen octets of the packet number |
| Sms4Packet.HeaderChangesTolerated | 43602/src/bcmcrypto/sms4.c:829-934 | changes in transit outside those parts do not change what the receiver recovers or its verdict |
| Sms4Packet.MacInputInjective | 43602/src/bcmcrypto/sms4.c:744-819 | two frames make the same MAC input exactly when packet number, additional data and payload are the same |
| Sms4Packet.PacketMacIs | 43602/src/bcmcrypto/sms4.c:744-819 | the MAC of a packet is the CBC-MAC of that input |
| Sms4Packet.SealThenOpen | 43602/src/bcmcrypto/sms4.c:723-934 | every frame that encryption accepts is accepted by decryption, with payload and header restored |
| Sms4Packet.AuthenticIffSealed | 43602/src/bcmcrypto/sms4.c:829-934 | a frame passes the MAC check exactly when it is the encryption of its header and recovered payload |
| Sms4Packet.PktEncrypt | 43602/src/bcmcrypto/sms4.c:723-819 | acceptance exactly for protected data frames whose payload and MAC fit, the sealed frame, and what a refused frame is left as |
| Sms4Packet.PktDecrypt | 43602/src/bcmcrypto/sms4.c:829-934 | the three verdicts, and the recovered payload with the recomputed MAC in place |
| CkipReplay.RxSeq.Check | 43602/src/bcmcrypto/bcmccx.c:109-153 | base and bitmap keep standing for a window over unbounded numbers: bit i is set exactly when number base+i was accepted; the verdict is that of the window |
| CkipReplay.SlideWindow | 43602/src/bcmcrypto/bcmccx.c:131-146 | moving the window keeps every bit with its number and sets the new one at the target |
| CkipReplay.StartNeverFalls | 43602/src/bcmcrypto/bcmccx.c:109-153 | over every run the base never moves back and nothing accepted is forgotten |
| CkipReplay.NeverTwice | 43602/src/bcmcrypto/bcmccx.c:109-153 | over every run no number is accepted twice |
| CkipReplay.FreshIsAccepted | 43602/src/bcmcrypto/bcmccx.c:109-153 | every number from the base to half the range ahead is accepted exactly when it was not accepted before |
| CkipReplay.OldIsRefused | 43602/src/bcmcrypto/bcmccx.c:148-152 | every number from half the range back to the base is refused |
| CkipMic.MicContext.Init | 43602/src/bcmcrypto/ccx.c:392-399 | the context stands for the empty message under the key |
| CkipMic.MicContext.GetCoefficient | 43602/src/bcmcrypto/ccx.c:360-384 | the coefficient for word w is word w mod 4 of AES of w/4, through the cached block |
| CkipMic.MicContext.Update | 43602/src/bcmcrypto/ccx.c:402-422 | the context stands for the message with the new bytes, however they are split |
| CkipMic.MicContext.Final | 43602/src/bcmcrypto/ccx.c:425-457 | the code of the message depends on its bytes only |
| CkipMic.AccumIsSum | 43602/src/bcmcrypto/ccx.c:386-389 | the 64-bit sum is the sum of all words times their coefficients, reduced once modulo 2^64 |
| CkipMic.AccumDiffers | 43602/src/bcmcrypto/ccx.c:386-422 | changing one word changes the sum by the change times the coefficient of that word, modulo 2^64 |
| CkipMic.ZeroSum | 43602/src/bcmcrypto/ccx.c:386-422 | a message of zeros has sum 0 under every key |
| CkipMic.CounterIsBigEndian | 43602/src/bcmcrypto/ccx.c:360-384 | the counter block holds its number as a big-endian number |
| CkipMic.ReduceIsModulo | 43602/src/bcmcrypto/ccx.c:442-450 | the two-step reduction is (sum mod p) mod 2^32 with p = 2^32+15 exactly unless the sum is a multiple q p with 15 q >= 2^32, where it gives 15 |
| CkipMic.ReduceDiffers | 43602/src/bcmcrypto/ccx.c:442-450 | a sum on which the reduction differs from the modulus |
| CkipMic.Compute | 43602/src/bcmcrypto/ccx.c:470-498 | the MIC over addresses, length, SNAP header, sequence number and both payload pieces |
| CkipMic.MicInputLayout | 43602/src/bcmcrypto/ccx.c:484-493 | the order of the fields and the bytes of length and SNAP header |
| CkipMic.MicInputInjective | 43602/src/bcmcrypto/ccx.c:470-498 | two packets make the same MIC input exactly when addresses, length octets, sequence number and payload are the same |
| CkipMic.Check | 43602/src/bcmcrypto/ccx.c:515-560 | the verdict for a received payload: mismatch, match, or an IAPP frame without MIC; and the computed MIC, stored on a mismatch only |
| CkipMic.CheckAcceptsComputed | 43602/src/bcmcrypto/ccx.c:470-560 | an encapsulated packet is accepted exactly when its MIC is the computed one |
| Tkip.RoundInverse | 43602/src/bcmcrypto/tkhash.c:184-191 | a phase-1 round has a two-sided inverse |
| Tkip.SboxSweepInverse | 43602/src/bcmcrypto/tkhash.c:226-232 | the S-box sweep of phase 2 has a two-sided inverse |
| Tkip.RotateSweepInverse | 43602/src/bcmcrypto/tkhash.c:234-240 | the rotation sweep of phase 2 has a two-sided inverse |
| Tkip.MixIsPermutation | 43602/src/bcmcrypto/tkhash.c:200-245 | under a fixed key the mixing permutes the 96 bits of address, IV32 and IV16, as the comments claim |
| Tkip.KeysAreUnique | 43602/src/bcmcrypto/tkhash.c:200-257 | two packets share an RC4 key, or only its last twelve bytes, exactly when address and IV are the same |
| Tkip.SIsPermutation | 43602/src/bcmcrypto/tkhash.c:152-152 | the 16-bit S-box has a two-sided inverse |
| Tkip.MixedUsesWord | 43602/src/bcmcrypto/tkhash.c:184-191 | step n of an S-box sweep adds the same amount under two keys exactly when they agree in word n |
| Tkip.RotR1Bit | 43602/src/bcmcrypto/tkhash.c:39-39 | rotation to the right moves each bit one place down and the last to the top |
| Tkip.KeyHead | 43602/src/bcmcrypto/tkhash.c:242-251 | the bits of the first four bytes: upper and lower IV byte, the seed with bit 5 set and bit 7 clear, and bits 1 to 8 of the last word exclusive-ored with key word 0 |
| TkipAnswer.KeyOfVector | 43602/src/bcmcrypto/tkhash.c:169-257 | phase-1 key and RC4 key of a test vector of IEEE 802.11 |
| Tkip.TkhashPhase1 | 43602/src/bcmcrypto/tkhash.c:169-192 | the in-place rounds leave the phase-1 key |
| Tkip.TkhashPhase2 | 43602/src/bcmcrypto/tkhash.c:216-257 | the sixteen bytes of the RC4 key |
| Des.FTwice | 43602/src/bcmcrypto/des.c:390-414 | macro F applied twice with the same half and subkey changes nothing |
| Des.LeaveUndoesEnter | 43602/src/bcmcrypto/des.c:440-513 | after the half swap the output exchanges undo the input exchanges |
| Des.EnterUndoesLeave | 43602/src/bcmcrypto/des.c:440-513 | and the input exchanges undo the output exchanges |
| Des.InputPermutation | 43602/src/bcmcrypto/des.c:453-473 | the statements of the input permutation compute it |
| Des.OutputPermutation | 43602/src/bcmcrypto/des.c:496-513 | the statements of the output permutation compute it |
| Des.RoundLoop | 43602/src/bcmcrypto/des.c:475-480 | eight turns of two macro calls are the sixteen Feistel rounds |
| Des.ReversedKeysUndo | 43602/src/bcmcrypto/des.c:417-522 | under reversed subkeys des undoes what it did, whatever the subkeys are |
| Des.DesBlock | 43602/src/bcmcrypto/des.c:417-522 | the block in place becomes the cipher of the block |
| Des.HalvesByTotal | 43602/src/bcmcrypto/des.c:180-252 | rotating the chosen bits by totrot at once is rotating them round by round |
| Des.DesKey | 43602/src/bcmcrypto/des.c:228-277 | the sixteen subkeys of the standard, in the opposite order for decryption |
| DesKeyRefines.TablesAgree | 43602/src/bcmcrypto/des.c:184-207 | pc1 and pc2 are PC-1, in its two halves, and PC-2 of FIPS 46-3 |
| DesKeyRefines.Pc1Closed | 43602/src/bcmcrypto/des.c:184-192 | the arithmetic form of pc1 |
| DesKeyRefines.ByteBitIsShift | 43602/src/bcmcrypto/des.c:219-222 | bit m of a byte, from the left, is the one that bytebit selects |
| DesKeyRefines.HalvesAreStandard | 43602/src/bcmcrypto/des.c:194-252 | the bits rotated by totrot are C_n and D_n, rotated half by half by the shifts of the standard |
| DesKeyRefines.ScheduleIsStandard | 43602/src/bcmcrypto/des.c:228-277 | the sixteen subkeys are the round keys of FIPS 46-3, six bits to a byte |
| DesKeyRefines.SameSchedule | 43602/src/bcmcrypto/des.c:228-277 | two keys have the same schedule exactly when they agree outside the parity bits |
| DesStandard.FinalUndoesInitial | 43602/src/bcmcrypto/des.c:289-312 | the final permutation undoes the initial permutation |
| DesRefines.OriginIsIp | 43602/src/bcmcrypto/des.c:440-473 | bit for bit, the exchanges are the initial permutation with both halves one place further left |
| DesRefines.Table0 | 43602/src/bcmcrypto/des.c:33-176 | the first combined table is S-box 1 followed by P and the rotation, on every index; Table1 to Table7 say the same of the other seven |
| DesRefines.FAt | 43602/src/bcmcrypto/des.c:390-414 | bit for bit, macro F exclusive-ors f(R, K) of FIPS 46-3 into the other half |
| DesRefines.DesIsStandard | 43602/src/bcmcrypto/des.c:417-522 | under any sixteen subkeys des computes the cipher of FIPS 46-3 |
| DesKeyRefines.DesOfKey | 43602/src/bcmcrypto/des.c:228-522 | under the schedule of a key des is DES of FIPS 46-3 under that key, both taken bit by bit |
| DesRefines.PairBitsOfBlock | 43602/src/bcmcrypto/des.c:430-438 | the bits of the two words are the bits of the eight bytes from the left |
| Sha256Block.NextScheduleWord | 43602/src/bcmcrypto/sha256.c:226-230 | the in-place update of slot i mod 16 from slots i+1, i+9 and i+14 is schedule word i |
| Sha256Block.Replace | 43602/src/bcmcrypto/sha256.c:226-230 | and the circular buffer then holds the sixteen latest schedule words |
| Sha256Block.BlockRolled | 43602/src/bcmcrypto/sha256.c:187-240 | the rolled form is the compression of section 6.2.2 of FIPS 180-4 on any number of blocks, in either input order |
| Sha256Block.Macro | 43602/src/bcmcrypto/sha256.c:245-248 | one macro call is one round with the names moved on instead of the values |
| Sha256Block.EightLater | 43602/src/bcmcrypto/sha256.c:313-322 | eight macro calls with the names turned once around are eight rounds |
| Sha256Block.BlockUnrolled | 43602/src/bcmcrypto/sha256.c:255-324 | the unrolled form computes the same state as the rolled form |
| Sha256Block.ChBit | 43602/src/bcmcrypto/sha256.c:182-182 | each bit of x decides between y and z |
| Sha256Block.MajBit | 43602/src/bcmcrypto/sha256.c:183-183 | a bit is set exactly where at least two of the three are |
| Sha256Block.BigSigma0Bit | 43602/src/bcmcrypto/sha256.c:177-177 | the parity of the bits 2, 13 and 22 places further |
| Sha256Block.BigSigma1Bit | 43602/src/bcmcrypto/sha256.c:178-178 | the parity of the bits 6, 11 and 25 places further |
| Sha256Block.SmallSigma0Bit | 43602/src/bcmcrypto/sha256.c:179-179 | the parity of the bits 7 and 18 places further and of the bit 3 places up, if there is one |
| Sha256Block.SmallSigma1Bit | 43602/src/bcmcrypto/sha256.c:180-180 | the parity of the bits 17 and 19 places further and of the bit 10 places up, if there is one |
| Sha256Block.RoundSumsAreModular | 43602/src/bcmcrypto/sha256.c:204-220 | both sums of a round are sums of numbers modulo 2^32 |
| Sha256Block.ScheduleIsModular | 43602/src/bcmcrypto/sha256.c:226-230 | and so is the sum of the schedule |
| Sha256Block.AddStateIsModular | 43602/src/bcmcrypto/sha256.c:236-240 | the chaining words grow by the results of the rounds, as numbers modulo 2^32 |
| Sha256Block.InputBit | 43602/src/bcmcrypto/sha256.c:200-216 | where each bit of an input word comes from, in both orders |
| Sha256Tables.ConstantsAreCubeRoots | 43602/src/bcmcrypto/sha256.c:154-171 | constant t is the first 32 bits of the fractional part of the cube root of the t-th prime |
| Md5Block.FirstRound | 43602/src/bcmcrypto/md5.c:221-243 | the sixteen FF lines are operations 0 to 15 of section 3.4 of RFC 1321 |
| Md5Block.SecondRound | 43602/src/bcmcrypto/md5.c:245-265 | the sixteen GG lines, with their literal indices, are operations 16 to 31 |
| Md5Block.ThirdRound | 43602/src/bcmcrypto/md5.c:267-287 | the sixteen HH lines are operations 32 to 47 |
| Md5Block.FourthRound | 43602/src/bcmcrypto/md5.c:289-309 | the sixteen II lines are operations 48 to 63 |
| Md5Block.Transform | 43602/src/bcmcrypto/md5.c:216-317 | one block takes the chaining words to those of the standard |
| Md5Block.AuxBits | 43602/src/bcmcrypto/md5.c:78-82 | bit by bit: F chooses by x, G by z, H is the parity, I differs from y where x is set or z is not |
| Md5Block.SumIsModular | 43602/src/bcmcrypto/md5.c:89-118 | the sums of an operation, before and after its rotation, are sums of numbers modulo 2^32 |
| Md5Block.AddQuadIsModular | 43602/src/bcmcrypto/md5.c:311-314 | the chaining words grow by the results of the operations, as numbers modulo 2^32 |
| Md5Block.GetLittleBit | 43602/src/bcmcrypto/md5.c:158-173 | where each bit of a message word comes from |
| Md5.PutLittleInverse | 43602/src/bcmcrypto/md5.c:203-215 | the digest stores each word as a block of the message would hold it |
| Md5.CountAdds | 43602/src/bcmcrypto/md5.c:152-156 | carry test and the length >> 29 term keep the bit count of all bytes fed, modulo 2^64 |
| Md5.Buffered | 43602/src/bcmcrypto/md5.c:149-150 | the low word of the count tells how many bytes are buffered |
| Md5.LastBlock | 43602/src/bcmcrypto/md5.c:187-206 | with marker and zeros fed as message bytes, one block with the length remains |
| Md5.PaddingInjective | 43602/src/bcmcrypto/md5.c:178-200 | no two messages of fewer than 2^64 bits pad to the same blocks |
| Md5.InitBytes | 43602/src/bcmcrypto/md5.c:125-136 | the starting words are the bytes 01 to ef and fe to 10, low byte first |
| Md5.MD5Context.Init | 43602/src/bcmcrypto/md5.c:125-136 | the context stands for the empty message |
| Md5.MD5Context.Update | 43602/src/bcmcrypto/md5.c:142-173 | the context stands for the message with the new bytes, and its count for their number |
| Md5.MD5Context.Final | 43602/src/bcmcrypto/md5.c:178-216 | the digest of all bytes fed, padded as in sections 3.1 and 3.2 of RFC 1321, however they were split |

## Left out

- Sms4.Sms4Enc: models the looped form; the unrolled form that SMS4_FULL_UNROLL selects is the same 32 statements in a row.
- Rijndael.RijndaelEncrypt: models the looped form; FULL_UNROLL and the variant with intermediate values are not modelled.
- KeyWrap.AesUnwrap: requires a non-empty input when the key length is valid, because the code then uses an output length that has wrapped around.
- Ccmp.AesCcmpDecrypt: a length shorter than the header wraps around in the code to one that counter mode refuses; the model returns that refusal directly.
- Prf.PRF: requires lengths for which the input fits its buffer, exactly those of Prf.InputFits; past its end the code writes over whatever follows.
- Prf.FPRF: requires the same.
- PassHash.PassHash.Do: requires slices that do not overflow the C int that counts them.
- PassHash.HashInSlices: drives the run with positive slices; what other slices do is stated for single calls.
- Sha1.SHA1Context.Input: requires the data to lie outside the context's own block buffer; null-pointer returns are not modelled.
- CkipMic.Compute: requires lengths below 2^31, the range of the C int that counts them.
- Tkip.TkhashPhase1: the S-box is taken from the shared AES table; the two-column literal table is not modelled separately.
- DesRefines.Table0: FIPS 46-3 numbers the boxes from 1, the tables here from 0.
- Pointer aliasing beyond what the interfaces allow (in-place encryption, digest over text) is excluded by preconditions.
- Machine integers: 8-, 16- and 32-bit words wrap as in C; lengths are natural numbers, with the truncating casts written out where they matter.
- The AES, SMS4 and DES tables are decisions on the bits of the index, or the equations that generate them, instead of arrays.
- SHA256_Update and SHA256_Final, whose word-packed buffering lives in md32_common.h; only the block function is modelled.
- AES-CBC, RC4, WEP, TKIP Michael, MD4, HMAC-MD5 and HMAC-SHA256: easier repeats of what is here.
- CKIP key permutation, LEAP response and password hashing: thin compositions.
- random.c, the dongle sources and the register headers: system calls, plumbing and constants.
- Debug printing, test drivers and timing code; cryptographic strength and key secrecy.
