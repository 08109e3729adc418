# asyd in Dafny

`asyd` is a daemon that lets an agent query and control a machine through short binary frames over a Noise IK
session.  This project models the parts of it that carry the safety of the whole: the field, authenticator, hash
and stream arithmetic in `monocypher.c`, the handshake and transport in `noise_ik.c`, the frame parser, the tag
check, the packet loop with its sequence-number gate, the dispatcher and two acting handlers, the pool of
asynchronous restart tasks, the client and parser slots, and the process table.

## How to read it

The code that changes state is modelled by methods and classes with the C functions' fields and loops; each is
proved equal to a function of its inputs or of the old state, and the theorems are lemmas about those functions.

| modules | what they cover |
|---|---|
| Machine, Bits, Arithmetic, Counting, ByteStrings, WordNumbers, LongWords | machine integers as range types, so that every accepted body is also an overflow proof; bitwise operators on numbers; byte and word strings as numbers |
| Field25519, FieldCodec, Ladder, Inversion | the ten-limb field, its encoding, the X25519 ladder of section 5 of RFC 7748, inversion through the inverse square root |
| Primes, Pocklington, PrimeField, SquareRoots | Fermat's and Euler's theorems, the primality of 2^255 - 19, square roots modulo such a prime |
| Poly1305, ChaCha20, Aead, Verify | sections 2.3 to 2.8 of RFC 8439, incremental and in place |
| ModL | Barrett reduction modulo the group order |
| Blake2b, Hmac | section 3.3 of RFC 7693 and section 2 of RFC 2104 |
| Noise, NoisePattern, Party, Transport | both roles of the handshake, the tokens of pattern IK they follow, and runs of the transport |
| Apdu, Auth | frames, their printer, the tag check and the client |
| TaskPool, Tasks, TaskRuns | the task slots, the two handlers over them, and runs |
| Dispatcher, Session, SessionRuns | one connection's loop, and runs of the whole service |
| Pools, Ownership | client slots, parser slots, session numbers, and which tasks a connection can reach |
| Procs | the five busiest processes |

BLAKE2b's compression, ChaCha20's rounds and, in the handshake, the Diffie-Hellman function are parameters: every
theorem holds for each choice of them (for the handshake, each choice that commutes).  The clock, random bytes, the
results of `fork`, `kill` and `send`, received packets and child exits are parameters or events.

The daemon parses one frame for each packet it receives and leaves any further ones in the buffer.  `Feed` and
`AnyPackets` describe a receiver that keeps parsing; how far the daemon lags behind it, and when the buffer is full, is
stated by `DispatchedInOrder`, `OneFramePerPacket` and `RoomRunsOut`.

Session numbers are 16 bits wide and a connection holds one from before its handshake until it ends, so the condition
under which tasks stay apart ranges over all of these connections (`Apart` in Ownership), also those still shaking hands:
their end releases the tasks of their number too.

Three places where the code and its text differ, the code being followed.  The comment on the carry chain asks for
|t0| < 2^63, but its first addition needs t0 < 2^63 - 2^25 (`FirstCarryFits`); all callers meet it.  The header of the
task pool speaks of a dispatch lock, which does not exist.  The IETF construction uses a 64-bit counter, so it departs
from RFC 8439 when the 32-bit block number would wrap (`IetfBlocks`).

## Model

| member | source | states |
|---|---|---|
| `Field25519.CarryForward` | src/asyd/core/monocypher.c:1105-1115 | the ten forward carry steps keep the represented integer and reach the intermediate bounds the comment derives, with no 64-bit overflow |
| `Field25519.CarryWrap` | src/asyd/core/monocypher.c:1116-1119 | the last two steps wrap the top carry around times 19: the value is kept modulo 2^255 - 19 and the limbs meet 1.1 * 2^25 / 1.1 * 2^24 |
| `Field25519.FeCarry` | src/asyd/core/monocypher.c:1105-1120 | the whole 12-step chain: congruent modulo 2^255 - 19, tight bounds on all ten limbs |
| `Field25519.MulAccExact` | src/asyd/core/monocypher.c:1231-1267 | the hundred-term schoolbook sum equals f * g minus an explicit multiple of 2^255 - 19, as integers |
| `Field25519.MulAcc` | src/asyd/core/monocypher.c:1218-1267 | for all operands within 1.65 * 2^26 / 1.65 * 2^25 no 32-bit or 64-bit intermediate overflows and the carry precondition holds |
| `Field25519.FeMul` | src/asyd/core/monocypher.c:1225-1268 | f * g modulo 2^255 - 19 with tight limbs, also when output and inputs are the same array |
| `Field25519.SqAccIsMulAcc` | src/asyd/core/monocypher.c:1281-1325 | the shortened squaring sum is, accumulator by accumulator, the product of f with itself |
| `Field25519.FeSq` | src/asyd/core/monocypher.c:1281-1325 | f * f modulo 2^255 - 19 with tight limbs |
| `Field25519.FeMulSmall` | src/asyd/core/monocypher.c:1205-1216 | f * g for a 32-bit g, modulo 2^255 - 19, with tight limbs |
| `Field25519.FeAdd` | src/asyd/core/monocypher.c:974 | sum of the represented elements; tight inputs give a result fe_mul accepts |
| `Field25519.FeSub` | src/asyd/core/monocypher.c:975 | difference of the represented elements; tight inputs give a result fe_mul accepts |
| `FieldCodec.FeCswap` | src/asyd/core/monocypher.c:977-985 | the masked exclusive-or swaps both arrays when b is 1 and changes nothing when b is 0 |
| `FieldCodec.FeCcopy` | src/asyd/core/monocypher.c:987-994 | the masked copy copies when b is 1 and changes nothing when b is 0 |
| `FieldCodec.BytesAccValue` | src/asyd/core/monocypher.c:1128-1142 | the ten shifted loads with the top bit masked add up to the little-endian number modulo 2^255 |
| `FieldCodec.FeFromBytes` | src/asyd/core/monocypher.c:1128-1147 | decodes the little-endian number, top bit ignored, to a tight element |
| `FieldCodec.Canonical` | src/asyd/core/monocypher.c:1161-1184 | the quotient estimate and the two limb passes give the unique representative below 2^255 - 19 |
| `FieldCodec.WordsHoldLimbs` | src/asyd/core/monocypher.c:1186-1193 | the eight packed words hold exactly the ten reduced limbs |
| `FieldCodec.FeToBytes` | src/asyd/core/monocypher.c:1161-1196 | writes the 32-byte little-endian encoding of the representative in [0, 2^255 - 19) |
| `FieldCodec.DecodeEncode` | src/asyd/core/monocypher.c:1144-1196 | decoding then encoding reduces the number modulo 2^255 - 19, and returns the string with its top bit cleared exactly for canonical encodings |
| `FieldCodec.CanonicalEncoding` | src/asyd/core/monocypher.c:1144-1196 | the same round trip stated of the numbers: identity up to the top bit if and only if the encoding is canonical |
| `FieldCodec.TopBitCleared` | src/asyd/core/monocypher.c:1128-1133 | clearing the top bit of the string is reducing its number modulo 2^255 |
| `Ladder.ConstantsAgree` | src/asyd/core/monocypher.c:1523-1529 | BB + 121666 * E equals AA + 121665 * E, so the code and section 5 of RFC 7748 agree |
| `Ladder.StepFormulas` | src/asyd/core/monocypher.c:1510-1529 | the step in closed form: x-coordinate doubling and differential addition on the curve with A = 486662 |
| `Ladder.ScalarBit` | src/asyd/core/monocypher.c:1476-1482 | the bit read at a position is that bit of the little-endian number |
| `Ladder.LadderMultiplies` | src/asyd/core/monocypher.c:1501-1534 | whatever points stand for multiples m and m + 1, if the step doubles and adds, n bits of k take multiple j to j 2^n + k mod 2^n |
| `Ladder.LadderStep` | src/asyd/core/monocypher.c:1510-1529 | one differential step on limb arrays is one step of section 5 of RFC 7748 on field values, every fe_mul and fe_sq operand inside its precondition |
| `Ladder.Iterate` | src/asyd/core/monocypher.c:1502-1530 | one iteration with the deferred swap acts as the plain branch on the bit of the little-endian number at that place |
| `Ladder.RunLadder` | src/asyd/core/monocypher.c:1501-1534 | for every scalar, point and bit count the deferred-swap loop yields the plain ladder on the number of the scalar |
| `Inversion.PowerChain` | src/asyd/core/monocypher.c:1411-1425 | the addition chain computes x^(2^252 - 3) |
| `Inversion.FeIsEqual` | src/asyd/core/monocypher.c:1338-1348 | compares field values, not limbs |
| `SquareRoots.InverseRoot` | src/asyd/core/monocypher.c:1350-1406 | in every class of the quartic residue the root squared times x is 1, or the square root of -1 |
| `SquareRoots.SquareClasses` | src/asyd/core/monocypher.c:1350-1373 | modulo a prime, squares are exactly zero and the elements of the classes 1 and -1 |
| `Inversion.InvSqrt` | src/asyd/core/monocypher.c:1350-1450 | true exactly for squares; the result squared times x is 1 for a nonzero square and the square root of -1 for any other nonzero x, and the result is 0 for zero; for every x and with the arrays allowed to be the same |
| `SquareRoots.QuarticClasses` | src/asyd/core/monocypher.c:1350-1373 | modulo a prime every nonzero element is in one of the four classes |
| `SquareRoots.InverseValue` | src/asyd/core/monocypher.c:1452-1466 | modulo such a prime, squaring the inverse root of z^2 and multiplying by z gives z^(p-2), which is the inverse of z, or zero for zero |
| `Primes.Euler` | src/asyd/core/monocypher.c:1357-1366 | for a prime modulus every nonzero element to the power (p-1)/2 is 1 or -1, on which the case analysis rests |
| `PrimeField.FieldIsPrime` | src/asyd/core/monocypher.c:1357-1368 | 2^255 - 19 is prime, by a chain of five certificates; the case analysis of the root and the inversion rest on it |
| `Inversion.FeInvert` | src/asyd/core/monocypher.c:1452-1466 | z^(p-2), which is the inverse of z, or zero for zero; for every z |
| `Inversion.TrimmedNumber` | src/asyd/core/monocypher.c:1468-1475 | as a number the clamped scalar keeps bits 3 to 253 and has bit 254 set |
| `Inversion.Scalarmult` | src/asyd/core/monocypher.c:1487-1543 | ladder on the number of the scalar, inversion and encoding together: the bytes of x2 * z2^(p-2), for every scalar, point and bit count |
| `Inversion.X25519` | src/asyd/core/monocypher.c:1546-1555 | the function of section 5 of RFC 7748: the ladder on the number with bits 3 to 253 of the secret and bit 254 set, for all inputs |
| `Verify.Neq0` | src/asyd/core/monocypher.c:144-150 | the branch-free comparison returns 0 for 0 and -1 for every other 64-bit number |
| `Verify.X16` | src/asyd/core/monocypher.c:152-156 | the combined difference is zero exactly for equal strings |
| `Verify.Verify16` | src/asyd/core/monocypher.c:152-159 | 0 if and only if the 16 bytes are equal, -1 otherwise |
| `Verify.Verify32` | src/asyd/core/monocypher.c:157-160 | 0 if and only if the 32 bytes are equal, -1 otherwise |
| `Bits.BitwiseAt` | src/asyd/core/monocypher.c:977-994 | exclusive or, or and and, bit by bit |
| `Poly1305.Multiply` | src/asyd/core/monocypher.c:303-342 | the lazy products never overflow 64 or 32 bits for a bounded h and a clamped r |
| `Poly1305.MultiplyValue` | src/asyd/core/monocypher.c:310-342 | the products stand for (h + c) * r modulo 2^130 - 5 |
| `Poly1305.Reduce` | src/asyd/core/monocypher.c:344-357 | partial reduction drops an exact multiple of 2^130 - 5 and restores h <= 4_ffffffff_ffffffff_ffffffff_ffffffff |
| `Poly1305.BlockStepValue` | src/asyd/core/monocypher.c:303-364 | one block step is (h + block) * r modulo 2^130 - 5 |
| `Poly1305.AbsorbConcat` | src/asyd/core/monocypher.c:377-411 | the polynomial of section 2.5 of RFC 8439 can be evaluated in two parts cut at a block boundary |
| `Poly1305.AbsorbIsPolynomial` | src/asyd/core/monocypher.c:377-411 | absorbing evaluates the sum of all blocks, a one byte behind each, times powers of r, modulo 2^130 - 5 |
| `Poly1305.Context.Init` | src/asyd/core/monocypher.c:366-375 | clamped key words and pad words, empty message |
| `Poly1305.KeyIsClamped` | src/asyd/core/monocypher.c:370-374 | the masks give exactly the clamped r of section 2.5 of RFC 8439 |
| `Poly1305.PadIsNat` | src/asyd/core/monocypher.c:371-374 | the four pad words are the number s in the second half of the key |
| `Poly1305.ClampIsMask` | src/asyd/core/monocypher.c:366-375 | the clamp is the mask 0ffffffc0ffffffc0ffffffc0fffffff on the 128-bit number |
| `Poly1305.Context.Blocks` | src/asyd/core/monocypher.c:310-364 | whole blocks, each with the given end bit, keep h bounded |
| `Poly1305.Context.Update` | src/asyd/core/monocypher.c:377-411 | the context afterwards depends only on the concatenation of all updates |
| `Poly1305.Subtractions` | src/asyd/core/monocypher.c:424-433 | the carry trick finds whether h is at least 2^130 - 5, so the modulus is subtracted 0 or 1 times |
| `Poly1305.Finalize` | src/asyd/core/monocypher.c:424-440 | writes (h mod 2^130 - 5) + s modulo 2^128 |
| `Poly1305.Context.Final` | src/asyd/core/monocypher.c:413-440 | the tag of section 2.5 of RFC 8439 of everything absorbed, the last partial block padded |
| `Poly1305.OneShot` | src/asyd/core/monocypher.c:442-450 | init, one update and final give the tag of the message |
| `Poly1305.MacIsPolynomial` | src/asyd/core/monocypher.c:442-450 | the tag in full: that polynomial at the masked first half of the key, plus the second half, modulo 2^128 |
| `ModL.Multiply` | src/asyd/core/monocypher.c:1573-1583 | the 8 by 8 word product is exact, every 64-bit step in range |
| `ModL.IsAboveL` | src/asyd/core/monocypher.c:1586-1596 | decides x >= L from the final borrow |
| `ModL.RemoveL` | src/asyd/core/monocypher.c:1602-1612 | subtracts L once exactly when x >= L, without a branch, also in place |
| `ModL.Barrett` | src/asyd/core/monocypher.c:1614-1656 | the quotient estimate leaves a remainder below 2 L, for every 512-bit x |
| `ModL.Estimate` | src/asyd/core/monocypher.c:1616-1630 | the 9 by 16 word product gives the estimate exactly |
| `ModL.TruncatedProduct` | src/asyd/core/monocypher.c:1631-1643 | the low 256 bits of the product with L, dropping what is above |
| `ModL.SubtractMultiple` | src/asyd/core/monocypher.c:1631-1650 | the truncated product and two's-complement subtraction lose nothing: what is left is the exact x - q * L |
| `ModL.Reduce` | src/asyd/core/monocypher.c:1614-1656 | mod_l returns x mod L for every 512-bit x |
| `ModL.GroupOrder` | src/asyd/core/monocypher.c:1564-1622 | L is 2^252 + 27742317777372353535851937790883648493, and R is 2^512 / L rounded down |
| `Blake2b.OffsetCarries` | src/asyd/core/monocypher.c:478-484 | the two offset words count bytes modulo 2^128 |
| `Blake2b.Context.Init` | src/asyd/core/monocypher.c:530-556 | initial chain and a zeroed buffer |
| `Blake2b.IvIsRoots` | src/asyd/core/monocypher.c:454-459 | the initial words are the first 64 bits behind the point of the square roots of the first eight primes |
| `Blake2b.ParameterBlock` | src/asyd/core/monocypher.c:530-535 | the first word is changed by the parameter block of section 2.5 of RFC 7693: digest length, no key, fanout and depth 1 |
| `Blake2b.CounterWords` | src/asyd/core/monocypher.c:478-484 | the two counter words stand for the number of bytes modulo 2^128 |
| `LongWords.PutByte` | src/asyd/core/monocypher.c:570-577 | or-ing a shifted byte into a word whose remaining bytes are zero puts it at that byte and changes no other |
| `Blake2b.Context.Compress` | src/asyd/core/monocypher.c:478-528 | advances the offset, then applies the compression parameter with the given last-block flag |
| `Blake2b.Context.Update` | src/asyd/core/monocypher.c:558-624 | for every cut into calls the context is a function of the concatenation: buffer tail zero, last block not compressed early, offset counts compressed bytes |
| `Blake2b.Output` | src/asyd/core/monocypher.c:629-634 | the word loop and the byte loop write the first bytes of the chaining value |
| `Blake2b.Context.Final` | src/asyd/core/monocypher.c:626-636 | the hash of section 3.3 of RFC 7693 of everything absorbed, cut to the hash size |
| `Blake2b.HashIsLoop` | src/asyd/core/monocypher.c:558-636 | the hash is what the loop of section 3.3 of RFC 7693 ends with, for any sequence of chaining values that follows it: each block with the count up to its end, the last filled with zeroes, with the length and the flag |
| `Blake2b.ChainedPrefix` | src/asyd/core/monocypher.c:558-624 | appending bytes does not change the chain of the blocks before |
| `Hmac.OneShot` | src/asyd/core/monocypher.c:648-651 | the hash of one message |
| `Hmac.HmacBlake2b` | src/asyd/core/crypto_utils.c:17-55 | HMAC of section 2 of RFC 2104 over BLAKE2b, keys longer than a block hashed first |
| `Hmac.DigestIsHmac` | src/asyd/core/crypto_utils.c:17-55 | section 2 of RFC 2104 byte by byte: the filled key under bytes 36 inside and under bytes 5c outside |
| `ChaCha20.WholeBlock` | src/asyd/core/monocypher.c:230-248 | the word loop covers 64 bytes with the key stream |
| `ChaCha20.PartialBlock` | src/asyd/core/monocypher.c:254-270 | the last block, shorter than 64 bytes, goes through a temporary block |
| `ChaCha20.IncrementAdvances` | src/asyd/core/monocypher.c:249-252 | incrementing word 12 with a carry into word 13 is adding one to the 64-bit counter |
| `ChaCha20.Djb` | src/asyd/core/monocypher.c:219-276 | the stream of section 2.4 of RFC 8439 for every length, and the counter for the next block |
| `ChaCha20.StreamAt` | src/asyd/core/monocypher.c:219-276 | byte p of the stream is byte p of the text under byte p mod 64 of block p / 64 |
| `ChaCha20.BlockBytes` | src/asyd/core/monocypher.c:230-248 | a key stream byte is a digit of the sum, modulo 2^32, of a word after the rounds and its input word |
| `ChaCha20.Sigma` | src/asyd/core/monocypher.c:202-210 | the four constant words are the text expand 32-byte k |
| `ChaCha20.InputLayout` | src/asyd/core/monocypher.c:219-228 | eight words of key, two of counter, two of nonce, all low byte first |
| `ChaCha20.StreamTwice` | src/asyd/core/monocypher.c:219-276 | streaming twice from one counter restores the text |
| `ChaCha20.StreamConcat` | src/asyd/core/monocypher.c:219-276 | a text cut at a block boundary can be streamed in two calls with the returned counter |
| `Aead.PadIsGap` | src/asyd/core/monocypher.c:87-90 | gap(n, 16) is the number of zero bytes to the next multiple of 16 |
| `Aead.LockAuth` | src/asyd/core/monocypher.c:2858-2873 | five updates give the one-shot authenticator of the padded string of section 2.8 of RFC 8439 |
| `Aead.AuthLayout` | src/asyd/core/monocypher.c:2858-2873 | both texts start at multiples of 16 with zeroes behind, then the length of the additional data and that of the text, eight bytes each, low byte first |
| `Aead.Context.constructor` | src/asyd/core/monocypher.c:2891-2897 | the first four nonce bytes become the high half of the counter |
| `Aead.IetfBlocks` | src/asyd/core/monocypher.c:2891-2897 | the state matches section 2.3 of RFC 8439 for block numbers below 2^32 and no longer at 2^32 |
| `Aead.Context.Write` | src/asyd/core/monocypher.c:2899-2910 | seals and rekeys |
| `Aead.Context.Read` | src/asyd/core/monocypher.c:2912-2929 | opens and rekeys, or refuses and changes nothing |
| `Aead.OpenInvertsSeal` | src/asyd/core/monocypher.c:2899-2929 | for all lengths a reader in the state of the writer accepts exactly what the writer produces and ends in its state |
| `Aead.SealIsRfc` | src/asyd/core/monocypher.c:2891-2910 | for every message below 2^32 - 1 blocks: the text lies under the blocks of section 2.3 of RFC 8439 from number 1 on, the tag is keyed with the first half of block 0, the second half is the next key |
| `Noise.DecryptInvertsEncrypt` | src/asyd/core/noise_ik.c:72-124 | a ciphertext decrypts to p if and only if it is the encryption of p under the same key, counter and associated data |
| `Party.HashStep` | src/asyd/core/noise_ik.c:28-36 | h becomes the hash of h and the data |
| `Party.KeyStep` | src/asyd/core/noise_ik.c:45-65 | two-output HKDF |
| `Party.NoiseIKState.Init` | src/asyd/core/noise_ik.c:204-221 | initial state of either role; the pre-message is the static key of the server |
| `Party.NoiseIKState.EncryptAndHash` | src/asyd/core/noise_ik.c:72-90 | encrypts under h and mixes the ciphertext |
| `Party.NoiseIKState.DecryptAndHash` | src/asyd/core/noise_ik.c:97-124 | decrypts under the old h; the ciphertext is mixed either way |
| `Party.NoiseIKState.DoWriteMsg1` | src/asyd/core/noise_ik.c:335-373 | the first message and the state after it |
| `Party.NoiseIKState.DoReadMsg1` | src/asyd/core/noise_ik.c:223-266 | the state after reading, including the partial states left by a failure |
| `Party.NoiseIKState.DoWriteMsg2` | src/asyd/core/noise_ik.c:268-311 | the second message, transport keys derived |
| `Party.NoiseIKState.DoReadMsg2` | src/asyd/core/noise_ik.c:375-419 | the client side of the same, errors included |
| `Party.NoiseIKState.DeriveTransport` | src/asyd/core/noise_ik.c:133-157 | split, the two keys assigned by role, counters zero |
| `Party.NoiseIKState.DoEncrypt` | src/asyd/core/noise_ik.c:423-444 | encrypts under the send counter and advances it modulo 2^64 |
| `Party.NoiseIKState.DoDecrypt` | src/asyd/core/noise_ik.c:446-471 | advances the receive counter only on success |
| `NoisePattern.Initialised` | src/asyd/core/noise_ik.c:163-221 | the protocol name filled with zeroes, the empty prologue, the static key of the server as pre-message |
| `NoisePattern.FirstWritten` | src/asyd/core/noise_ik.c:335-373 | the first message is tokens e, es, s, ss of pattern IK and an empty payload, worked off as section 5.3 of the Noise framework says |
| `NoisePattern.FirstRead` | src/asyd/core/noise_ik.c:223-266 | the server accepts exactly what those tokens read, and ends in their state |
| `NoisePattern.FirstReadFails` | src/asyd/core/noise_ik.c:223-266 | a failed read leaves the keys mixed so far and the unopened ciphertext in the hash |
| `NoisePattern.SecondWritten` | src/asyd/core/noise_ik.c:268-311 | the second message is tokens e, ee, se and an empty payload |
| `NoisePattern.SecondRead` | src/asyd/core/noise_ik.c:375-419 | the client accepts exactly what those tokens read, and ends in their state |
| `NoisePattern.SecondReadFails` | src/asyd/core/noise_ik.c:375-419 | a failed second read leaves no transport keys |
| `NoisePattern.SplitKeys` | src/asyd/core/noise_ik.c:126-157 | the client sends with the first output of the key derivation and receives with the second, the server the other way |
| `NoisePattern.EphemeralNumber` | src/asyd/core/noise_ik.c:184-200 | the ephemeral key is the random bytes as a clamped scalar |
| `NoisePattern.PacketBytes` | src/asyd/core/noise_ik.c:423-471 | a packet byte by byte: key stream from block 1 on for the nonce of four zero bytes and the counter, then the tag |
| `Noise.Message1Agrees` | src/asyd/core/noise_ik.c:223-373 | the first message is accepted, yields the static key of the client, and leaves equal h and ck |
| `Noise.Message2Agrees` | src/asyd/core/noise_ik.c:268-419 | the second message is accepted and leaves equal h and ck and mirrored transport keys |
| `Noise.HandshakeAgrees` | src/asyd/core/noise_ik.c:204-419 | with matching static pairs and commuting Diffie-Hellman all four functions succeed, h and ck agree after each message, the server learns the static key of the client, and both parties hold, for each direction, the key derived for it from the final chaining key |
| `Transport.RunKeeps` | src/asyd/core/noise_ik.c:423-471 | every interleaving of sends, in-order deliveries and rejected ciphertexts keeps both directions in step |
| `Transport.DeliveredInOrder` | src/asyd/core/noise_ik.c:423-471 | what is delivered is a prefix of what was sent, and the counters are the numbers of successful operations modulo 2^64 |
| `Transport.UsedCounts` | src/asyd/core/noise_ik.c:423-444 | the i-th encryption of a party in a run is under its one key and the i-th counter value |
| `Transport.NoncesDistinct` | src/asyd/core/noise_ik.c:423-444 | in every run, by either party and from any counter value, no pair of key and encoded nonce serves two encryptions fewer than 2^64 apart; at distance 2^64 it always does |
| `Apdu.ParsePrint` | src/asyd/core/apdu_parser.c:57-143 | parsing undoes printing for every well-formed frame, whatever follows |
| `Apdu.ReadyIsPrinted` | src/asyd/core/apdu_parser.c:57-143 | a ready frame is well formed and is exactly the bytes it occupies |
| `Apdu.VerdictStable` | src/asyd/core/apdu_parser.c:57-143 | ready and error verdicts survive appended bytes |
| `Apdu.LengthNeverFails` | src/asyd/core/apdu_parser.c:100-114 | the length error is unreachable, and an incomplete frame leaves room in the buffer |
| `Apdu.VerdictTable` | src/asyd/core/apdu_parser.c:57-143 | the verdict and every field of the frame for any bytes, from the bits of the class byte and the lengths in network byte order |
| `Apdu.LargestFrame` | src/asyd/core/apdu_parser.c:100-114 | the buffer is exactly the size of the largest frame |
| `Apdu.DrainPrintAll` | src/asyd/core/apdu_parser.c:57-159 | repeated parse and consume recovers any list of well-formed frames and stops at the first other verdict |
| `Apdu.DrainStartsWith` | src/asyd/core/apdu_parser.c:57-159 | printed frames followed by anything are drained first |
| `Apdu.DrainInTwo` | src/asyd/core/apdu_parser.c:57-159 | draining what has arrived and then the rest gives the same frames |
| `Apdu.FeedIsDrain` | src/asyd/core/apdu_parser.c:38-159 | feeding packets one by one gives the frames and the verdict of draining the whole input, for every byte string and every cut, errors included |
| `Apdu.AnyPackets` | src/asyd/core/apdu_parser.c:38-159 | any packetisation of a frame list is parsed back into exactly that list |
| `Apdu.Parser.Receive` | src/asyd/core/apdu_parser.c:38-47 | received bytes are appended to those held |
| `Apdu.Parser.Consume` | src/asyd/core/apdu_parser.c:147-159 | removes the frame and moves the rest to the front |
| `Auth.VerifyAuthTag` | src/asyd/core/auth_verify.c:14-64 | accepts exactly frames of 4 to 259 data bytes that carry the tag of their own contents |
| `Auth.AcceptsIs` | src/asyd/core/auth_verify.c:20-64 | the tag is the first half of an authenticator of class, instruction, parameters, low length byte, epoch and data field, in this order |
| `Auth.MacInputInjective` | src/asyd/core/auth_verify.c:20-54 | tag inputs are equal exactly when CLA, INS, P1, P2, epoch and data field are, truncated length byte included; the expected length is the one part left out |
| `Auth.PackUnpack` | examples/client_svc_restart.py:170-173 | packing the unpacked sequence number restores its bytes |
| `ByteStrings.NetworkOrder` | src/asyd/core/auth_verify.c:20-54 | 32-bit numbers are read and written most significant byte first |
| `Auth.ClientFrameAccepted` | examples/client_svc_restart.py:150-176 | every standard frame the client builds is parsed as meant and, if signed, accepted under the same key and epoch |
| `TaskPool.MakeHandle` | src/asyd/core/task_pool.c:36-39 | the session is the high half, and the low half is never zero |
| `TaskPool.AllocFills` | src/asyd/core/task_pool.c:32-50 | the first empty slot gets the child, the session, the name, the time and a handle with the session in its high half; no other slot changes |
| `TaskPool.PendingFound` | src/asyd/core/task_pool.c:52-62 | the handle of the first pending slot of session and service, 0 if there is none |
| `TaskPool.HandleFound` | src/asyd/core/task_pool.c:64-79 | the first slot in use with the handle, if the high half is the session |
| `TaskPool.ExitUpdates` | src/asyd/core/task_pool.c:92-101 | the first pending slot of the child that exited gets the result, and nothing else changes |
| `TaskPool.SweptByAge` | src/asyd/core/task_pool.c:123-140 | more than 30 s after its allocation a pending slot times out and any other is cleared |
| `TaskPool.Pool.DoAvailable` | src/asyd/core/task_pool.c:24-30 | true if and only if some slot is empty |
| `TaskPool.Pool.DoAlloc` | src/asyd/core/task_pool.c:32-50 | fills the first empty slot with child, session, name, time and handle, as AllocFills spells out, or returns 0 |
| `TaskPool.Pool.DoFindPending` | src/asyd/core/task_pool.c:52-62 | the handle of the first pending slot of that session and service |
| `TaskPool.Pool.DoFindHandle` | src/asyd/core/task_pool.c:64-79 | the first live slot with that handle, if it belongs to the session |
| `TaskPool.Pool.DoFree` | src/asyd/core/task_pool.c:81-89 | clears the first slot with that handle |
| `TaskPool.Pool.DoUpdate` | src/asyd/core/task_pool.c:92-101 | changes the status of the first pending slot of that child |
| `TaskPool.Pool.DoRelease` | src/asyd/core/task_pool.c:103-121 | clears every live slot of the session and no other |
| `TaskPool.Pool.DoSweep` | src/asyd/core/task_pool.c:123-140 | over-age pending slots time out, other over-age slots are cleared |
| `Tasks.SvcNameValid` | src/asyd/handlers/svc_restart.c:57-71 | true exactly for 1 to 64 allowed characters that are not a name with the suffix |
| `Tasks.ValidNames` | src/asyd/handlers/svc_restart.c:57-71 | a valid name in terms of its characters and the suffix .service |
| `Tasks.HandlerSvcRestart` | src/asyd/handlers/svc_restart.c:73-136 | validate, sweep, reuse, check capacity, fork, allocate: the new pool, the reply and the fork, as RestartFills and RestartAnswers spell out |
| `Tasks.RestartFills` | src/asyd/handlers/svc_restart.c:110-135 | the slot filled holds the pid that fork returned, the session, the name and the time, and the reply is its handle in network byte order |
| `Tasks.RestartAnswers` | src/asyd/handlers/svc_restart.c:73-135 | every refusal with its status word, in the order of the checks |
| `Tasks.HandlerTaskQuery` | src/asyd/handlers/task_query.c:63-91 | sweep, look up, report, free a finished slot |
| `Tasks.QueryAnswers` | src/asyd/handlers/task_query.c:63-91 | 0 for pending, 1, 2 and 3 for success, failure and timeout, ff if the session has no such slot; a finished slot is cleared |
| `Tasks.LookupIsOwn` | src/asyd/core/task_pool.c:64-89 | a lookup never crosses sessions, and freeing by the reported handle clears the very slot reported |
| `Tasks.AllocKeeps` | src/asyd/core/task_pool.c:32-62 | allocating after a failed search keeps at most one pending slot per session and service |
| `Tasks.HandlersKeep` | src/asyd/handlers/svc_restart.c:94-135 | both handlers keep empty slots zero, handles owned and nonzero, and pending slots unique |
| `TaskRuns.RequestSweeps` | src/asyd/core/task_pool.c:123-140 | after any request that passes its checks no slot is pending past 30 s, and a slot within them is untouched unless filled, or reported and cleared |
| `TaskRuns.TwoSweeps` | src/asyd/core/task_pool.c:123-140 | two sweeps with no allocation between them empty every slot that was over age at the first |
| `TaskRuns.StepIsOps` | src/asyd/handlers/svc_restart.c:94-135 | the handlers do nothing to the pool beyond their pool operations |
| `TaskRuns.StepKeeps` | src/asyd/core/task_pool.c:33-122 | every event of every session, and every child exit, keeps the slots and the records sound |
| `TaskRuns.DeliveredIsReplied` | src/asyd/handlers/task_query.c:71-91 | a query answers 1, 2 or 3 exactly when it delivers a success, a failure or a timeout |
| `TaskRuns.EveryRun` | src/asyd/core/task_pool.c:33-122 | over all runs each allocation delivers at most one terminal status, and a success or failure, delivered or still held, had a matching exit, after the allocation, of the child recorded for it when it forked |
| `TaskRuns.BirthsAreForks` | src/asyd/handlers/svc_restart.c:110-135 | the children recorded are, in order, those that fork returned to the restarts of the run |
| `TaskRuns.Lifecycle` | src/asyd/core/task_pool.c:33-122 | under any event a slot moves Empty, Pending, finished, Empty in this order, or is cleared with its session |
| `TaskRuns.RestartTwice` | src/asyd/handlers/svc_restart.c:94-104 | a second restart of a pending service in its time to live forks nothing and returns the first handle |
| `Dispatcher.CapsAreHandlers` | src/asyd/core/dispatcher.c:22-57 | the bitmap lists exactly the instructions that have a handler, so 6D00 is never answered |
| `Dispatcher.Routed` | src/asyd/core/dispatcher.c:61-93 | where each instruction goes, and 6A81 for all others |
| `Dispatcher.RequestIs` | src/asyd/handlers/proc_throttle.c:45-81 | the process number behind the sequence number, in network byte order and as a signed 32-bit number; or the service named there |
| `Dispatcher.HandlerProcThrottle` | src/asyd/handlers/proc_throttle.c:45-81 | sends exactly the signal asked for, and each status word has one meaning: 9000 exactly when a signal was asked for and delivered |
| `Dispatcher.ThrottleAnswers` | src/asyd/handlers/proc_throttle.c:45-81 | the status word of every outcome, in the order of the checks |
| `Dispatcher.EffectExactly` | src/asyd/core/dispatcher.c:61-93 | a signal exactly when a signed, complete frame asks for one; a restart exactly when asked for, not pending, a slot free and the fork successful; nothing else |
| `Dispatcher.DispatchTo` | src/asyd/core/dispatcher.c:61-93 | routes to the handler, or refuses; new pool, reply and effect |
| `Session.Connection.constructor` | src/asyd/asyd.c:383-391 | empty context, epoch derived from the receive key |
| `Session.EpochIs` | src/asyd/asyd.c:383-391 | the first four bytes of the authenticator of asys-epoch-v1 under the receive key |
| `Session.Connection.SendSw` | src/asyd/asyd.c:249-258 | the encrypted status word with its length prefix |
| `Session.Connection.ServeFrame` | src/asyd/asyd.c:497-518 | record the number, dispatch, consume, encrypt the reply |
| `Session.Connection.JudgeHeld` | src/asyd/asyd.c:453-518 | every verdict and every refusal with its status word |
| `Session.Connection.HandlePacket` | src/asyd/asyd.c:432-519 | one turn of the packet loop: length checks, decryption, verdict; StaysOpen says when the loop goes on |
| `Session.HandleGates` | src/asyd/asyd.c:432-519 | one turn accounts for every byte, and a dispatched frame is plain, or verified with a number above the last |
| `Session.StaysOpen` | src/asyd/asyd.c:432-519 | exactly when the loop goes on: a packet of admissible length that fits and is the encryption of a text under the receive key and counter, after which more bytes are needed, or an admitted frame was answered |
| `Session.NothingDelivered` | src/asyd/asyd.c:432-452 | any other packet, or none, ends the loop with nothing dispatched, sent or changed |
| `Session.TurnAnswers` | src/asyd/asyd.c:453-518 | what goes on the wire, byte for byte: nothing, 6E00, 6700, 6982, 6985, or the reply and its status word, encrypted behind the length |
| `Session.ReplyLayout` | src/asyd/asyd.c:500-506 | the status word comes last, most significant byte first |
| `SessionRuns.PacketLoop` | src/asyd/asyd.c:432-526 | the loop and its clean-up, for any list of packets |
| `SessionRuns.TurnKeeps` | src/asyd/asyd.c:432-519 | dispatched frames and held bytes make up the plain text, and signed frames stay vouched for |
| `SessionRuns.StepKeeps` | src/asyd/asyd.c:353-540 | all sessions, packets in any interleaving, child exits, and connections that end before their loop and release the tasks of their id, keep the service sound |
| `SessionRuns.RunKeeps` | src/asyd/asyd.c:353-540 | every run of these events from a sound service ends in one |
| `SessionRuns.EveryEffectIsVouched` | src/asyd/asyd.c:475-502 | over every run each kill or fork was asked for by a dispatched frame whose tag verified in its own session, numbers nonzero and strictly increasing |
| `SessionRuns.SignedFramesRise` | src/asyd/asyd.c:475-502 | the same for every dispatched signed frame |
| `SessionRuns.NothingAfterRefusal` | src/asyd/asyd.c:475-498 | after a failed tag or a replayed number the session dispatches and causes nothing more |
| `SessionRuns.ClosedStays` | src/asyd/asyd.c:522-526 | a session that left its loop never changes again |
| `SessionRuns.DispatchedInOrder` | src/asyd/asyd.c:432-510 | the frames dispatched, then the complete ones waiting in the buffer, are what parsing all the plain text at once gives; none is missing exactly when the bytes held do not parse to a ready frame |
| `SessionRuns.OneFramePerPacket` | src/asyd/asyd.c:453-510 | a packet hands at most one frame to the dispatcher, the first one waiting, and all the others go on waiting |
| `SessionRuns.AtMostOneEach` | src/asyd/asyd.c:432-519 | over every run a session dispatches at most one frame for each packet that reached it |
| `SessionRuns.RoomRunsOut` | src/asyd/asyd.c:441-451 | a packet is refused for lack of room exactly when it and the bytes not yet dispatched exceed the buffer |
| `SessionRuns.EndReleases` | src/asyd/asyd.c:522-526 | no task slot of a session stays in use when it ends |
| `SessionRuns.NoTextEnds` | src/asyd/asyd.c:435-526 | a packet that delivers no text ends the session and releases its tasks and no others |
| `SessionRuns.TasksOfTheService` | src/asyd/asyd.c:353-540 | the pool of the service, releases by connections that never reach their loop included, is at all times that of a run of the pool alone, so at most one terminal status per allocation, and an exit of the very child that fork returned, after the allocation, behind each delivered success or failure, hold for the service |
| `Ownership.StepKeeps` | src/asyd/asyd.c:325-339 | with ids drawn from the counter, and handshakes that fail before or after the magic, every slot in use belongs to an open connection with its id |
| `Ownership.OwnTasksOnly` | src/asyd/core/task_pool.c:53-121 | a query, a pending restart found again, or the end of an open connection reaches only tasks whose owner has a number congruent modulo 65535 (a query by handle and the end: exactly these), hence only its own while no two connections that drew a number and have not ended are a multiple of 65535 apart |
| `Ownership.HandshakeEnds` | src/asyd/asyd.c:336-417 | a connection that ends before its loop clears exactly the tasks of owners with a congruent number, if it had sent the magic, and changes no slot while no two numbers at work are a multiple of 65535 apart |
| `Ownership.OthersUntouched` | src/asyd/asyd.c:500-526 | under the same condition a packet of one connection changes the task slot of another only as the sweep by age does |
| `SessionRuns.RequestServed` | examples/client_svc_restart.py:163-180 | a fresh request of the client is dispatched as built, its answer decrypts at the client, both ends stay in step |
| `SessionRuns.ConversationServed` | examples/client_svc_restart.py:163-180 | every list of requests with rising numbers is served in full |
| `SessionRuns.AfterHandshake` | src/asyd/asyd.c:365-519 | the same from the states a handshake leaves, whatever other sessions do to the pool |
| `Pools.SlotTable.Acquire` | src/asyd/core/apdu_parser.c:17-27 | takes the first entry not in use; also the client slots in asyd.c |
| `Pools.SessionCounter.Draw` | src/asyd/asyd.c:327-330 | hands out the counter, which wraps past zero to one |
| `Pools.IdsDistinct` | src/asyd/asyd.c:327-330 | ids are nonzero, any 65535 consecutive ones are distinct, the next repeats the first |
| `Pools.StepKeeps` | src/asyd/asyd.c:749-760 | accept, handshake, admission, end and hand-back keep parsers in one-to-one correspondence with live sessions |
| `Pools.AcquireNeverFails` | src/asyd/asyd.c:414-418 | in every interleaving no admitted session is refused a parser |
| `Pools.LiveIds` | src/asyd/asyd.c:327-330 | two threads share an id exactly when a multiple of 65535 sessions began between them |
| `Procs.InsertTop` | src/asyd/handlers/sys_procs.c:226-238 | the table becomes the best five of itself with the entry inserted |
| `Procs.BestInsert` | src/asyd/handlers/sys_procs.c:226-238 | cutting to five before inserting loses nothing |
| `Procs.RankedIsStableSort` | src/asyd/handlers/sys_procs.c:226-238 | inserting one by one gives a stable descending sort |
| `Procs.StableSortUnique` | src/asyd/handlers/sys_procs.c:226-238 | there is only one stable descending sort |
| `Procs.JoinHolds` | src/asyd/handlers/sys_procs.c:275-296 | the join holds exactly the processes in both snapshots with nonzero current time, with their clamped deltas |
| `Procs.JoinDistinct` | src/asyd/handlers/sys_procs.c:275-296 | no process appears twice if none does in the first snapshot |
| `Procs.JoinMeasures` | src/asyd/handlers/sys_procs.c:275-296 | each entry is a process of the first snapshot with its first occurrence in the second: time in between, never negative, and the memory and flags of the second |
| `Procs.BestIsFive` | src/asyd/handlers/sys_procs.c:226-238 | the table is the first five |
| `Procs.TopProcs` | src/asyd/handlers/sys_procs.c:270-299 | the table reported is the first five of the stable descending sort of the join |

## Left out

- FeToBytes: the two limb loops are written out limb by limb, in the order of the loop.
- IetfBlocks: block numbers above 2^32 are not compared, because RFC 8439 has no such blocks.
- HandshakeAgrees: commutativity of Diffie-Hellman is a hypothesis on the function parameter; the group law is not modelled.
- EveryRun: a child that exits before its slot is filled stays pending until it times out, as in the code; completeness of exit reporting is not claimed.
- ServeFrame: the replies of SYS_CAPS, SYS_HELLO, SYS_STATUS and SYS_PROCS are one arbitrary reply supplied from outside.
- PacketLoop: other sessions act between packets in the runs of SessionRuns, not inside the method; one packet is one atomic step.
- TopProcs: the reading of /proc and the scaling of the reported percentages are not modelled.
- Compress and rounds: the mixing rounds of BLAKE2b and of ChaCha20 are function parameters; buffering, counters, padding and finalisation around them are modelled.
- Data races: the task and parser pools carry no lock; each pool function, and the restart handler, counts as one atomic step.
- Uniqueness of task handles: the low half is 16 random bits, so theorems speak of allocations, not handles.
- Zero-copy pointers into the parser buffer are values; that a frame's bytes stay in place until consumed is not modelled.
- Wiping of memory, constant running time and the strength of the primitives.
- Sockets, timeouts, threads and signal delivery, key files, the whitelist file and its reload.
- The handshake driver before the packet loop (magic, plain-text greeting, whitelist test) beyond its effect on slots and session numbers and the release of tasks when it fails.
- Argon2, EdDSA, Elligator and the other parts of the cryptographic library that the daemon does not call, except reduction modulo the group order.
