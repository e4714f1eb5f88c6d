# vncpasswd in Dafny

A model of the DES core of the Go package `vncpasswd`, with proofs about it.
The package obfuscates VNC passwords under a fixed key and answers the VNC
Authentication challenge (section 7.2.2 of RFC 6143). It has two layers:

- `d3des.go`: the DES key schedule and the block cipher.
  - `deskey` selects the key bits with PC-1 and rotates each 28-bit half.
    It then assembles the 16 raw subkey pairs with PC-2 and places them in
    encryption or decryption order.
  - `cookey` repacks each pair so that every byte holds one 6-bit S-box index.
  - `desfunc` runs the bit-sliced initial permutation, 16 Feistel half-rounds
    over the combined S/P tables, the final permutation, and a big-endian store
    with the halves swapped.
- `func.go`: `GenerateResponse`, `Crypt` and `Decrypt`. Each pads or
  truncates its input to eight bytes and composes `deskey` with `desfunc`.

Files:

- `tables.dfy` (module `Tables`): the byte and word types and the constant
  tables. The tables are abstract (see "Left out"), so every result holds for
  any tables of the right shapes.
- `key_schedule.dfy` (module `KeySchedule`): `deskey` and `cookey`. They are
  methods over local sequences (Go's `[56]bool` and `[32]uint32` values). Each
  is proved equal to a pure specification (`ScheduleOf`, `Cooked`), and the
  lemmas about the schedule are stated over that specification.
- `cipher.dfy` (module `Cipher`): `desfunc`. The method `DesFunc` updates
  `leftt` and `right` phase by phase and is proved equal to `Transform`. The
  round loop `FeistelRounds` is proved against `Rounds`.
- `vnc.dfy` (module `Vnc`): the three functions of `func.go`, written as
  functions, and their properties.

Every table index in `deskey`, `cookey` and `desfunc` is checked in range as
part of verification. This relies on the facts the table types carry:
`pc1` entries are below 64, `pc2` entries below 56 and `totrot` entries at
most 28. The S/P indices are in range because of the `& 0x3f` mask.

`desfunc` panics on a block shorter than 8 bytes, and `GenerateResponse` on a
challenge shorter than 16 bytes; these are preconditions here. Bytes past the
8th of a block, or past the 16th of a challenge, are ignored (see
`TransformUsesEightBytes` and `ResponseChallengeTruncated`).

## Model

| member | source | states |
|---|---|---|
| KeySchedule.SelectKeyBits | d3des.go:22-30 | bit j of `pc1m` is key bit `pc1[j]`, read as `key[l>>3] & bytebit[l&7] != 0` |
| KeySchedule.RotateKeyBits | d3des.go:41-56 | `pcr` is the rotated vector of the round: index j takes `pc1m[j + r]` or, past the end of its half, `pc1m[j + r - 28]` |
| KeySchedule.RotatedHalves | d3des.go:41-56 | the rotated vector is the first 28 bits rotated left by r followed by the last 28 bits rotated left by r; no bit crosses between halves |
| KeySchedule.SelectRoundKey | d3des.go:57-64 | the two words are the OR of `bigbyte[j]` over the j whose PC-2 selected bit `pcr[pc2[j]]`, resp. `pcr[pc2[j+24]]`, is set |
| KeySchedule.GatherWithinSelected | d3des.go:57-64 | the word holds nothing but selected weights: a mask disjoint from `bigbyte[t]` for every t whose selected bit is set is disjoint from the whole word |
| KeySchedule.GatherHasSelected | d3des.go:58-63 | every set selected bit's weight `bigbyte[t]` is fully present in the assembled word |
| KeySchedule.SlotsPartition | d3des.go:32-40 | round i writes pair position i (encrypt) or 15 - i (decrypt); each pair position is written by exactly one round |
| KeySchedule.PlaceRound | d3des.go:32-64 | a round clears and fills only its own two slots; afterwards the slots of all rounds so far hold their raw pairs and every other slot still holds 0 |
| KeySchedule.FilledAll | d3des.go:65-67 | after all 16 rounds the slots hold exactly the raw schedule |
| KeySchedule.DesKey | d3des.go:18-68 | the returned schedule is `ScheduleOf(key, decrypt)`: the cooked raw pair of round i at slots 2i, 2i+1 (encrypt) or 2(15-i), 2(15-i)+1 (decrypt) |
| KeySchedule.CookPair | d3des.go:78-86 | every cooked word satisfies `w & 0xc0c0c0c0 == 0`: each byte holds one 6-bit field |
| KeySchedule.CookedMask | d3des.go:67-88 | every word of the schedule `deskey` returns satisfies `w & 0xc0c0c0c0 == 0`, in both modes |
| KeySchedule.CookPairLossless | d3des.go:76-88 | gathering the fields back recovers the low 24 bits of both raw words, so the repacking loses no subkey bit |
| KeySchedule.CookWords | d3des.go:77-87 | the field-by-field statements compute exactly the cooked pair of the raw pair |
| KeySchedule.CooKey | d3des.go:75-91 | output pair j is the cooked pair of input pair j alone, for all 16 pairs |
| KeySchedule.SchedulePairs | d3des.go:32-40 | pair position j of the schedule holds the cooked pair of round j (encrypt) or of round 15 - j (decrypt) |
| KeySchedule.ScheduleRoundKeys | d3des.go:32-40 | both modes hold the same 16 cooked round pairs, in round order when encrypting and in reverse order when decrypting |
| KeySchedule.DecryptScheduleReversed | d3des.go:34-38 | the decrypt schedule's pairs are the encrypt schedule's pairs reversed, and the other way round |
| KeySchedule.ScheduleModes | d3des.go:34-38 | `dk[2(15-i)+b] == ek[2i+b]` for b in {0,1} and every round i, after `cookey` |
| Cipher.LoadBigEndian | d3des.go:108-109 | `binary.BigEndian.Uint32`: byte 0 in bits 24-31 down to byte 3 in bits 0-7 |
| Cipher.StoreBigEndian | d3des.go:178-180 | `binary.BigEndian.PutUint32`: four bytes, most significant first |
| Cipher.StoreLoad | d3des.go:108-109 | loading four bytes big-endian and storing the word gives back the four bytes |
| Cipher.LoadStore | d3des.go:178-180 | storing a word big-endian and loading it back gives back the word |
| Cipher.RotationsInverse | d3des.go:157-161 | the one-bit right rotations of the final permutation undo the one-bit left rotations of the initial permutation, and vice versa |
| Cipher.ExchangesInvolutive | d3des.go:111-126 | each mask/shift/XOR exchange (shifts 4, 16, 2, 8 and the `0xaaaaaaaa` odd-bit exchange) undoes itself |
| Cipher.InitialPermutation | d3des.go:111-127 | the initial permutation, one binding per Go statement: four mask/shift/XOR exchanges, a left rotation of `right`, the `0xaaaaaaaa` exchange, a left rotation of `leftt` |
| Cipher.FinalPermutation | d3des.go:157-176 | the final permutation, one binding per Go statement: the same steps in reverse order with right rotations, then the `& 0xffffffff` of both halves |
| Cipher.FinalUndoesInitial | d3des.go:157-176 | the final permutation applied to the initial permutation's output with halves exchanged gives back the input with halves exchanged |
| Cipher.InitialUndoesFinal | d3des.go:111-127 | the initial permutation applied to the final permutation's output with halves exchanged gives back the input with halves exchanged |
| Cipher.F | d3des.go:130-140 | the round function: the rotated half XOR the even subkey word indexes `sp7`, `sp5`, `sp3`, `sp1` by its four 6-bit fields; the half XOR the odd word indexes `sp8`, `sp6`, `sp4`, `sp2`; the eight entries are OR-ed |
| Cipher.HalfRound | d3des.go:130-153 | one half-round: `leftt ^= fval` (lines 130-141) or `right ^= fval` (lines 142-153), as `a ^ F(b, k)` |
| Cipher.Rounds | d3des.go:129-155 | the 16 half-rounds over the schedule's pairs in order, the half updated next always in `leftt` |
| Cipher.HalfRoundUndo | d3des.go:130-141 | a half-round `a ^= F(b, k)` repeated with the same other half and pair gives back `a` |
| Cipher.StepUndo | d3des.go:129-155 | a half-round is undone by the same half-round on the exchanged halves |
| Cipher.RoundsReversed | d3des.go:129-155 | running the half-rounds with the pairs in reverse order on the exchanged result gives back the exchanged input, whatever the S/P tables |
| Cipher.FeistelRounds | d3des.go:129-155 | the round loop, four words per iteration, leaves (`leftt`, `right`) equal to the 16 half-rounds over the schedule's pairs in order |
| Cipher.Transform | d3des.go:178-181 | `desfunc` always returns exactly 8 bytes |
| Cipher.TransformUsesEightBytes | d3des.go:108-109 | bytes of the block past the eighth do not affect the result |
| Cipher.DesFunc | d3des.go:106-182 | the result is `Transform(block, keys)`: IP, the 16 half-rounds, FP, then `right` and `leftt` stored big-endian |
| Cipher.TransformRoundTrip | d3des.go:129-155 | a schedule whose pairs are another's in reverse order decrypts what that one encrypts, giving back the first eight bytes of the block |
| Cipher.EncryptThenDecrypt | vncpasswd_test.go:57-59 | `desfunc(desfunc(b, deskey(k, false)), deskey(k, true))` is the block b, for every key k |
| Cipher.DecryptThenEncrypt | vncpasswd_test.go:60-62 | `desfunc(desfunc(b, deskey(k, true)), deskey(k, false))` is the block b, for every key k |
| Vnc.ZeroPadded | func.go:29-30 | Go's `copy` into a zeroed n-byte buffer: n bytes, byte i is `src[i]` when i < len(src) and 0 otherwise |
| Vnc.ZeroPaddedTruncates | func.go:48-49 | bytes past the n-th never reach the buffer |
| Vnc.GenerateResponse | func.go:28-33 | the response always has 16 bytes |
| Vnc.ResponseFirstHalf | func.go:31-32 | response bytes 0..8 are challenge bytes 0..8 encrypted under the encrypt schedule of the padded password |
| Vnc.ResponseSecondHalf | func.go:31-32 | response bytes 8..16 are challenge bytes 8..16 encrypted under the same schedule |
| Vnc.ResponseHalves | func.go:28-33 | both halves of the response, as the two rows above |
| Vnc.ResponseHalvesIndependent | func.go:32 | changing one half of the challenge never changes the other half of the response |
| Vnc.ResponseChallengeTruncated | func.go:32 | only the first 16 bytes of the challenge matter |
| Vnc.ResponsePasswordTruncated | func.go:29-30 | only the first 8 bytes of the password matter |
| Vnc.ResponseFirstHalfDecrypts | func.go:28-33 | the first response half decrypts under the password's decrypt schedule to the first challenge half |
| Vnc.ResponseSecondHalfDecrypts | func.go:28-33 | the second response half decrypts under the password's decrypt schedule to the second challenge half |
| Vnc.ResponseDecrypts | func.go:28-33 | decrypting both halves of the response gives back the first 16 bytes of the challenge |
| Vnc.Crypt | func.go:47-53 | the stored password always has 8 bytes |
| Vnc.Decrypt | func.go:68-71 | the decrypted value always has 8 bytes |
| Vnc.DecryptCrypt | func.go:66-71 | `Decrypt(Crypt(p))` is p truncated to 8 bytes and padded with trailing zero bytes |
| Vnc.CryptDecrypt | func.go:47-53 | `Crypt(Decrypt(v))` is the first 8 bytes of v |
| Vnc.CryptTruncates | func.go:47-52 | `Crypt(p) == Crypt(p[..8])` for a password of 8 bytes or more |
| Vnc.CryptPads | func.go:47-52 | a shorter password is stored as the password followed by zero bytes |
| Vnc.CryptIgnoresSuffix | func.go:38-39 | bytes appended after the eighth never change the stored password |
| Vnc.CryptLongPasswordExample | func.go:38-39 | "password1234" and "password" are stored identically |

## Left out

- Table values: `pc1`, `pc2`, `totrot`, `bytebit`, `bigbyte`, `sp1`-`sp8` and `vnckey` are defined in a file that is not part of this model. They are abstract constants with only their lengths and index ranges.
- Known-answer vectors: the golden schedules and the `6e09a37726dd560c` ciphertext (vncpasswd_test.go:10-32, 54) depend on the table values, so they are not stated.
- Test scaffolding: hex decoding and error counting in vncpasswd_test.go.
- File and network I/O: reading `~/.vnc/passwd` (func.go:63-64) and the RFB transport.
- Go strings: `string` and `[]byte` conversions are byte sequences; no UTF-8 handling.
- Slice panics: `desfunc` on fewer than 8 bytes, `GenerateResponse` on a challenge under 16 bytes and `Decrypt` on fewer than 8 bytes are preconditions, not runtime errors.
- Cipher.DesFunc: the `work` and `fval` temporaries of the permutations and of the round function are let-bindings in the functions `InitialPermutation`, `FinalPermutation` and `F`. They are not statements of the method, because the solver cannot check them at acceptable cost as reassigned locals. The method updates `leftt` and `right` phase by phase.
- Cipher.FeistelRounds: each half-round is a call of `HalfRound` (`F` of the other half, XOR-ed in) rather than the eight separate `fval |=` statements, for the same reason.
- KeySchedule.SelectRoundKey: `kn[m] |= bigbyte[j]` is the helper function `WithWeight`, for the same reason.
- In-place update: Go's `[56]bool` and `[32]uint32` arrays are values, so they are sequences that the methods reassign. Nothing can alias them.
- Non-functional claims: cryptographic strength, constant-time behaviour and concurrency safety are not modelled.
