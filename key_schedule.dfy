/** The DES key schedule of d3des.go: `deskey` selects and rotates the key
    bits and assembles 16 raw subkey pairs, which `cookey` repacks so that each
    byte of a subkey word holds one 6-bit S-box index field. */
module KeySchedule {
  import opened Tables

  /** A key schedule, Go's `[32]uint32`: 16 rounds, two words per round. */
  type Schedule = s: seq<Word> | |s| == 32 witness seq(32, _ => 0)

  /** The subkey pair a round of the cipher uses: the words at an even slot
      and at the odd slot after it. */
  datatype RoundKey = RoundKey(even: Word, odd: Word)

  /** The schedule read as its 16 round pairs, in the order the cipher uses them. */
  function RoundKeys(ks: Schedule): (pairs: seq<RoundKey>)
    ensures |pairs| == 16
  {
    seq(16, j requires 0 <= j < 16 => RoundKey(ks[2 * j], ks[2 * j + 1]))
  }

  /** The schedule that holds the given 16 round pairs. */
  function FromRoundKeys(pairs: seq<RoundKey>): Schedule
    requires |pairs| == 16
  {
    seq(32, s requires 0 <= s < 32 => if s % 2 == 0 then pairs[s / 2].even else pairs[s / 2].odd)
  }

  lemma RoundKeysOfFrom(pairs: seq<RoundKey>)
    requires |pairs| == 16
    ensures RoundKeys(FromRoundKeys(pairs)) == pairs
  {
    forall j | 0 <= j < 16 ensures RoundKeys(FromRoundKeys(pairs))[j] == pairs[j] {
      assert (2 * j) / 2 == j && (2 * j) % 2 == 0;
      assert (2 * j + 1) / 2 == j && (2 * j + 1) % 2 == 1;
    }
  }

  lemma FromRoundKeysOf(ks: Schedule)
    ensures FromRoundKeys(RoundKeys(ks)) == ks
  {
    forall s | 0 <= s < 32 ensures FromRoundKeys(RoundKeys(ks))[s] == ks[s] {
      var j, b := s / 2, s % 2;
      assert s == 2 * j + b;
    }
  }

  function Reverse<T>(s: seq<T>): (r: seq<T>)
    ensures |r| == |s|
    ensures forall i :: 0 <= i < |s| ==> r[i] == s[|s| - 1 - i]
  {
    if s == [] then [] else Reverse(s[1..]) + [s[0]]
  }

  lemma {:induction false} ReverseReverse<T>(s: seq<T>)
    ensures Reverse(Reverse(s)) == s
  {
    var r := Reverse(Reverse(s));
    assert |r| == |s|;
    forall i | 0 <= i < |s| ensures r[i] == s[i] {
      assert Reverse(s)[|s| - 1 - i] == s[i];
    }
  }

  // ---------------------------------------------------------------------
  // Permuted choice 1 and the per-round rotation
  // ---------------------------------------------------------------------

  /** Key bit `l` (0 <= l < 64) as the code tests it: byte `l >> 3` masked with
      `ByteBit[l & 7]`. */
  predicate KeyBit(key: Key, l: nat)
    requires l < 64
  {
    key[l / 8] & ByteBit[l % 8] != 0
  }

  /** The 56-bit working vector `pc1m`: bit j is key bit `PC1[j]`. */
  function PermutedChoice1(key: Key): (bits: seq<bool>)
    ensures |bits| == 56
  {
    seq(56, j requires 0 <= j < 56 => KeyBit(key, PC1[j]))
  }

  /** The rotated vector `pcr` of a round whose cumulative rotation is `r`,
      index by index as the code computes it. */
  function Rotated(bits: seq<bool>, r: nat): (pcr: seq<bool>)
    requires |bits| == 56 && r <= 28
    ensures |pcr| == 56
  {
    seq(56, j requires 0 <= j < 56 =>
      if j < 28 then
        (if j + r < 28 then bits[j + r] else bits[j + r - 28])
      else
        (if j + r < 56 then bits[j + r] else bits[j + r - 28]))
  }

  /** Left rotation of a bit string by r places. */
  function RotateLeft(s: seq<bool>, r: nat): seq<bool>
    requires r <= |s|
  {
    s[r..] + s[..r]
  }

  /** Each 28-bit half of the working vector is rotated on its own: no bit
      ever moves from one half into the other. */
  lemma RotatedHalves(bits: seq<bool>, r: nat)
    requires |bits| == 56 && r <= 28
    ensures Rotated(bits, r) == RotateLeft(bits[..28], r) + RotateLeft(bits[28..], r)
  {
    var lo, hi := RotateLeft(bits[..28], r), RotateLeft(bits[28..], r);
    forall j | 0 <= j < 56 ensures Rotated(bits, r)[j] == (lo + hi)[j] {
      if j < 28 {
        assert (lo + hi)[j] == lo[j];
      } else {
        assert (lo + hi)[j] == hi[j - 28];
      }
    }
  }

  // ---------------------------------------------------------------------
  // Permuted choice 2: assembling the raw subkey words
  // ---------------------------------------------------------------------

  /** Go's `kn[m] |= bigbyte[t]`: the weight of selected position t OR-ed
      into a raw subkey word. */
  function WithWeight(w: Word, t: nat): Word
    requires t < 24
  {
    w | BigByte[t]
  }

  /** The OR of `BigByte[t]` over every t < n whose PC-2 selected bit
      `pcr[PC2[off + t]]` is set. */
  function Gather(pcr: seq<bool>, off: nat, n: nat): Word
    requires |pcr| == 56 && off + n <= 48 && n <= 24
  {
    if n == 0 then 0
    else if pcr[PC2[off + n - 1]] then WithWeight(Gather(pcr, off, n - 1), n - 1)
    else Gather(pcr, off, n - 1)
  }

  /** Every selected bit that is set contributes its whole weight to the word. */
  lemma {:induction false} GatherHasSelected(pcr: seq<bool>, off: nat, n: nat, t: nat)
    requires |pcr| == 56 && off + n <= 48 && n <= 24 && t < n
    requires pcr[PC2[off + t]]
    ensures Gather(pcr, off, n) & BigByte[t] == BigByte[t]
  {
    if t < n - 1 {
      GatherHasSelected(pcr, off, n - 1, t);
    }
  }

  /** One more selected position keeps the word outside a mask when its
      weight, if selected, is outside that mask. */
  lemma GatherStepOutsideMask(pcr: seq<bool>, off: nat, n: nat, m: Word)
    requires |pcr| == 56 && off + n < 48 && n < 24
    requires Gather(pcr, off, n) & m == 0
    requires pcr[PC2[off + n]] ==> BigByte[n] & m == 0
    ensures Gather(pcr, off, n + 1) & m == 0
  {
    var g := Gather(pcr, off, n);
    if pcr[PC2[off + n]] {
      assert Gather(pcr, off, n + 1) == g | BigByte[n];
      assert (g | BigByte[n]) & m == (g & m) | (BigByte[n] & m);
    }
  }

  /** Conversely, the word holds nothing but selected weights: a mask disjoint
      from the weight `BigByte[t]` of every set selected bit is disjoint from
      the whole word. */
  lemma {:induction false} GatherWithinSelected(pcr: seq<bool>, off: nat, n: nat, m: Word)
    requires |pcr| == 56 && off + n <= 48 && n <= 24
    requires forall t :: 0 <= t < n && pcr[PC2[off + t]] ==> BigByte[t] & m == 0
    ensures Gather(pcr, off, n) & m == 0
  {
    if n > 0 {
      GatherWithinSelected(pcr, off, n - 1, m);
      GatherStepOutsideMask(pcr, off, n - 1, m);
    }
  }

  /** The raw pair of round i, before `cookey`: the first word from PC-2
      positions 0..24, the second from positions 24..48. */
  function RawRoundKey(key: Key, i: nat): RoundKey
    requires i < 16
  {
    var pcr := Rotated(PermutedChoice1(key), TotRot[i]);
    RoundKey(Gather(pcr, 0, 24), Gather(pcr, 24, 24))
  }

  /** The round pair position round i is stored at: slots `2 * Slot(i)` and
      `2 * Slot(i) + 1` (d3des.go:34-39). */
  function Slot(i: nat, decrypt: bool): nat
    requires i < 16
  {
    if decrypt then 15 - i else i
  }

  /** The round whose pair is stored at pair position j. */
  function RoundAt(j: nat, decrypt: bool): nat
    requires j < 16
  {
    if decrypt then 15 - j else j
  }

  /** Every pair position is written by exactly one round. */
  lemma SlotsPartition(decrypt: bool, i: nat, j: nat)
    requires i < 16 && j < 16
    ensures Slot(i, decrypt) < 16 && RoundAt(Slot(i, decrypt), decrypt) == i
    ensures RoundAt(j, decrypt) == i <==> j == Slot(i, decrypt)
  {
  }

  /** The round pairs before `cookey`, in slot order. */
  function RawRoundKeys(key: Key, decrypt: bool): (pairs: seq<RoundKey>)
    ensures |pairs| == 16
  {
    seq(16, j requires 0 <= j < 16 => RawRoundKey(key, RoundAt(j, decrypt)))
  }

  /** The schedule before `cookey`. */
  function RawSchedule(key: Key, decrypt: bool): Schedule
  {
    FromRoundKeys(RawRoundKeys(key, decrypt))
  }

  // ---------------------------------------------------------------------
  // cookey
  // ---------------------------------------------------------------------

  /** The repacking of one raw pair: the four 6-bit fields of the 24 low bits
      of each raw word are spread over the bytes of the two output words. */
  function CookPair(raw0: Word, raw1: Word): (k: RoundKey)
    ensures k.even & 0xc0c0c0c0 == 0 && k.odd & 0xc0c0c0c0 == 0
  {
    RoundKey(((raw0 & 0x00fc0000) << 6) | ((raw0 & 0x00000fc0) << 10)
       | ((raw1 & 0x00fc0000) >> 10) | ((raw1 & 0x00000fc0) >> 6),
     ((raw0 & 0x0003f000) << 12) | ((raw0 & 0x0000003f) << 16)
       | ((raw1 & 0x0003f000) >> 4) | (raw1 & 0x0000003f))
  }

  /** Gathers the 6-bit fields of a cooked pair back into two 24-bit raw words. */
  function UncookPair(k: RoundKey): RoundKey
  {
    RoundKey(((k.even >> 6) & 0x00fc0000) | ((k.even >> 10) & 0x00000fc0)
       | ((k.odd >> 12) & 0x0003f000) | ((k.odd >> 16) & 0x0000003f),
     ((k.even << 10) & 0x00fc0000) | ((k.even << 6) & 0x00000fc0)
       | ((k.odd << 4) & 0x0003f000) | (k.odd & 0x0000003f))
  }

  /** Repacking loses none of the 24 low bits of either raw word. */
  lemma CookPairLossless(raw0: Word, raw1: Word)
    ensures UncookPair(CookPair(raw0, raw1)) == RoundKey(raw0 & 0x00ffffff, raw1 & 0x00ffffff)
  {
  }

  /** The round pairs `cookey` produces: pair j is `CookPair` of input pair j. */
  function CookedPairs(raw: Schedule): (pairs: seq<RoundKey>)
    ensures |pairs| == 16
  {
    seq(16, j requires 0 <= j < 16 => CookPair(raw[2 * j], raw[2 * j + 1]))
  }

  /** `cookey` as a value. */
  function Cooked(raw: Schedule): Schedule
  {
    FromRoundKeys(CookedPairs(raw))
  }

  /** The body of `cookey`'s loop for one raw pair: each output word is
      built up field by field, as the Go code does. */
  method CookWords(raw0: Word, raw1: Word) returns (k0: Word, k1: Word)
    ensures RoundKey(k0, k1) == CookPair(raw0, raw1)
  {
    k0 := (raw0 & 0x00fc0000) << 6;
    k0 := k0 | ((raw0 & 0x00000fc0) << 10);
    k0 := k0 | ((raw1 & 0x00fc0000) >> 10);
    k0 := k0 | ((raw1 & 0x00000fc0) >> 6);
    k1 := (raw0 & 0x0003f000) << 12;
    k1 := k1 | ((raw0 & 0x0000003f) << 16);
    k1 := k1 | ((raw1 & 0x0003f000) >> 4);
    k1 := k1 | (raw1 & 0x0000003f);
  }

  /** d3des.go `cookey`: rewrites `raw` pair by pair. Go arrays are values, so
      the caller's schedule is not changed; the repacked copy is returned. */
  method CooKey(raw: Schedule) returns (cooked: Schedule)
    ensures cooked == Cooked(raw)
  {
    var r: seq<Word> := raw;
    var i := 0;
    ghost var j := 0;
    while i < 32
      invariant 0 <= j <= 16 && i == 2 * j && |r| == 32
      invariant forall t :: 0 <= t < j ==> RoundKey(r[2 * t], r[2 * t + 1]) == CookedPairs(raw)[t]
      invariant forall s :: i <= s < 32 ==> r[s] == raw[s]
    {
      var k0, k1 := CookWords(r[i], r[i + 1]);
      r := r[i := k0][i + 1 := k1];
      i, j := i + 2, j + 1;
    }
    assert RoundKeys(r) == CookedPairs(raw);
    FromRoundKeysOf(r);
    cooked := r;
  }

  // ---------------------------------------------------------------------
  // deskey
  // ---------------------------------------------------------------------

  /** The key schedule `deskey(key, decrypt)` returns. */
  function ScheduleOf(key: Key, decrypt: bool): Schedule
  {
    Cooked(RawSchedule(key, decrypt))
  }

  /** d3des.go lines 22-30: spread the 56 key bits chosen by PC1 into one
      boolean per position. */
  method SelectKeyBits(key: Key) returns (pc1m: seq<bool>)
    ensures pc1m == PermutedChoice1(key)
  {
    pc1m := seq(56, _ => false);
    for j := 0 to 56
      invariant |pc1m| == 56
      invariant forall t :: 0 <= t < j ==> pc1m[t] == PermutedChoice1(key)[t]
    {
      var l := PC1[j];
      var m := l % 8;
      if key[l / 8] & ByteBit[m] != 0 {
        pc1m := pc1m[j := true];
      } else {
        pc1m := pc1m[j := false];
      }
    }
  }

  /** d3des.go lines 41-56: rotate each 28-bit half of `pc1m` left by `r`. */
  method RotateKeyBits(pc1m: seq<bool>, r: nat) returns (pcr: seq<bool>)
    requires |pc1m| == 56 && r <= 28
    ensures pcr == Rotated(pc1m, r)
  {
    pcr := seq(56, _ => false);
    for j := 0 to 28
      invariant |pcr| == 56
      invariant forall t :: 0 <= t < j ==> pcr[t] == Rotated(pc1m, r)[t]
    {
      var l := j + r;
      if l < 28 {
        pcr := pcr[j := pc1m[l]];
      } else {
        pcr := pcr[j := pc1m[l - 28]];
      }
    }
    for j := 28 to 56
      invariant |pcr| == 56
      invariant forall t :: 0 <= t < j ==> pcr[t] == Rotated(pc1m, r)[t]
    {
      var l := j + r;
      if l < 56 {
        pcr := pcr[j := pc1m[l]];
      } else {
        pcr := pcr[j := pc1m[l - 28]];
      }
    }
  }

  /** d3des.go lines 57-64: OR the PC2-selected bits of `pcr` into the two
      (already cleared) words of one round. */
  method SelectRoundKey(pcr: seq<bool>) returns (k: RoundKey)
    requires |pcr| == 56
    ensures k == RoundKey(Gather(pcr, 0, 24), Gather(pcr, 24, 24))
  {
    var k0: Word, k1: Word := 0, 0;
    for j := 0 to 24
      invariant k0 == Gather(pcr, 0, j) && k1 == Gather(pcr, 24, j)
    {
      if pcr[PC2[j]] {
        k0 := WithWeight(k0, j);
      }
      if pcr[PC2[j + 24]] {
        k1 := WithWeight(k1, j);
      }
    }
    k := RoundKey(k0, k1);
  }

  /** After rounds 0..i of `deskey`: each pair position whose round is
      below i holds that round's raw pair, every other position is still 0. */
  predicate Filled(kn: seq<Word>, key: Key, i: nat, decrypt: bool)
    requires |kn| == 32
  {
    forall p :: 0 <= p < 16 ==>
      RoundKey(kn[2 * p], kn[2 * p + 1])
        == if RoundAt(p, decrypt) < i then RawRoundKey(key, RoundAt(p, decrypt)) else RoundKey(0, 0)
  }

  /** Round i clears its two slots and writes its pair there; no other slot
      changes. */
  lemma PlaceRound(kn: seq<Word>, key: Key, i: nat, decrypt: bool, kn': seq<Word>)
    requires |kn| == 32 && i < 16 && Filled(kn, key, i, decrypt)
    requires var m, k := 2 * Slot(i, decrypt), RawRoundKey(key, i);
      kn' == kn[m := 0][m + 1 := 0][m := k.even][m + 1 := k.odd]
    ensures |kn'| == 32 && Filled(kn', key, i + 1, decrypt)
  {
    forall p | 0 <= p < 16
      ensures RoundKey(kn'[2 * p], kn'[2 * p + 1])
        == if RoundAt(p, decrypt) < i + 1 then RawRoundKey(key, RoundAt(p, decrypt)) else RoundKey(0, 0)
    {
      SlotsPartition(decrypt, i, p);
    }
  }

  /** Once all 16 rounds are placed, the slots hold the raw schedule. */
  lemma FilledAll(kn: seq<Word>, key: Key, decrypt: bool)
    requires |kn| == 32 && Filled(kn, key, 16, decrypt)
    ensures kn == RawSchedule(key, decrypt)
  {
    assert RoundKeys(kn) == RawRoundKeys(key, decrypt);
    FromRoundKeysOf(kn);
  }

  /** d3des.go `deskey`. The Go arrays `pc1m`, `pcr` and `kn` are values, so
      they are sequences here. Each round clears and then fills only its own
      two slots: after round i exactly the pairs of rounds 0..i hold their
      final raw value and every other slot still holds 0. */
  method DesKey(key: Key, decrypt: bool) returns (schedule: Schedule)
    ensures schedule == ScheduleOf(key, decrypt)
  {
    var pc1m := SelectKeyBits(key);
    var kn: seq<Word> := seq(32, _ => 0);
    for i := 0 to 16
      invariant |kn| == 32 && Filled(kn, key, i, decrypt)
    {
      var m := if decrypt then 2 * (15 - i) else 2 * i;
      var n := m + 1;
      ghost var before := kn;
      kn := kn[m := 0][n := 0];
      var pcr := RotateKeyBits(pc1m, TotRot[i]);
      var k := SelectRoundKey(pcr);
      kn := kn[m := k.even][n := k.odd];
      assert k == RawRoundKey(key, i) && m == 2 * Slot(i, decrypt);
      PlaceRound(before, key, i, decrypt, kn);
    }
    FilledAll(kn, key, decrypt);
    schedule := CooKey(kn);
  }

  /** Every word of the schedule `deskey` returns has `w & 0xc0c0c0c0 == 0`:
      each of its bytes holds one 6-bit field. */
  lemma CookedMask(key: Key, decrypt: bool, s: nat)
    requires s < 32
    ensures ScheduleOf(key, decrypt)[s] & 0xc0c0c0c0 == 0
  {
    var raw := RawSchedule(key, decrypt);
    var k := CookedPairs(raw)[s / 2];
    assert k == CookPair(raw[2 * (s / 2)], raw[2 * (s / 2) + 1]);
    assert ScheduleOf(key, decrypt)[s] == if s % 2 == 0 then k.even else k.odd;
  }

  // ---------------------------------------------------------------------
  // Encryption and decryption schedules
  // ---------------------------------------------------------------------

  /** The 16 cooked round pairs of a key, in round order. */
  function RoundKeysOf(key: Key): (pairs: seq<RoundKey>)
    ensures |pairs| == 16
  {
    seq(16, i requires 0 <= i < 16 =>
      var p := RawRoundKey(key, i);
      CookPair(p.even, p.odd))
  }

  /** Pair position j of a schedule holds the cooked pair of round
      `RoundAt(j, decrypt)`. */
  lemma {:induction false} SchedulePairs(key: Key, decrypt: bool)
    ensures forall j :: 0 <= j < 16 ==>
      RoundKeys(ScheduleOf(key, decrypt))[j] == RoundKeysOf(key)[RoundAt(j, decrypt)]
  {
    var raw := RawSchedule(key, decrypt);
    RoundKeysOfFrom(RawRoundKeys(key, decrypt));
    RoundKeysOfFrom(CookedPairs(raw));
    forall j | 0 <= j < 16
      ensures RoundKeys(ScheduleOf(key, decrypt))[j] == RoundKeysOf(key)[RoundAt(j, decrypt)]
    {
      assert RoundKey(raw[2 * j], raw[2 * j + 1]) == RoundKeys(raw)[j] == RawRoundKey(key, RoundAt(j, decrypt));
      assert RoundKeys(ScheduleOf(key, decrypt))[j] == CookedPairs(raw)[j];
    }
  }

  /** Pairs listed by `RoundAt(_, decrypt)`: the rounds themselves when
      encrypting, the rounds reversed when decrypting. */
  lemma ListedByRound(pairs: seq<RoundKey>, rounds: seq<RoundKey>, decrypt: bool)
    requires |pairs| == 16 && |rounds| == 16
    requires forall j :: 0 <= j < 16 ==> pairs[j] == rounds[RoundAt(j, decrypt)]
    ensures pairs == if decrypt then Reverse(rounds) else rounds
  {
    if decrypt {
      forall j | 0 <= j < 16
        ensures pairs[j] == Reverse(rounds)[j]
      {
        assert pairs[j] == rounds[15 - j];
      }
    } else {
      forall j | 0 <= j < 16
        ensures pairs[j] == rounds[j]
      {
        assert pairs[j] == rounds[RoundAt(j, false)];
      }
    }
  }

  /** Both modes hold the same 16 round pairs; the encryption schedule lists
      them in round order and the decryption schedule in reverse order. */
  lemma ScheduleRoundKeys(key: Key)
    ensures RoundKeys(ScheduleOf(key, false)) == RoundKeysOf(key)
    ensures RoundKeys(ScheduleOf(key, true)) == Reverse(RoundKeysOf(key))
  {
    SchedulePairs(key, false);
    ListedByRound(RoundKeys(ScheduleOf(key, false)), RoundKeysOf(key), false);
    SchedulePairs(key, true);
    ListedByRound(RoundKeys(ScheduleOf(key, true)), RoundKeysOf(key), true);
  }

  /** Of two schedules whose pairs are each other's reverse, slot `2 * (15 - i) + b`
      of one holds what slot `2 * i + b` of the other holds. */
  lemma ReversedSlots(ek: Schedule, dk: Schedule, i: nat)
    requires i < 16 && RoundKeys(dk) == Reverse(RoundKeys(ek))
    ensures dk[2 * (15 - i)] == ek[2 * i] && dk[2 * (15 - i) + 1] == ek[2 * i + 1]
  {
    assert RoundKeys(dk)[15 - i] == RoundKeys(ek)[i];
  }

  /** The decryption schedule's pairs are the encryption schedule's pairs
      reversed, and vice versa. */
  lemma DecryptScheduleReversed(key: Key)
    ensures RoundKeys(ScheduleOf(key, true)) == Reverse(RoundKeys(ScheduleOf(key, false)))
    ensures RoundKeys(ScheduleOf(key, false)) == Reverse(RoundKeys(ScheduleOf(key, true)))
  {
    ScheduleRoundKeys(key);
    ReverseReverse(RoundKeysOf(key));
  }

  /** Slot by slot (d3des.go:34-39): the decryption schedule stores round i's
      pair at slots `2 * (15 - i)` and `2 * (15 - i) + 1`, the encryption
      schedule at `2 * i` and `2 * i + 1`. */
  lemma ScheduleModes(key: Key, i: nat)
    requires i < 16
    ensures ScheduleOf(key, true)[2 * (15 - i)] == ScheduleOf(key, false)[2 * i]
    ensures ScheduleOf(key, true)[2 * (15 - i) + 1] == ScheduleOf(key, false)[2 * i + 1]
  {
    DecryptScheduleReversed(key);
    ReversedSlots(ScheduleOf(key, false), ScheduleOf(key, true), i);
  }
}
