/** The block function `desfunc` of d3des.go: big-endian load of the two
    halves, the bit-sliced initial permutation, sixteen Feistel half-rounds
    driven by the combined S/P tables, the final permutation, and big-endian
    store with the halves swapped. */
module Cipher {
  import opened Tables
  import opened KeySchedule

  // ---------------------------------------------------------------------
  // Big-endian words (encoding/binary.BigEndian)
  // ---------------------------------------------------------------------

  /** `binary.BigEndian.Uint32`: the first four bytes, most significant first. */
  function LoadBigEndian(b: seq<Byte>): Word
    requires |b| >= 4
  {
    ((b[0] as Word) << 24) | ((b[1] as Word) << 16) | ((b[2] as Word) << 8) | (b[3] as Word)
  }

  /** `binary.BigEndian.PutUint32` into a fresh 4-byte slice. */
  function StoreBigEndian(w: Word): (b: seq<Byte>)
    ensures |b| == 4
  {
    [((w >> 24) & 0xff) as Byte, ((w >> 16) & 0xff) as Byte,
     ((w >> 8) & 0xff) as Byte, (w & 0xff) as Byte]
  }

  /** Storing a word and loading it back gives the word. */
  lemma LoadStore(w: Word)
    ensures LoadBigEndian(StoreBigEndian(w)) == w
  {
  }

  /** Loading four bytes and storing the word gives the four bytes. */
  lemma StoreLoad(b: seq<Byte>)
    requires |b| >= 4
    ensures StoreBigEndian(LoadBigEndian(b)) == b[..4]
  {
  }

  /** The two 32-bit halves of the block, named as in d3des.go. */
  datatype Halves = Halves(leftt: Word, right: Word)

  // ---------------------------------------------------------------------
  // The bit-sliced permutation steps
  // ---------------------------------------------------------------------

  /** `((x << 1) | ((x >> 31) & 1)) & 0xffffffff`: rotate left by one. */
  function RotateLeft1(x: Word): Word
  {
    ((x << 1) | ((x >> 31) & 1)) & 0xffffffff
  }

  /** `(x << 31) | (x >> 1)`: rotate right by one. */
  function RotateRight1(x: Word): Word
  {
    (x << 31) | (x >> 1)
  }

  /** The two one-bit rotations are each other's inverse. */
  lemma RotationsInverse(x: Word)
    ensures RotateRight1(RotateLeft1(x)) == x
    ensures RotateLeft1(RotateRight1(x)) == x
  {
  }

  /** Each mask/shift/XOR exchange of the permutations,
        work = ((hi >> n) ^ lo) & mask; lo ^= work; hi ^= work << n,
      undoes itself: running it on its own output gives back (hi, lo). The
      odd-bit exchange `work = (l ^ r) & 0xaaaaaaaa; l ^= work; r ^= work`
      undoes itself too. */
  lemma ExchangesInvolutive(hi: Word, lo: Word)
    ensures var w := ((hi >> 4) ^ lo) & 0x0f0f0f0f; var h, l := hi ^ (w << 4), lo ^ w;
      var w' := ((h >> 4) ^ l) & 0x0f0f0f0f; h ^ (w' << 4) == hi && l ^ w' == lo
    ensures var w := ((hi >> 16) ^ lo) & 0x0000ffff; var h, l := hi ^ (w << 16), lo ^ w;
      var w' := ((h >> 16) ^ l) & 0x0000ffff; h ^ (w' << 16) == hi && l ^ w' == lo
    ensures var w := ((hi >> 2) ^ lo) & 0x33333333; var h, l := hi ^ (w << 2), lo ^ w;
      var w' := ((h >> 2) ^ l) & 0x33333333; h ^ (w' << 2) == hi && l ^ w' == lo
    ensures var w := ((hi >> 8) ^ lo) & 0x00ff00ff; var h, l := hi ^ (w << 8), lo ^ w;
      var w' := ((h >> 8) ^ l) & 0x00ff00ff; h ^ (w' << 8) == hi && l ^ w' == lo
    ensures var w := (hi ^ lo) & 0xaaaaaaaa; var h, l := hi ^ w, lo ^ w;
      var w' := (h ^ l) & 0xaaaaaaaa; h ^ w' == hi && l ^ w' == lo
  {
  }

  /** The initial permutation of d3des.go:111-127 on (leftt, right), one
      binding per Go statement. */
  function InitialPermutation(leftt: Word, right: Word): Halves
  {
    var work := ((leftt >> 4) ^ right) & 0x0f0f0f0f;
    var right := right ^ work;
    var leftt := leftt ^ (work << 4);
    var work := ((leftt >> 16) ^ right) & 0x0000ffff;
    var right := right ^ work;
    var leftt := leftt ^ (work << 16);
    var work := ((right >> 2) ^ leftt) & 0x33333333;
    var leftt := leftt ^ work;
    var right := right ^ (work << 2);
    var work := ((right >> 8) ^ leftt) & 0x00ff00ff;
    var leftt := leftt ^ work;
    var right := right ^ (work << 8);
    var right := RotateLeft1(right);
    var work := (leftt ^ right) & 0xaaaaaaaa;
    var leftt := leftt ^ work;
    var right := right ^ work;
    var leftt := RotateLeft1(leftt);
    Halves(leftt, right)
  }

  /** The final permutation of d3des.go:157-176 on (leftt, right), one
      binding per Go statement. */
  function FinalPermutation(leftt: Word, right: Word): Halves
  {
    var right := RotateRight1(right);
    var work := (leftt ^ right) & 0xaaaaaaaa;
    var leftt := leftt ^ work;
    var right := right ^ work;
    var leftt := RotateRight1(leftt);
    var work := ((leftt >> 8) ^ right) & 0x00ff00ff;
    var right := right ^ work;
    var leftt := leftt ^ (work << 8);
    var work := ((leftt >> 2) ^ right) & 0x33333333;
    var right := right ^ work;
    var leftt := leftt ^ (work << 2);
    var work := ((right >> 16) ^ leftt) & 0x0000ffff;
    var leftt := leftt ^ work;
    var right := right ^ (work << 16);
    var work := ((right >> 4) ^ leftt) & 0x0f0f0f0f;
    var leftt := leftt ^ work;
    var right := right ^ (work << 4);
    Halves(leftt & 0xffffffff, right & 0xffffffff)
  }

  /** The initial permutation, applied to the output of the final permutation
      with the halves exchanged, gives back the final permutation's input with
      the halves exchanged. */
  lemma InitialUndoesFinal(leftt: Word, right: Word)
    ensures var f := FinalPermutation(leftt, right);
      InitialPermutation(f.right, f.leftt) == Halves(right, leftt)
  {
  }

  /** The final permutation, applied to the output of the initial permutation
      with the halves exchanged, gives back the initial permutation's input
      with the halves exchanged. */
  lemma FinalUndoesInitial(leftt: Word, right: Word)
    ensures var i := InitialPermutation(leftt, right);
      FinalPermutation(i.right, i.leftt) == Halves(right, leftt)
  {
  }

  // ---------------------------------------------------------------------
  // The Feistel rounds
  // ---------------------------------------------------------------------

  /** The round function: the S/P lookups of one half-round of d3des.go:132-142
      applied to half `x` under round pair `k`. Every index is a 6-bit field. */
  function F(x: Word, k: RoundKey): Word
  {
    var w0 := ((x << 28) | (x >> 4)) ^ k.even;
    var w1 := x ^ k.odd;
    SP7[(w0 & 0x3f) as int] | SP5[((w0 >> 8) & 0x3f) as int]
      | SP3[((w0 >> 16) & 0x3f) as int] | SP1[((w0 >> 24) & 0x3f) as int]
      | SP8[(w1 & 0x3f) as int] | SP6[((w1 >> 8) & 0x3f) as int]
      | SP4[((w1 >> 16) & 0x3f) as int] | SP2[((w1 >> 24) & 0x3f) as int]
  }

  /** One half-round: `a ^= F(b, k)`, as in `leftt ^= fval` and `right ^= fval`. */
  function HalfRound(a: Word, b: Word, k: RoundKey): Word
  {
    a ^ F(b, k)
  }

  /** A half-round with the same pair and the same other half undoes itself. */
  lemma HalfRoundUndo(a: Word, b: Word, k: RoundKey)
    ensures HalfRound(HalfRound(a, b, k), b, k) == a
  {
  }

  /** One half-round followed by exchanging the roles of the halves: the
      half the next half-round updates is always kept in `leftt`. Between the
      two half-rounds of one iteration of the round loop the fields hold
      (right, leftt); after both they hold (leftt, right) again. */
  function Step(h: Halves, k: RoundKey): Halves
  {
    Halves(h.right, HalfRound(h.leftt, h.right, k))
  }

  /** The halves exchanged. */
  function Swap(h: Halves): Halves
  {
    Halves(h.right, h.leftt)
  }

  /** A half-round is undone by the same half-round on the exchanged result. */
  lemma StepUndo(h: Halves, k: RoundKey)
    ensures Step(Swap(Step(h, k)), k) == Swap(h)
  {
    HalfRoundUndo(h.leftt, h.right, k);
  }

  /** The half-rounds of a list of round pairs, in order. */
  function Rounds(h: Halves, ks: seq<RoundKey>): Halves
    decreases |ks|
  {
    if ks == [] then h else Rounds(Step(h, ks[0]), ks[1..])
  }

  /** One more half-round at the end of the list. */
  lemma {:induction false} RoundsSnoc(h: Halves, ks: seq<RoundKey>, k: RoundKey)
    ensures Rounds(h, ks + [k]) == Step(Rounds(h, ks), k)
    decreases |ks|
  {
    if ks == [] {
      assert ks + [k] == [k];
    } else {
      assert (ks + [k])[1..] == ks[1..] + [k];
      RoundsSnoc(Step(h, ks[0]), ks[1..], k);
    }
  }

  /** The Feistel rounds run backwards: starting from the exchanged result
      with the round pairs in reverse order gives back the exchanged input.
      This holds whatever the round function is. */
  lemma {:induction false} RoundsReversed(h: Halves, ks: seq<RoundKey>)
    ensures Rounds(Swap(Rounds(h, ks)), Reverse(ks)) == Swap(h)
    decreases |ks|
  {
    if ks != [] {
      var h' := Step(h, ks[0]);
      RoundsReversed(h', ks[1..]);
      assert Reverse(ks) == Reverse(ks[1..]) + [ks[0]];
      RoundsSnoc(Swap(Rounds(h, ks)), Reverse(ks[1..]), ks[0]);
      StepUndo(h, ks[0]);
    }
  }

  // ---------------------------------------------------------------------
  // desfunc
  // ---------------------------------------------------------------------

  /** The block `desfunc(block, keys)` returns: the first eight bytes of
      `block` through IP, the 16 half-rounds of `keys` and FP, stored as the
      final `right` followed by the final `leftt`. */
  function Transform(block: seq<Byte>, keys: Schedule): (out: seq<Byte>)
    requires |block| >= 8
    ensures |out| == 8
  {
    var ip := InitialPermutation(LoadBigEndian(block[..4]), LoadBigEndian(block[4..]));
    var h := Rounds(ip, RoundKeys(keys));
    var f := FinalPermutation(h.leftt, h.right);
    StoreBigEndian(f.right) + StoreBigEndian(f.leftt)
  }

  /** Only the first eight bytes of the block matter. */
  lemma TransformUsesEightBytes(block: seq<Byte>, keys: Schedule)
    requires |block| >= 8
    ensures Transform(block, keys) == Transform(block[..8], keys)
  {
    assert block[..8][..4] == block[..4];
    assert LoadBigEndian(block[..8][4..]) == LoadBigEndian(block[4..]);
  }

  /** A schedule whose round pairs are those of `ek` in reverse order undoes
      `ek`: Feistel decryption inverts Feistel encryption. */
  lemma TransformRoundTrip(block: seq<Byte>, ek: Schedule, dk: Schedule)
    requires |block| >= 8
    requires RoundKeys(dk) == Reverse(RoundKeys(ek))
    ensures Transform(Transform(block, ek), dk) == block[..8]
  {
    var a, b := LoadBigEndian(block[..4]), LoadBigEndian(block[4..]);
    var ip := InitialPermutation(a, b);
    var h := Rounds(ip, RoundKeys(ek));
    var f := FinalPermutation(h.leftt, h.right);
    var mid := Transform(block, ek);
    assert mid[..4] == StoreBigEndian(f.right) && mid[4..] == StoreBigEndian(f.leftt);
    LoadStore(f.right);
    LoadStore(f.leftt);
    InitialUndoesFinal(h.leftt, h.right);
    RoundsReversed(ip, RoundKeys(ek));
    FinalUndoesInitial(a, b);
    StoreLoad(block[..4]);
    StoreLoad(block[4..]);
    assert Transform(mid, dk) == StoreBigEndian(a) + StoreBigEndian(b);
    assert block[..8] == block[..4] + block[4..][..4];
  }

  /** Decrypting with `deskey(k, true)` undoes encrypting with `deskey(k, false)`. */
  lemma EncryptThenDecrypt(block: seq<Byte>, key: Key)
    requires |block| >= 8
    ensures Transform(Transform(block, ScheduleOf(key, false)), ScheduleOf(key, true)) == block[..8]
  {
    DecryptScheduleReversed(key);
    TransformRoundTrip(block, ScheduleOf(key, false), ScheduleOf(key, true));
  }

  /** Encrypting with `deskey(k, false)` undoes decrypting with `deskey(k, true)`. */
  lemma DecryptThenEncrypt(block: seq<Byte>, key: Key)
    requires |block| >= 8
    ensures Transform(Transform(block, ScheduleOf(key, true)), ScheduleOf(key, false)) == block[..8]
  {
    DecryptScheduleReversed(key);
    TransformRoundTrip(block, ScheduleOf(key, true), ScheduleOf(key, false));
  }

  /** The rounds over a prefix of 2j + 2 pairs are the rounds over the first
      2j pairs followed by two more steps. */
  lemma TwoMoreRounds(h: Halves, pairs: seq<RoundKey>, j: nat)
    requires 2 * j + 2 <= |pairs|
    ensures Rounds(h, pairs[..2 * j + 2]) == Step(Step(Rounds(h, pairs[..2 * j]), pairs[2 * j]), pairs[2 * j + 1])
  {
    RoundsSnoc(h, pairs[..2 * j], pairs[2 * j]);
    RoundsSnoc(h, pairs[..2 * j] + [pairs[2 * j]], pairs[2 * j + 1]);
    assert pairs[..2 * j + 2] == pairs[..2 * j] + [pairs[2 * j]] + [pairs[2 * j + 1]];
  }

  /** The round loop of d3des.go:129-155: eight iterations, each a half-round
      updating `leftt` with pair (keys[i], keys[i+1]) and then one updating
      `right` with pair (keys[i+2], keys[i+3]). */
  method FeistelRounds(leftt0: Word, right0: Word, keys: Schedule) returns (leftt: Word, right: Word)
    ensures Halves(leftt, right) == Rounds(Halves(leftt0, right0), RoundKeys(keys))
  {
    leftt, right := leftt0, right0;
    ghost var pairs := RoundKeys(keys);
    var i := 0;
    ghost var j := 0;
    while i < 32
      invariant 0 <= j <= 8 && i == 4 * j
      invariant Halves(leftt, right) == Rounds(Halves(leftt0, right0), pairs[..2 * j])
    {
      TwoMoreRounds(Halves(leftt0, right0), pairs, j);
      assert pairs[2 * j] == RoundKey(keys[i], keys[i + 1]);
      assert pairs[2 * j + 1] == RoundKey(keys[i + 2], keys[i + 3]);
      leftt := HalfRound(leftt, right, RoundKey(keys[i], keys[i + 1]));
      right := HalfRound(right, leftt, RoundKey(keys[i + 2], keys[i + 3]));
      i, j := i + 4, j + 1;
    }
    assert pairs[..16] == pairs;
  }

  /** d3des.go `desfunc`. Go panics when `block` has fewer than eight bytes;
      bytes past the eighth are not read. The halves `leftt` and `right` are
      updated in place: the initial permutation, the round loop, the final
      permutation, then the store of `right` followed by `leftt`. */
  method DesFunc(block: seq<Byte>, keys: Schedule) returns (res: seq<Byte>)
    requires |block| >= 8
    ensures res == Transform(block, keys)
  {
    var leftt := LoadBigEndian(block[..4]);
    var right := LoadBigEndian(block[4..]);
    var ip := InitialPermutation(leftt, right);
    leftt, right := ip.leftt, ip.right;
    leftt, right := FeistelRounds(leftt, right, keys);
    var fp := FinalPermutation(leftt, right);
    leftt, right := fp.leftt, fp.right;
    res := StoreBigEndian(right) + StoreBigEndian(leftt);
  }
}
