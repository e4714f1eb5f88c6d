/** func.go: the VNC layer over the DES block function. `Crypt` and
    `Decrypt` obfuscate a stored password under the fixed key `VncKey`;
    `GenerateResponse` answers a VNC Authentication challenge (section 7.2.2
    of RFC 6143) with the password as the key. Go strings and byte slices
    are both byte sequences here. */
module Vnc {
  import opened Tables
  import opened KeySchedule
  import opened Cipher

  /** Go's `copy(dst, src)` into a fresh zeroed buffer of n bytes: the first
      min(n, |src|) bytes of `src`, then zero bytes. */
  function ZeroPadded(src: seq<Byte>, n: nat): (dst: seq<Byte>)
    ensures |dst| == n
    ensures forall i :: 0 <= i < n ==> dst[i] == if i < |src| then src[i] else 0
  {
    if |src| >= n then src[..n] else src + seq(n - |src|, _ => 0)
  }

  /** A buffer that already has n bytes is copied unchanged. */
  lemma ZeroPaddedExact(src: seq<Byte>)
    requires |src| == 8
    ensures ZeroPadded(src, 8) == src
  {
  }

  /** Bytes past the n-th never reach the buffer. */
  lemma ZeroPaddedTruncates(src: seq<Byte>, n: nat)
    requires |src| >= n
    ensures ZeroPadded(src, n) == ZeroPadded(src[..n], n)
  {
  }

  // ---------------------------------------------------------------------
  // GenerateResponse
  // ---------------------------------------------------------------------

  /** func.go `GenerateResponse`: the key is the password copied into eight
      zeroed bytes; each 8-byte half of the challenge is encrypted on its own
      under the encryption schedule and the two results are concatenated. Go
      panics on a challenge shorter than 16 bytes; bytes past the 16th are
      not read. */
  function GenerateResponse(passwd: seq<Byte>, challenge: seq<Byte>): (response: seq<Byte>)
    requires |challenge| >= 16
    ensures |response| == 16
  {
    var ek := ScheduleOf(ZeroPadded(passwd, 8), false);
    Transform(challenge[..8], ek) + Transform(challenge[8..], ek)
  }

  /** The schedule `GenerateResponse` encrypts with. */
  function ResponseSchedule(passwd: seq<Byte>): Schedule
  {
    ScheduleOf(ZeroPadded(passwd, 8), false)
  }

  /** The two halves of an 8-byte block followed by anything. */
  lemma ConcatHalves(a: seq<Byte>, b: seq<Byte>)
    requires |a| == 8
    ensures (a + b)[..8] == a && (a + b)[8..] == b
  {
  }

  /** The 8 bytes from the 8th on of a 16-byte (or longer) challenge. */
  lemma SecondEight(c: seq<Byte>)
    requires |c| >= 16
    ensures c[8..][..8] == c[8..16]
  {
  }

  /** The halves of the first 16 bytes of a challenge. */
  lemma FirstSixteen(c: seq<Byte>)
    requires |c| >= 16
    ensures c[..16][..8] == c[..8] && c[..16][8..16] == c[8..16]
  {
  }

  /** The first half of the response is the first half of the challenge
      encrypted under the password's encryption schedule. */
  lemma ResponseFirstHalf(passwd: seq<Byte>, challenge: seq<Byte>)
    requires |challenge| >= 16
    ensures GenerateResponse(passwd, challenge)[..8] == Transform(challenge[..8], ResponseSchedule(passwd))
  {
    var ek := ResponseSchedule(passwd);
    ConcatHalves(Transform(challenge[..8], ek), Transform(challenge[8..], ek));
  }

  /** The second half of the response is the second half of the challenge
      encrypted under the password's encryption schedule. */
  lemma ResponseSecondHalf(passwd: seq<Byte>, challenge: seq<Byte>)
    requires |challenge| >= 16
    ensures GenerateResponse(passwd, challenge)[8..] == Transform(challenge[8..16], ResponseSchedule(passwd))
  {
    var ek := ResponseSchedule(passwd);
    ConcatHalves(Transform(challenge[..8], ek), Transform(challenge[8..], ek));
    TransformUsesEightBytes(challenge[8..], ek);
    SecondEight(challenge);
  }

  /** Each half of the response is the corresponding half of the challenge
      encrypted under the password's encryption schedule. */
  lemma ResponseHalves(passwd: seq<Byte>, challenge: seq<Byte>)
    requires |challenge| >= 16
    ensures GenerateResponse(passwd, challenge)[..8] == Transform(challenge[..8], ResponseSchedule(passwd))
    ensures GenerateResponse(passwd, challenge)[8..] == Transform(challenge[8..16], ResponseSchedule(passwd))
  {
    ResponseFirstHalf(passwd, challenge);
    ResponseSecondHalf(passwd, challenge);
  }

  /** Changing one half of the challenge never changes the other half of the
      response. */
  lemma ResponseHalvesIndependent(passwd: seq<Byte>, c: seq<Byte>, c': seq<Byte>)
    requires |c| >= 16 && |c'| >= 16
    ensures c[..8] == c'[..8] ==> GenerateResponse(passwd, c)[..8] == GenerateResponse(passwd, c')[..8]
    ensures c[8..16] == c'[8..16] ==> GenerateResponse(passwd, c)[8..] == GenerateResponse(passwd, c')[8..]
  {
    ResponseHalves(passwd, c);
    ResponseHalves(passwd, c');
  }

  /** Only the first 16 bytes of the challenge matter. */
  lemma ResponseChallengeTruncated(passwd: seq<Byte>, challenge: seq<Byte>)
    requires |challenge| >= 16
    ensures GenerateResponse(passwd, challenge) == GenerateResponse(passwd, challenge[..16])
  {
    ResponseHalves(passwd, challenge);
    ResponseHalves(passwd, challenge[..16]);
    FirstSixteen(challenge);
    assert GenerateResponse(passwd, challenge)[..8] + GenerateResponse(passwd, challenge)[8..]
      == GenerateResponse(passwd, challenge);
  }

  /** Only the first 8 bytes of the password matter. */
  lemma ResponsePasswordTruncated(passwd: seq<Byte>, challenge: seq<Byte>)
    requires |challenge| >= 16 && |passwd| >= 8
    ensures GenerateResponse(passwd, challenge) == GenerateResponse(passwd[..8], challenge)
  {
    ZeroPaddedTruncates(passwd, 8);
  }

  /** The first 16 bytes are the two 8-byte halves. */
  lemma SixteenBytes(c: seq<Byte>)
    requires |c| >= 16
    ensures c[..16] == c[..8] + c[8..16]
  {
  }

  /** The first half of the response decrypts, under the decryption
      schedule of the same password, to the first half of the challenge. */
  lemma ResponseFirstHalfDecrypts(passwd: seq<Byte>, challenge: seq<Byte>)
    requires |challenge| >= 16
    ensures Transform(GenerateResponse(passwd, challenge)[..8], ScheduleOf(ZeroPadded(passwd, 8), true))
      == challenge[..8]
  {
    ResponseHalves(passwd, challenge);
    EncryptThenDecrypt(challenge[..8], ZeroPadded(passwd, 8));
  }

  /** The second half of the response decrypts, under the decryption
      schedule of the same password, to the second half of the challenge. */
  lemma ResponseSecondHalfDecrypts(passwd: seq<Byte>, challenge: seq<Byte>)
    requires |challenge| >= 16
    ensures Transform(GenerateResponse(passwd, challenge)[8..], ScheduleOf(ZeroPadded(passwd, 8), true))
      == challenge[8..16]
  {
    ResponseHalves(passwd, challenge);
    EncryptThenDecrypt(challenge[8..16], ZeroPadded(passwd, 8));
  }

  /** A server holding the same password recovers its challenge from the
      response by decrypting each half with the decryption schedule. */
  lemma ResponseDecrypts(passwd: seq<Byte>, challenge: seq<Byte>)
    requires |challenge| >= 16
    ensures var dk := ScheduleOf(ZeroPadded(passwd, 8), true);
      var response := GenerateResponse(passwd, challenge);
      Transform(response[..8], dk) + Transform(response[8..], dk) == challenge[..16]
  {
    ResponseFirstHalfDecrypts(passwd, challenge);
    ResponseSecondHalfDecrypts(passwd, challenge);
    SixteenBytes(challenge);
  }

  // ---------------------------------------------------------------------
  // Crypt and Decrypt
  // ---------------------------------------------------------------------

  /** func.go `Crypt`: the password copied into eight zeroed bytes, encrypted
      under the encryption schedule of `VncKey`. */
  function Crypt(password: seq<Byte>): (encrypted: seq<Byte>)
    ensures |encrypted| == 8
  {
    Transform(ZeroPadded(password, 8), ScheduleOf(VncKey, false))
  }

  /** func.go `Decrypt`: the value decrypted under the decryption schedule of
      `VncKey`. Go panics on fewer than eight bytes; bytes past the eighth
      are not read. */
  function Decrypt(value: seq<Byte>): (password: seq<Byte>)
    requires |value| >= 8
    ensures |password| == 8
  {
    Transform(value, ScheduleOf(VncKey, true))
  }

  /** Decrypting a stored password gives the password truncated to eight
      bytes and padded with trailing zero bytes. */
  lemma DecryptCrypt(password: seq<Byte>)
    ensures Decrypt(Crypt(password)) == ZeroPadded(password, 8)
  {
    EncryptThenDecrypt(ZeroPadded(password, 8), VncKey);
  }

  /** Encrypting a decrypted value gives back its first eight bytes. */
  lemma CryptDecrypt(value: seq<Byte>)
    requires |value| >= 8
    ensures Crypt(Decrypt(value)) == value[..8]
  {
    ZeroPaddedExact(Decrypt(value));
    DecryptThenEncrypt(value, VncKey);
  }

  /** Only the first eight bytes of the password are used. */
  lemma CryptTruncates(password: seq<Byte>)
    requires |password| >= 8
    ensures Crypt(password) == Crypt(password[..8])
  {
    ZeroPaddedTruncates(password, 8);
  }

  /** A shorter password is the same as the password followed by zero bytes. */
  lemma CryptPads(password: seq<Byte>)
    requires |password| < 8
    ensures Crypt(password) == Crypt(password + seq(8 - |password|, _ => 0))
  {
    assert ZeroPadded(password, 8) == ZeroPadded(password + seq(8 - |password|, _ => 0), 8);
  }

  /** Bytes after the eighth do not change the stored password. */
  lemma CryptIgnoresSuffix(password: seq<Byte>, suffix: seq<Byte>)
    requires |password| >= 8
    ensures Crypt(password + suffix) == Crypt(password)
  {
    CryptTruncates(password + suffix);
    CryptTruncates(password);
    assert (password + suffix)[..8] == password[..8];
  }

  /** The ASCII bytes of "password". */
  const PasswordBytes: seq<Byte> := [0x70, 0x61, 0x73, 0x73, 0x77, 0x6f, 0x72, 0x64]

  /** "password1234" and "password" are stored identically. */
  lemma CryptLongPasswordExample()
    ensures Crypt(PasswordBytes + [0x31, 0x32, 0x33, 0x34]) == Crypt(PasswordBytes)
  {
    CryptIgnoresSuffix(PasswordBytes, [0x31, 0x32, 0x33, 0x34]);
  }
}
