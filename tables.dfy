/** The constant tables of the d3des implementation and the fixed VNC key.
    Their values are defined in a file that is not part of this model, so each
    table is an uninterpreted constant whose type records only what the code
    relies on: its length and, for the tables used as indices, the range of its
    entries. Every property proved in this project therefore holds for ANY
    tables of these shapes. */
module Tables {

  /** Go's byte. */
  type Byte = bv8

  /** Go's uint32. */
  type Word = bv32

  /** A DES key, Go's `[8]byte`. */
  type Key = s: seq<Byte> | |s| == 8 witness [0, 0, 0, 0, 0, 0, 0, 0]

  /** Permuted choice 1: 56 bit positions of the 64-bit key. */
  type PC1Table = s: seq<nat> | |s| == 56 && forall j :: 0 <= j < |s| ==> s[j] < 64
    witness seq(56, _ => 0)

  /** Permuted choice 2: 48 bit positions of the 56-bit rotated key. */
  type PC2Table = s: seq<nat> | |s| == 48 && forall j :: 0 <= j < |s| ==> s[j] < 56
    witness seq(48, _ => 0)

  /** Cumulative left-rotation count of each of the 16 rounds. */
  type RotationTable = s: seq<nat> | |s| == 16 && forall j :: 0 <= j < |s| ==> s[j] <= 28
    witness seq(16, _ => 0)

  /** Bit masks selecting bit `m` of a key byte. */
  type ByteBitTable = s: seq<Byte> | |s| == 8 witness seq(8, _ => 0)

  /** The bit weight OR-ed into a raw subkey word for each of its 24 selected bits. */
  type BigByteTable = s: seq<Word> | |s| == 24 witness seq(24, _ => 0)

  /** A combined S-box and P-permutation lookup table, indexed by a 6-bit group. */
  type SPTable = s: seq<Word> | |s| == 64 witness seq(64, _ => 0)

  const PC1: PC1Table
  const PC2: PC2Table
  const TotRot: RotationTable
  const ByteBit: ByteBitTable
  const BigByte: BigByteTable

  const SP1: SPTable
  const SP2: SPTable
  const SP3: SPTable
  const SP4: SPTable
  const SP5: SPTable
  const SP6: SPTable
  const SP7: SPTable
  const SP8: SPTable

  /** The fixed, publicly known key with which VNC obfuscates stored passwords. */
  const VncKey: Key
}
