/**
  The Data Encryption Standard as FIPS 46-3 defines it, bit by bit: its own tables, numbered
  from 1 as there, and its own key schedule. The eight selection functions followed by the
  permutation P are left to the tables of d3des.c, which hold them turned left by one place.
 */
module DesStandard {

  import opened Des

  type Bits = seq<bool>

  // ----- words and blocks as bits, the most significant first -----

  predicate Bit(w: Word, n: nat)
    requires 1 <= n <= 32
  {
    match n
    case 1 => w & 0x80000000 != 0 case 2 => w & 0x40000000 != 0 case 3 => w & 0x20000000 != 0
    case 4 => w & 0x10000000 != 0 case 5 => w & 0x08000000 != 0 case 6 => w & 0x04000000 != 0
    case 7 => w & 0x02000000 != 0 case 8 => w & 0x01000000 != 0 case 9 => w & 0x00800000 != 0
    case 10 => w & 0x00400000 != 0 case 11 => w & 0x00200000 != 0 case 12 => w & 0x00100000 != 0
    case 13 => w & 0x00080000 != 0 case 14 => w & 0x00040000 != 0 case 15 => w & 0x00020000 != 0
    case 16 => w & 0x00010000 != 0 case 17 => w & 0x00008000 != 0 case 18 => w & 0x00004000 != 0
    case 19 => w & 0x00002000 != 0 case 20 => w & 0x00001000 != 0 case 21 => w & 0x00000800 != 0
    case 22 => w & 0x00000400 != 0 case 23 => w & 0x00000200 != 0 case 24 => w & 0x00000100 != 0
    case 25 => w & 0x00000080 != 0 case 26 => w & 0x00000040 != 0 case 27 => w & 0x00000020 != 0
    case 28 => w & 0x00000010 != 0 case 29 => w & 0x00000008 != 0 case 30 => w & 0x00000004 != 0
    case 31 => w & 0x00000002 != 0 case _ => w & 0x00000001 != 0
  }

  predicate BlockBit(b: Pair, n: nat)
    requires 1 <= n <= 64
  {
    if n <= 32 then Bit(b.l, n) else Bit(b.r, n - 32)
  }

  /** Bit `n` of a byte, 0 the most significant. */
  predicate BitOfByte(b: Byte, n: nat)
    requires n < 8
  {
    match n
    case 0 => b & 0x80 != 0 case 1 => b & 0x40 != 0 case 2 => b & 0x20 != 0 case 3 => b & 0x10 != 0
    case 4 => b & 0x08 != 0 case 5 => b & 0x04 != 0 case 6 => b & 0x02 != 0 case _ => b & 0x01 != 0
  }

  function BitsOfBytes(bytes: seq<Byte>): (b: Bits)
    ensures |b| == 8 * |bytes|
  {
    seq(8 * |bytes|, i requires 0 <= i < 8 * |bytes| => BitOfByte(bytes[i / 8], i % 8))
  }

  // ----- the initial permutation and its inverse -----

  /** Rows of eight that start at 58, 60, 62, 64, 57, 59, 61, 63 and fall by eight. */
  function Ip(n: nat): (m: nat)
    requires 1 <= n <= 64
    ensures 1 <= m <= 64
  {
    var row, column := (n - 1) / 8, (n - 1) % 8;
    (if row < 4 then 58 + 2 * row else 49 + 2 * row) - 8 * column
  }

  /** Rows that start at 40 and fall by one from row to row; columns 8, 16, 24, 32 stand between 40, 48, 56, 64. */
  function IpInverse(n: nat): (m: nat)
    requires 1 <= n <= 64
    ensures 1 <= m <= 64
  {
    var row, column := (n - 1) / 8, (n - 1) % 8;
    (if column % 2 == 0 then 40 + 4 * column else 4 + 4 * column) - row
  }

  ghost predicate IsInitial(b: Pair, c: Pair) {
    forall n | 1 <= n <= 64 :: BlockBit(c, n) <==> BlockBit(b, Ip(n))
  }

  ghost predicate IsFinal(b: Pair, c: Pair) {
    forall n | 1 <= n <= 64 :: BlockBit(c, n) <==> BlockBit(b, IpInverse(n))
  }

  // ----- the cipher function -----

  /** The bit-selection table E: eight overlapping windows of six, around the end of the word. */
  function E(n: nat): (m: nat)
    requires 1 <= n <= 48
    ensures 1 <= m <= 32
  {
    var at := 4 * ((n - 1) / 6) + (n - 1) % 6;
    if at == 0 then 32 else if at == 33 then 1 else at
  }

  function Expanded(r: Word): (b: Bits)
    ensures |b| == 48
  {
    seq(48, i requires 0 <= i < 48 => Bit(r, E(i + 1)))
  }

  function XorBits(a: Bits, b: Bits): (c: Bits)
    requires |a| == |b|
    ensures |c| == |a|
  {
    seq(|a|, i requires 0 <= i < |a| => a[i] != b[i])
  }

  /** Six bits as the number they stand for. */
  function Six(b: Bits): Word
    requires |b| == 6
  {
    (if b[0] then 0x20 else 0) | (if b[1] then 0x10 else 0) | (if b[2] then 0x08 else 0) |
    (if b[3] then 0x04 else 0) | (if b[4] then 0x02 else 0) | (if b[5] then 0x01 else 0)
  }

  /** What goes to selection function `g`, counted from 0. */
  function Selector(r: Word, k: Bits, g: nat): Word
    requires |k| == 48 && g < 8
  {
    Six(XorBits(Expanded(r), k)[6 * g..6 * g + 6])
  }

  function TurnBack(w: Word): Word {
    (w >> 1) | (w << 31)
  }

  /** f(R, K) */
  function CipherFunction(s: Boxes, r: Word, k: Bits): Word
    requires |k| == 48
  {
    TurnBack(s.sp1(Selector(r, k, 0))) | TurnBack(s.sp2(Selector(r, k, 1))) |
    TurnBack(s.sp3(Selector(r, k, 2))) | TurnBack(s.sp4(Selector(r, k, 3))) |
    TurnBack(s.sp5(Selector(r, k, 4))) | TurnBack(s.sp6(Selector(r, k, 5))) |
    TurnBack(s.sp7(Selector(r, k, 6))) | TurnBack(s.sp8(Selector(r, k, 7)))
  }

  // ----- the key schedule -----

  /** Columns of the key read upwards: bits 1, 2, 3 of every byte for C, 7, 6, 5 for D, and bit 4 shared between them. */
  function PermutedChoice1(n: nat): (m: nat)
    requires 1 <= n <= 56
    ensures 1 <= m <= 64
  {
    if n <= 28 then 57 + (n - 1) / 8 - 8 * ((n - 1) % 8)
    else if n <= 52 then 63 - (n - 29) / 8 - 8 * ((n - 29) % 8)
    else 28 - 8 * (n - 53)
  }

  /** The eight rows of the table. */
  function PermutedChoice2(n: nat): (m: nat)
    requires 1 <= n <= 48
    ensures 1 <= m <= 56
  {
    match n
    case 1 => 14 case 2 => 17 case 3 => 11 case 4 => 24 case 5 => 1 case 6 => 5
    case 7 => 3 case 8 => 28 case 9 => 15 case 10 => 6 case 11 => 21 case 12 => 10
    case 13 => 23 case 14 => 19 case 15 => 12 case 16 => 4 case 17 => 26 case 18 => 8
    case 19 => 16 case 20 => 7 case 21 => 27 case 22 => 20 case 23 => 13 case 24 => 2
    case 25 => 41 case 26 => 52 case 27 => 31 case 28 => 37 case 29 => 47 case 30 => 55
    case 31 => 30 case 32 => 40 case 33 => 51 case 34 => 45 case 35 => 33 case 36 => 48
    case 37 => 44 case 38 => 49 case 39 => 39 case 40 => 56 case 41 => 34 case 42 => 53
    case 43 => 46 case 44 => 42 case 45 => 50 case 46 => 36 case 47 => 29 case _ => 32
  }

  /** Left shifts before round `i`: one place in rounds 1, 2, 9 and 16, two in the others. */
  function Shifts(i: nat): nat {
    if i == 1 || i == 2 || i == 9 || i == 16 then 1 else 2
  }

  function ShiftLeft(b: Bits, n: nat): (c: Bits)
    requires n <= |b|
    ensures |c| == |b|
  {
    b[n..] + b[..n]
  }

  datatype Halves = Halves(c: Bits, d: Bits)

  /** C and D of round `i`. */
  function KeyHalves(key: Bits, i: nat): (h: Halves)
    requires |key| == 64
    ensures |h.c| == |h.d| == 28
  {
    if i == 0 then
      Halves(seq(28, j requires 0 <= j < 28 => key[PermutedChoice1(j + 1) - 1]),
             seq(28, j requires 0 <= j < 28 => key[PermutedChoice1(j + 29) - 1]))
    else
      var h := KeyHalves(key, i - 1);
      Halves(ShiftLeft(h.c, Shifts(i)), ShiftLeft(h.d, Shifts(i)))
  }

  /** K of round `i`. */
  function RoundKey(key: Bits, i: nat): (k: Bits)
    requires |key| == 64
    ensures |k| == 48
  {
    var h := KeyHalves(key, i);
    seq(48, j requires 0 <= j < 48 => (h.c + h.d)[PermutedChoice2(j + 1) - 1])
  }

  // ----- enciphering and deciphering -----

  /** The first `n` rounds; deciphering takes the keys in the opposite order. */
  function StandardRounds(s: Boxes, key: Bits, decipher: bool, b: Pair, n: nat): Pair
    requires |key| == 64 && n <= 16
  {
    if n == 0 then b
    else
      var p := StandardRounds(s, key, decipher, b, n - 1);
      Pair(p.r, p.l ^ CipherFunction(s, p.r, RoundKey(key, if decipher then 17 - n else n)))
  }

  /** `out` is the block `b` enciphered, or deciphered, under the key. */
  ghost predicate IsDes(s: Boxes, key: Bits, decipher: bool, b: Pair, out: Pair)
    requires |key| == 64
  {
    exists x :: IsInitial(b, x) && IsFinal(Exchange(StandardRounds(s, key, decipher, x, 16)), out)
  }
}
