/** The key schedule of firefox/vncpwd/d3des.c is that of the standard, for the key with the bits of every byte reversed. */
module DesSchedules {

  import opened Des
  import opened DesKeys
  import opened DesStandard

  // ----- the key as the standard numbers it -----

  function Mirrored(b: Byte): Byte {
    ((b & 0x01) << 7) | ((b & 0x02) << 5) | ((b & 0x04) << 3) | ((b & 0x08) << 1) |
    ((b & 0x10) >> 1) | ((b & 0x20) >> 3) | ((b & 0x40) >> 5) | ((b & 0x80) >> 7)
  }

  /** Every byte of the key read backwards: VNC numbers the bits of a byte from the least significant. */
  function MirroredKey(key: Key): Key {
    seq(8, i requires 0 <= i < 8 => Mirrored(key[i]))
  }

  function KeyBits(key: Key): (b: Bits)
    ensures |b| == 64
  {
    seq(64, l requires 0 <= l < 64 => KeyBit(key, l))
  }

  lemma MirroredBits(b: Byte)
    ensures (Mirrored(b) & 0x80 != 0 <==> b & 0x01 != 0) && (Mirrored(b) & 0x40 != 0 <==> b & 0x02 != 0)
    ensures (Mirrored(b) & 0x20 != 0 <==> b & 0x04 != 0) && (Mirrored(b) & 0x10 != 0 <==> b & 0x08 != 0)
    ensures (Mirrored(b) & 0x08 != 0 <==> b & 0x10 != 0) && (Mirrored(b) & 0x04 != 0 <==> b & 0x20 != 0)
    ensures (Mirrored(b) & 0x02 != 0 <==> b & 0x40 != 0) && (Mirrored(b) & 0x01 != 0 <==> b & 0x80 != 0)
  {
  }

  lemma MirroredBit(b: Byte, m: nat)
    requires m < 8
    ensures BitOfByte(Mirrored(b), m) <==> b & ByteBit(m) != 0
  {
    MirroredBits(b);
    hide Mirrored;
    match m
    case 0 => case 1 => case 2 => case 3 => case 4 => case 5 => case 6 => case _ =>
  }

  lemma KeyIsMirrored(key: Key)
    ensures KeyBits(key) == BitsOfBytes(MirroredKey(key))
  {
    hide Mirrored;
    hide BitOfByte;
    hide ByteBit;
    forall l | 0 <= l < 64 ensures KeyBits(key)[l] == BitsOfBytes(MirroredKey(key))[l] {
      MirroredBit(key[l / 8], l % 8);
    }
  }

  // ----- choice, shifts and choice -----

  lemma Choice1C()
    ensures PermutedChoice1(1) == 57 && PermutedChoice1(2) == 49 && PermutedChoice1(3) == 41 && PermutedChoice1(4) == 33
    ensures PermutedChoice1(5) == 25 && PermutedChoice1(6) == 17 && PermutedChoice1(7) == 9 && PermutedChoice1(8) == 1
    ensures PermutedChoice1(9) == 58 && PermutedChoice1(10) == 50 && PermutedChoice1(11) == 42
    ensures PermutedChoice1(12) == 34
    ensures PermutedChoice1(13) == 26 && PermutedChoice1(14) == 18 && PermutedChoice1(15) == 10
    ensures PermutedChoice1(16) == 2
    ensures PermutedChoice1(17) == 59 && PermutedChoice1(18) == 51 && PermutedChoice1(19) == 43
    ensures PermutedChoice1(20) == 35
    ensures PermutedChoice1(21) == 27 && PermutedChoice1(22) == 19 && PermutedChoice1(23) == 11
    ensures PermutedChoice1(24) == 3
    ensures PermutedChoice1(25) == 60 && PermutedChoice1(26) == 52 && PermutedChoice1(27) == 44
    ensures PermutedChoice1(28) == 36
  {
  }

  lemma Pc1ConformsC(j: nat)
    requires j < 28
    ensures Pc1(j) + 1 == PermutedChoice1(j + 1)
  {
    hide PermutedChoice1;
    Choice1C();
    match j
    case 0 => case 1 => case 2 => case 3 => case 4 => case 5 => case 6 => case 7 => case 8 => case 9 =>
    case 10 => case 11 => case 12 => case 13 => case 14 => case 15 => case 16 => case 17 => case 18 => case 19 =>
    case 20 => case 21 => case 22 => case 23 => case 24 => case 25 => case 26 => case _ =>
  }

  lemma Choice1D()
    ensures PermutedChoice1(29) == 63 && PermutedChoice1(30) == 55 && PermutedChoice1(31) == 47
    ensures PermutedChoice1(32) == 39
    ensures PermutedChoice1(33) == 31 && PermutedChoice1(34) == 23 && PermutedChoice1(35) == 15
    ensures PermutedChoice1(36) == 7
    ensures PermutedChoice1(37) == 62 && PermutedChoice1(38) == 54 && PermutedChoice1(39) == 46
    ensures PermutedChoice1(40) == 38
    ensures PermutedChoice1(41) == 30 && PermutedChoice1(42) == 22
  {
  }

  lemma Pc1ConformsD(j: nat)
    requires 28 <= j < 42
    ensures Pc1(j) + 1 == PermutedChoice1(j + 1)
  {
    hide PermutedChoice1;
    Choice1D();
    match j
    case 28 => case 29 => case 30 => case 31 => case 32 => case 33 => case 34 => case 35 => case 36 => case 37 =>
    case 38 => case 39 => case 40 => case _ =>
  }

  lemma Choice1Rest()
    ensures PermutedChoice1(43) == 14 && PermutedChoice1(44) == 6 && PermutedChoice1(45) == 61
    ensures PermutedChoice1(46) == 53
    ensures PermutedChoice1(47) == 45 && PermutedChoice1(48) == 37 && PermutedChoice1(49) == 29
    ensures PermutedChoice1(50) == 21
    ensures PermutedChoice1(51) == 13 && PermutedChoice1(52) == 5 && PermutedChoice1(53) == 28
    ensures PermutedChoice1(54) == 20
    ensures PermutedChoice1(55) == 12 && PermutedChoice1(56) == 4
  {
  }

  lemma Pc1ConformsRest(j: nat)
    requires 42 <= j < 56
    ensures Pc1(j) + 1 == PermutedChoice1(j + 1)
  {
    hide PermutedChoice1;
    Choice1Rest();
    match j
    case 42 => case 43 => case 44 => case 45 => case 46 => case 47 => case 48 => case 49 => case 50 => case 51 =>
    case 52 => case 53 => case 54 => case _ =>
  }

  lemma Pc1Conforms(j: nat)
    requires j < 56
    ensures Pc1(j) + 1 == PermutedChoice1(j + 1)
  {
    hide Pc1;
    hide PermutedChoice1;
    if j < 28 { Pc1ConformsC(j); } else if j < 42 { Pc1ConformsD(j); } else { Pc1ConformsRest(j); }
  }

  lemma Pc2ConformsC(j: nat)
    requires j < 24
    ensures Pc2(j) + 1 == PermutedChoice2(j + 1)
  {
    match j
    case 0 => case 1 => case 2 => case 3 => case 4 => case 5 => case 6 => case 7 => case 8 => case 9 => case 10 =>
    case 11 => case 12 => case 13 => case 14 => case 15 => case 16 => case 17 => case 18 => case 19 => case 20 =>
    case 21 => case 22 => case _ =>
  }

  lemma Pc2ConformsD(j: nat)
    requires 24 <= j < 48
    ensures Pc2(j) + 1 == PermutedChoice2(j + 1)
  {
    match j
    case 24 => case 25 => case 26 => case 27 => case 28 => case 29 => case 30 => case 31 => case 32 => case 33 =>
    case 34 => case 35 => case 36 => case 37 => case 38 => case 39 => case 40 => case 41 => case 42 => case 43 =>
    case 44 => case 45 => case 46 => case _ =>
  }

  lemma Pc2Conforms(j: nat)
    requires j < 48
    ensures Pc2(j) + 1 == PermutedChoice2(j + 1)
  {
    hide Pc2;
    hide PermutedChoice2;
    if j < 24 { Pc2ConformsC(j); } else { Pc2ConformsD(j); }
  }

  /** All the left shifts up to round `i`. */
  function Total(i: nat): nat {
    if i == 0 then 0 else Total(i - 1) + Shifts(i)
  }

  lemma TotRotConforms(i: nat)
    requires i < 16
    ensures TotRot(i) == Total(i + 1)
  {
    assert Total(1) == 1;
    assert Total(2) == 2;
    assert Total(3) == 4;
    assert Total(4) == 6;
    assert Total(5) == 8;
    assert Total(6) == 10;
    assert Total(7) == 12;
    assert Total(8) == 14;
    assert Total(9) == 15;
    assert Total(10) == 17;
    assert Total(11) == 19;
    assert Total(12) == 21;
    assert Total(13) == 23;
    assert Total(14) == 25;
    assert Total(15) == 27;
    assert Total(16) == 28;
  }

  lemma ShiftedBit(b: Bits, n: nat, j: nat)
    requires n <= 2 && |b| == 28 && j < 28
    ensures ShiftLeft(b, n)[j] == b[(j + n) % 28]
  {
  }

  lemma FewShifts(i: nat)
    ensures Shifts(i) <= 2
  {
  }

  lemma {:induction false} HalvesMeaning(key: Bits, i: nat, j: nat)
    requires |key| == 64 && j < 28
    ensures KeyHalves(key, i).c[j] == key[PermutedChoice1((j + Total(i)) % 28 + 1) - 1]
    ensures KeyHalves(key, i).d[j] == key[PermutedChoice1((j + Total(i)) % 28 + 29) - 1]
    decreases i
  {
    hide PermutedChoice1;
    hide ShiftLeft;
    hide Shifts;
    if i > 0 {
      FewShifts(i);
      var h := KeyHalves(key, i - 1);
      ShiftedBit(h.c, Shifts(i), j);
      ShiftedBit(h.d, Shifts(i), j);
      HalvesMeaning(key, i - 1, (j + Shifts(i)) % 28);
      AroundTwice(j + Shifts(i), Total(i - 1));
      assert j + Shifts(i) + Total(i - 1) == j + Total(i);
    }
  }

  lemma AroundTwice(x: nat, t: nat)
    ensures (x % 28 + t) % 28 == (x + t) % 28
  {
    var q := x / 28;
    assert x + t == 28 * q + (x % 28 + t);
  }

  lemma RotatedConforms(i: nat, j: nat)
    requires i < 16 && j < 56
    ensures Rotated(i, j) == if j < 28 then (j + Total(i + 1)) % 28 else (j - 28 + Total(i + 1)) % 28 + 28
  {
    TotRotConforms(i);
    hide Total;
  }

  /** The bit a round takes from the key is the one the standard takes. */
  lemma RoundBitConforms(key: Key, i: nat, j: nat)
    requires i < 16 && j < 48
    ensures RoundBit(key, i, j) <==> RoundKey(KeyBits(key), i + 1)[j]
  {
    hide KeyBit;
    hide Pc1;
    hide Pc2;
    hide PermutedChoice2;
    hide Rotated;
    hide PermutedChoice1;
    hide KeyHalves;
    hide RoundKey;
    hide Total;
    var bits, l := KeyBits(key), Pc2(j);
    Pc2Conforms(j);
    RotatedConforms(i, l);
    Pc1Conforms(Rotated(i, l));
    HalvesMeaning(bits, i + 1, if l < 28 then l else l - 28);
    ChosenBit(bits, i + 1, j, l);
  }

  lemma ChosenBit(bits: Bits, i: nat, j: nat, l: nat)
    requires |bits| == 64 && j < 48 && l < 56 && PermutedChoice2(j + 1) == l + 1
    ensures RoundKey(bits, i)[j] == if l < 28 then KeyHalves(bits, i).c[l] else KeyHalves(bits, i).d[l - 28]
  {
    hide KeyHalves;
    hide PermutedChoice2;
  }

  // ----- the key words hold the six-bit groups -----

  /** Bits `6 g` to `6 g + 5` of the round key. */
  function Group(key: Key, i: nat, g: nat): (b: Bits)
    requires i < 16 && g < 8
    ensures |b| == 6
  {
    RoundKey(KeyBits(key), i + 1)[6 * g..6 * g + 6]
  }

  function Weight(b: bool, w: Word): Word {
    if b then w else 0
  }


  function Or6(a: Word, b: Word, c: Word, d: Word, e: Word, f: Word): Word {
    Or(Or(Or(Or(Or(a, b), c), d), e), f)
  }

  lemma SixIsWeights(b: Bits)
    requires |b| == 6
    ensures Six(b) == Or6(Weight(b[0], 0x20), Weight(b[1], 0x10), Weight(b[2], 0x08),
                          Weight(b[3], 0x04), Weight(b[4], 0x02), Weight(b[5], 0x01))
  {
  }

  lemma OrNothing(x: Word)
    ensures Or(x, 0) == x
  {
  }

  lemma OrWeight(x: Word, b: bool, w: Word)
    ensures Or(x, Weight(b, w)) == if b then Or(x, w) else x
  {
    hide Or;
    OrNothing(x);
  }

  lemma GroupBit(key: Key, i: nat, from: nat, g: nat, k: nat)
    requires i < 16 && g < 4 && k < 6 && (from == 0 || from == 24)
    ensures Group(key, i, from / 6 + g)[k] == RoundKey(KeyBits(key), i + 1)[from + (6 * g + k)]
  {
    hide RoundKey;
    assert 6 * (from / 6) == from;
  }

  lemma PackNext(key: Key, i: nat, from: nat, n: nat)
    requires i < 16 && n < 24 && (from == 0 || from == 24)
    ensures Pack(key, i, from, n + 1) ==
            if RoundBit(key, i, from + n) then Or(Pack(key, i, from, n), BigByte(n)) else Pack(key, i, from, n)
  {
  }

  lemma PackStep(key: Key, i: nat, from: nat, g: nat, k: nat)
    requires i < 16 && g < 4 && k < 6 && (from == 0 || from == 24)
    ensures Pack(key, i, from, 6 * g + k + 1) ==
            Or(Pack(key, i, from, 6 * g + k), Weight(Group(key, i, from / 6 + g)[k], BigByte(6 * g + k)))
  {
    GroupBit(key, i, from, g, k);
    RoundBitConforms(key, i, from + (6 * g + k));
    PackNext(key, i, from, 6 * g + k);
    hide Group;
    hide RoundKey;
    hide RoundBit;
    hide Pack;
    hide Or;
    OrWeight(Pack(key, i, from, 6 * g + k), RoundBit(key, i, from + (6 * g + k)), BigByte(6 * g + k));
  }

  lemma BigBytes0()
    ensures BigByte(0) == 0x800000 && BigByte(1) == 0x400000 && BigByte(2) == 0x200000
    ensures BigByte(3) == 0x100000 && BigByte(4) == 0x080000 && BigByte(5) == 0x040000
  {
  }

  lemma WeightAt18(b: bool)
    ensures Weight(b, 0x800000) == Weight(b, 0x20) << 18 && Weight(b, 0x400000) == Weight(b, 0x10) << 18
    ensures Weight(b, 0x200000) == Weight(b, 0x08) << 18 && Weight(b, 0x100000) == Weight(b, 0x04) << 18
    ensures Weight(b, 0x080000) == Weight(b, 0x02) << 18 && Weight(b, 0x040000) == Weight(b, 0x01) << 18
  {
    if b {} else {}
  }

  lemma OrAt18(x: Word, a: Word, b: Word, c: Word, d: Word, e: Word, f: Word)
    ensures Or(Or(Or(Or(Or(Or(x, a << 18), b << 18), c << 18), d << 18), e << 18), f << 18) ==
            Or(x, Or6(a, b, c, d, e, f) << 18)
  {
  }

  lemma SixAt18(x: Word, b: Bits)
    requires |b| == 6
    ensures Or(Or(Or(Or(Or(Or(x, Weight(b[0], 0x800000)), Weight(b[1], 0x400000)), Weight(b[2], 0x200000)),
                        Weight(b[3], 0x100000)), Weight(b[4], 0x080000)), Weight(b[5], 0x040000)) ==
            Or(x, Six(b) << 18)
  {
    SixIsWeights(b);
    hide Six;
    WeightAt18(b[0]);
    WeightAt18(b[1]);
    WeightAt18(b[2]);
    WeightAt18(b[3]);
    WeightAt18(b[4]);
    WeightAt18(b[5]);
    hide Weight;
    hide Or;
    hide Or6;
    OrAt18(x, Weight(b[0], 0x20), Weight(b[1], 0x10), Weight(b[2], 0x08),
           Weight(b[3], 0x04), Weight(b[4], 0x02), Weight(b[5], 0x01));
  }

  lemma Pack6(key: Key, i: nat, from: nat)
    requires i < 16 && (from == 0 || from == 24)
    ensures Pack(key, i, from, 6) == Or(Pack(key, i, from, 0), Six(Group(key, i, from / 6)) << 18)
  {
    hide Pack;
    hide Or;
    hide Group;
    hide Six;
    hide Weight;
    BigBytes0();
    hide BigByte;
    PackStep(key, i, from, 0, 0);
    PackStep(key, i, from, 0, 1);
    PackStep(key, i, from, 0, 2);
    PackStep(key, i, from, 0, 3);
    PackStep(key, i, from, 0, 4);
    PackStep(key, i, from, 0, 5);
    SixAt18(Pack(key, i, from, 0), Group(key, i, from / 6));
  }

  lemma BigBytes6()
    ensures BigByte(6) == 0x020000 && BigByte(7) == 0x010000 && BigByte(8) == 0x008000
    ensures BigByte(9) == 0x004000 && BigByte(10) == 0x002000 && BigByte(11) == 0x001000
  {
  }

  lemma WeightAt12(b: bool)
    ensures Weight(b, 0x020000) == Weight(b, 0x20) << 12 && Weight(b, 0x010000) == Weight(b, 0x10) << 12
    ensures Weight(b, 0x008000) == Weight(b, 0x08) << 12 && Weight(b, 0x004000) == Weight(b, 0x04) << 12
    ensures Weight(b, 0x002000) == Weight(b, 0x02) << 12 && Weight(b, 0x001000) == Weight(b, 0x01) << 12
  {
    if b {} else {}
  }

  lemma OrAt12(x: Word, a: Word, b: Word, c: Word, d: Word, e: Word, f: Word)
    ensures Or(Or(Or(Or(Or(Or(x, a << 12), b << 12), c << 12), d << 12), e << 12), f << 12) ==
            Or(x, Or6(a, b, c, d, e, f) << 12)
  {
  }

  lemma SixAt12(x: Word, b: Bits)
    requires |b| == 6
    ensures Or(Or(Or(Or(Or(Or(x, Weight(b[0], 0x020000)), Weight(b[1], 0x010000)), Weight(b[2], 0x008000)),
                        Weight(b[3], 0x004000)), Weight(b[4], 0x002000)), Weight(b[5], 0x001000)) ==
            Or(x, Six(b) << 12)
  {
    SixIsWeights(b);
    hide Six;
    WeightAt12(b[0]);
    WeightAt12(b[1]);
    WeightAt12(b[2]);
    WeightAt12(b[3]);
    WeightAt12(b[4]);
    WeightAt12(b[5]);
    hide Weight;
    hide Or;
    hide Or6;
    OrAt12(x, Weight(b[0], 0x20), Weight(b[1], 0x10), Weight(b[2], 0x08),
           Weight(b[3], 0x04), Weight(b[4], 0x02), Weight(b[5], 0x01));
  }

  lemma Pack12(key: Key, i: nat, from: nat)
    requires i < 16 && (from == 0 || from == 24)
    ensures Pack(key, i, from, 12) == Or(Pack(key, i, from, 6), Six(Group(key, i, from / 6 + 1)) << 12)
  {
    hide Pack;
    hide Or;
    hide Group;
    hide Six;
    hide Weight;
    BigBytes6();
    hide BigByte;
    PackStep(key, i, from, 1, 0);
    PackStep(key, i, from, 1, 1);
    PackStep(key, i, from, 1, 2);
    PackStep(key, i, from, 1, 3);
    PackStep(key, i, from, 1, 4);
    PackStep(key, i, from, 1, 5);
    SixAt12(Pack(key, i, from, 6), Group(key, i, from / 6 + 1));
  }

  lemma BigBytes12()
    ensures BigByte(12) == 0x000800 && BigByte(13) == 0x000400 && BigByte(14) == 0x000200
    ensures BigByte(15) == 0x000100 && BigByte(16) == 0x000080 && BigByte(17) == 0x000040
  {
  }

  lemma WeightAt6(b: bool)
    ensures Weight(b, 0x000800) == Weight(b, 0x20) << 6 && Weight(b, 0x000400) == Weight(b, 0x10) << 6
    ensures Weight(b, 0x000200) == Weight(b, 0x08) << 6 && Weight(b, 0x000100) == Weight(b, 0x04) << 6
    ensures Weight(b, 0x000080) == Weight(b, 0x02) << 6 && Weight(b, 0x000040) == Weight(b, 0x01) << 6
  {
    if b {} else {}
  }

  lemma OrAt6(x: Word, a: Word, b: Word, c: Word, d: Word, e: Word, f: Word)
    ensures Or(Or(Or(Or(Or(Or(x, a << 6), b << 6), c << 6), d << 6), e << 6), f << 6) ==
            Or(x, Or6(a, b, c, d, e, f) << 6)
  {
  }

  lemma SixAt6(x: Word, b: Bits)
    requires |b| == 6
    ensures Or(Or(Or(Or(Or(Or(x, Weight(b[0], 0x000800)), Weight(b[1], 0x000400)), Weight(b[2], 0x000200)),
                        Weight(b[3], 0x000100)), Weight(b[4], 0x000080)), Weight(b[5], 0x000040)) ==
            Or(x, Six(b) << 6)
  {
    SixIsWeights(b);
    hide Six;
    WeightAt6(b[0]);
    WeightAt6(b[1]);
    WeightAt6(b[2]);
    WeightAt6(b[3]);
    WeightAt6(b[4]);
    WeightAt6(b[5]);
    hide Weight;
    hide Or;
    hide Or6;
    OrAt6(x, Weight(b[0], 0x20), Weight(b[1], 0x10), Weight(b[2], 0x08),
           Weight(b[3], 0x04), Weight(b[4], 0x02), Weight(b[5], 0x01));
  }

  lemma Pack18(key: Key, i: nat, from: nat)
    requires i < 16 && (from == 0 || from == 24)
    ensures Pack(key, i, from, 18) == Or(Pack(key, i, from, 12), Six(Group(key, i, from / 6 + 2)) << 6)
  {
    hide Pack;
    hide Or;
    hide Group;
    hide Six;
    hide Weight;
    BigBytes12();
    hide BigByte;
    PackStep(key, i, from, 2, 0);
    PackStep(key, i, from, 2, 1);
    PackStep(key, i, from, 2, 2);
    PackStep(key, i, from, 2, 3);
    PackStep(key, i, from, 2, 4);
    PackStep(key, i, from, 2, 5);
    SixAt6(Pack(key, i, from, 12), Group(key, i, from / 6 + 2));
  }

  lemma BigBytes18()
    ensures BigByte(18) == 0x000020 && BigByte(19) == 0x000010 && BigByte(20) == 0x000008
    ensures BigByte(21) == 0x000004 && BigByte(22) == 0x000002 && BigByte(23) == 0x000001
  {
  }

  lemma OrApart(x: Word, a: Word, b: Word)
    ensures Or(Or(x, a), b) == Or(x, Or(a, b))
  {
  }

  lemma OrAt0(x: Word, a: Word, b: Word, c: Word, d: Word, e: Word, f: Word)
    ensures Or(Or(Or(Or(Or(Or(x, a), b), c), d), e), f) == Or(x, Or6(a, b, c, d, e, f))
  {
    hide Or;
    OrApart(x, a, b);
    OrApart(x, Or(a, b), c);
    OrApart(x, Or(Or(a, b), c), d);
    OrApart(x, Or(Or(Or(a, b), c), d), e);
    OrApart(x, Or(Or(Or(Or(a, b), c), d), e), f);
  }

  lemma SixAt0(x: Word, b: Bits)
    requires |b| == 6
    ensures Or(Or(Or(Or(Or(Or(x, Weight(b[0], 0x000020)), Weight(b[1], 0x000010)), Weight(b[2], 0x000008)),
                        Weight(b[3], 0x000004)), Weight(b[4], 0x000002)), Weight(b[5], 0x000001)) ==
            Or(x, Six(b))
  {
    SixIsWeights(b);
    hide Six;
    hide Weight;
    hide Or;
    hide Or6;
    OrAt0(x, Weight(b[0], 0x20), Weight(b[1], 0x10), Weight(b[2], 0x08),
           Weight(b[3], 0x04), Weight(b[4], 0x02), Weight(b[5], 0x01));
  }

  lemma Pack24(key: Key, i: nat, from: nat)
    requires i < 16 && (from == 0 || from == 24)
    ensures Pack(key, i, from, 24) == Or(Pack(key, i, from, 18), Six(Group(key, i, from / 6 + 3)))
  {
    hide Pack;
    hide Or;
    hide Group;
    hide Six;
    hide Weight;
    BigBytes18();
    hide BigByte;
    PackStep(key, i, from, 3, 0);
    PackStep(key, i, from, 3, 1);
    PackStep(key, i, from, 3, 2);
    PackStep(key, i, from, 3, 3);
    PackStep(key, i, from, 3, 4);
    PackStep(key, i, from, 3, 5);
    SixAt0(Pack(key, i, from, 18), Group(key, i, from / 6 + 3));
  }

  lemma FourBuilt(p: Word, a: Word, b: Word, c: Word, d: Word)
    requires p == 0
    ensures Or(Or(Or(Or(p, a << 18), b << 12), c << 6), d) == Four(a, b, c, d)
  {
    PutFirst(p, a << 18);
    hide Or;
  }

  lemma PutFirst(p: Word, x: Word)
    requires p == 0
    ensures Or(p, x) == x
  {
  }

  lemma PackGroups(key: Key, i: nat, from: nat)
    requires i < 16 && (from == 0 || from == 24)
    ensures Pack(key, i, from, 24) ==
            Four(Six(Group(key, i, from / 6)), Six(Group(key, i, from / 6 + 1)), Six(Group(key, i, from / 6 + 2)),
                 Six(Group(key, i, from / 6 + 3)))
  {
    NothingPacked(key, i, from);
    hide Pack;
    hide Group;
    hide Six;
    hide Or;
    hide Four;
    Pack6(key, i, from);
    Pack12(key, i, from);
    Pack18(key, i, from);
    Pack24(key, i, from);
    FourBuilt(Pack(key, i, from, 0), Six(Group(key, i, from / 6)), Six(Group(key, i, from / 6 + 1)),
              Six(Group(key, i, from / 6 + 2)), Six(Group(key, i, from / 6 + 3)));
  }

  lemma NothingPacked(key: Key, i: nat, from: nat)
    requires i < 16 && (from == 0 || from == 24)
    ensures Pack(key, i, from, 0) == 0
  {
  }

  /** Four groups of six bits in one word. */
  function Four(a: Word, b: Word, c: Word, d: Word): Word {
    Or(Or(Or(a << 18, b << 12), c << 6), d)
  }

  predicate IsSix(a: Word) {
    a & !0x3f == 0
  }

  lemma SixIsSix(b: Bits)
    requires |b| == 6
    ensures IsSix(Six(b))
  {
  }

  /** Groups a, b, c, d of a key word, a byte each. */
  function Bytes4(a: Word, b: Word, c: Word, d: Word): Word {
    (a << 24) | (b << 16) | (c << 8) | d
  }

  lemma CookGroups(a: Word, b: Word, c: Word, d: Word, e: Word, f: Word, g: Word, h: Word)
    requires IsSix(a) && IsSix(b) && IsSix(c) && IsSix(d) && IsSix(e) && IsSix(f) && IsSix(g) && IsSix(h)
    ensures Cook0(Four(a, b, c, d), Four(e, f, g, h)) == Bytes4(a, c, e, g)
    ensures Cook1(Four(a, b, c, d), Four(e, f, g, h)) == Bytes4(b, d, f, h)
  {
  }

  /** The two words of a round: groups 0, 2, 4, 6 in the first and 1, 3, 5, 7 in the second, a byte each. */
  lemma KeyWordGroups(key: Key, i: nat)
    requires i < 16
    ensures KeyWord(key, 2 * i) ==
            Bytes4(Six(Group(key, i, 0)), Six(Group(key, i, 2)), Six(Group(key, i, 4)), Six(Group(key, i, 6)))
    ensures KeyWord(key, 2 * i + 1) ==
            Bytes4(Six(Group(key, i, 1)), Six(Group(key, i, 3)), Six(Group(key, i, 5)), Six(Group(key, i, 7)))
  {
    hide Bytes4;
    hide Pack;
    hide Group;
    hide Six;
    hide Four;
    hide Cook0;
    hide Cook1;
    hide IsSix;
    PackGroups(key, i, 0);
    PackGroups(key, i, 24);
    SixIsSix(Group(key, i, 0));
    SixIsSix(Group(key, i, 1));
    SixIsSix(Group(key, i, 2));
    SixIsSix(Group(key, i, 3));
    SixIsSix(Group(key, i, 4));
    SixIsSix(Group(key, i, 5));
    SixIsSix(Group(key, i, 6));
    SixIsSix(Group(key, i, 7));
    CookGroups(Six(Group(key, i, 0)), Six(Group(key, i, 1)), Six(Group(key, i, 2)), Six(Group(key, i, 3)),
               Six(Group(key, i, 4)), Six(Group(key, i, 5)), Six(Group(key, i, 6)), Six(Group(key, i, 7)));
  }
}
