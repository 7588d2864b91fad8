/** What firefox/vncpwd/d3des.c computes is the Data Encryption Standard, under the key with every byte read backwards. */
module DesConforms {

  import opened Des
  import opened DesKeys
  import opened DesModes
  import opened DesStandard
  import opened DesPermutations
  import opened DesSchedules

  // ----- the six-bit lookups are the windows of E -----

  lemma Window0Masks(r: Word)
    ensures (Turned(RotateLeft(r)) >> 24) & 0x3f ==
            (if r & 0x00000001 != 0 then 0x20 else 0) | (if r & 0x80000000 != 0 then 0x10 else 0) |
            (if r & 0x40000000 != 0 then 0x08 else 0) |
            (if r & 0x20000000 != 0 then 0x04 else 0) | (if r & 0x10000000 != 0 then 0x02 else 0) |
            (if r & 0x08000000 != 0 then 0x01 else 0)
  {
  }

  lemma Window0(r: Word)
    ensures (Turned(RotateLeft(r)) >> 24) & 0x3f == Six(Expanded(r)[0..6])
  {
    hide Turned;
    hide RotateLeft;
    hide Bit;
    Window0Masks(r);
    BitMasks(r);
    WindowBits0(r);
    hide Expanded;
  }

  lemma Places0()
    ensures E(1) == 32 && E(2) == 1 && E(3) == 2
    ensures E(4) == 3 && E(5) == 4 && E(6) == 5
  {
  }

  lemma WindowBits0(r: Word)
    ensures Expanded(r)[0..6] == [Bit(r, 32), Bit(r, 1), Bit(r, 2), Bit(r, 3), Bit(r, 4), Bit(r, 5)]
  {
    hide Bit;
    hide E;
    Places0();
  }

  lemma Window1Masks(r: Word)
    ensures (RotateLeft(r) >> 24) & 0x3f ==
            (if r & 0x10000000 != 0 then 0x20 else 0) | (if r & 0x08000000 != 0 then 0x10 else 0) |
            (if r & 0x04000000 != 0 then 0x08 else 0) |
            (if r & 0x02000000 != 0 then 0x04 else 0) | (if r & 0x01000000 != 0 then 0x02 else 0) |
            (if r & 0x00800000 != 0 then 0x01 else 0)
  {
  }

  lemma Window1(r: Word)
    ensures (RotateLeft(r) >> 24) & 0x3f == Six(Expanded(r)[6..12])
  {
    hide Turned;
    hide RotateLeft;
    hide Bit;
    Window1Masks(r);
    BitMasks(r);
    WindowBits1(r);
    hide Expanded;
  }

  lemma Places1()
    ensures E(7) == 4 && E(8) == 5 && E(9) == 6
    ensures E(10) == 7 && E(11) == 8 && E(12) == 9
  {
  }

  lemma WindowBits1(r: Word)
    ensures Expanded(r)[6..12] == [Bit(r, 4), Bit(r, 5), Bit(r, 6), Bit(r, 7), Bit(r, 8), Bit(r, 9)]
  {
    hide Bit;
    hide E;
    Places1();
  }

  lemma Window2Masks(r: Word)
    ensures (Turned(RotateLeft(r)) >> 16) & 0x3f ==
            (if r & 0x01000000 != 0 then 0x20 else 0) | (if r & 0x00800000 != 0 then 0x10 else 0) |
            (if r & 0x00400000 != 0 then 0x08 else 0) |
            (if r & 0x00200000 != 0 then 0x04 else 0) | (if r & 0x00100000 != 0 then 0x02 else 0) |
            (if r & 0x00080000 != 0 then 0x01 else 0)
  {
  }

  lemma Window2(r: Word)
    ensures (Turned(RotateLeft(r)) >> 16) & 0x3f == Six(Expanded(r)[12..18])
  {
    hide Turned;
    hide RotateLeft;
    hide Bit;
    Window2Masks(r);
    BitMasks(r);
    WindowBits2(r);
    hide Expanded;
  }

  lemma Places2()
    ensures E(13) == 8 && E(14) == 9 && E(15) == 10
    ensures E(16) == 11 && E(17) == 12 && E(18) == 13
  {
  }

  lemma WindowBits2(r: Word)
    ensures Expanded(r)[12..18] == [Bit(r, 8), Bit(r, 9), Bit(r, 10), Bit(r, 11), Bit(r, 12), Bit(r, 13)]
  {
    hide Bit;
    hide E;
    Places2();
  }

  lemma Window3Masks(r: Word)
    ensures (RotateLeft(r) >> 16) & 0x3f ==
            (if r & 0x00100000 != 0 then 0x20 else 0) | (if r & 0x00080000 != 0 then 0x10 else 0) |
            (if r & 0x00040000 != 0 then 0x08 else 0) |
            (if r & 0x00020000 != 0 then 0x04 else 0) | (if r & 0x00010000 != 0 then 0x02 else 0) |
            (if r & 0x00008000 != 0 then 0x01 else 0)
  {
  }

  lemma Window3(r: Word)
    ensures (RotateLeft(r) >> 16) & 0x3f == Six(Expanded(r)[18..24])
  {
    hide Turned;
    hide RotateLeft;
    hide Bit;
    Window3Masks(r);
    BitMasks(r);
    WindowBits3(r);
    hide Expanded;
  }

  lemma Places3()
    ensures E(19) == 12 && E(20) == 13 && E(21) == 14
    ensures E(22) == 15 && E(23) == 16 && E(24) == 17
  {
  }

  lemma WindowBits3(r: Word)
    ensures Expanded(r)[18..24] == [Bit(r, 12), Bit(r, 13), Bit(r, 14), Bit(r, 15), Bit(r, 16), Bit(r, 17)]
  {
    hide Bit;
    hide E;
    Places3();
  }

  lemma Window4Masks(r: Word)
    ensures (Turned(RotateLeft(r)) >> 8) & 0x3f ==
            (if r & 0x00010000 != 0 then 0x20 else 0) | (if r & 0x00008000 != 0 then 0x10 else 0) |
            (if r & 0x00004000 != 0 then 0x08 else 0) |
            (if r & 0x00002000 != 0 then 0x04 else 0) | (if r & 0x00001000 != 0 then 0x02 else 0) |
            (if r & 0x00000800 != 0 then 0x01 else 0)
  {
  }

  lemma Window4(r: Word)
    ensures (Turned(RotateLeft(r)) >> 8) & 0x3f == Six(Expanded(r)[24..30])
  {
    hide Turned;
    hide RotateLeft;
    hide Bit;
    Window4Masks(r);
    BitMasks(r);
    WindowBits4(r);
    hide Expanded;
  }

  lemma Places4()
    ensures E(25) == 16 && E(26) == 17 && E(27) == 18
    ensures E(28) == 19 && E(29) == 20 && E(30) == 21
  {
  }

  lemma WindowBits4(r: Word)
    ensures Expanded(r)[24..30] == [Bit(r, 16), Bit(r, 17), Bit(r, 18), Bit(r, 19), Bit(r, 20), Bit(r, 21)]
  {
    hide Bit;
    hide E;
    Places4();
  }

  lemma Window5Masks(r: Word)
    ensures (RotateLeft(r) >> 8) & 0x3f ==
            (if r & 0x00001000 != 0 then 0x20 else 0) | (if r & 0x00000800 != 0 then 0x10 else 0) |
            (if r & 0x00000400 != 0 then 0x08 else 0) |
            (if r & 0x00000200 != 0 then 0x04 else 0) | (if r & 0x00000100 != 0 then 0x02 else 0) |
            (if r & 0x00000080 != 0 then 0x01 else 0)
  {
  }

  lemma Window5(r: Word)
    ensures (RotateLeft(r) >> 8) & 0x3f == Six(Expanded(r)[30..36])
  {
    hide Turned;
    hide RotateLeft;
    hide Bit;
    Window5Masks(r);
    BitMasks(r);
    WindowBits5(r);
    hide Expanded;
  }

  lemma Places5()
    ensures E(31) == 20 && E(32) == 21 && E(33) == 22
    ensures E(34) == 23 && E(35) == 24 && E(36) == 25
  {
  }

  lemma WindowBits5(r: Word)
    ensures Expanded(r)[30..36] == [Bit(r, 20), Bit(r, 21), Bit(r, 22), Bit(r, 23), Bit(r, 24), Bit(r, 25)]
  {
    hide Bit;
    hide E;
    Places5();
  }

  lemma Window6Masks(r: Word)
    ensures Turned(RotateLeft(r)) & 0x3f ==
            (if r & 0x00000100 != 0 then 0x20 else 0) | (if r & 0x00000080 != 0 then 0x10 else 0) |
            (if r & 0x00000040 != 0 then 0x08 else 0) |
            (if r & 0x00000020 != 0 then 0x04 else 0) | (if r & 0x00000010 != 0 then 0x02 else 0) |
            (if r & 0x00000008 != 0 then 0x01 else 0)
  {
  }

  lemma Window6(r: Word)
    ensures Turned(RotateLeft(r)) & 0x3f == Six(Expanded(r)[36..42])
  {
    hide Turned;
    hide RotateLeft;
    hide Bit;
    Window6Masks(r);
    BitMasks(r);
    WindowBits6(r);
    hide Expanded;
  }

  lemma Places6()
    ensures E(37) == 24 && E(38) == 25 && E(39) == 26
    ensures E(40) == 27 && E(41) == 28 && E(42) == 29
  {
  }

  lemma WindowBits6(r: Word)
    ensures Expanded(r)[36..42] == [Bit(r, 24), Bit(r, 25), Bit(r, 26), Bit(r, 27), Bit(r, 28), Bit(r, 29)]
  {
    hide Bit;
    hide E;
    Places6();
  }

  lemma Window7Masks(r: Word)
    ensures RotateLeft(r) & 0x3f ==
            (if r & 0x00000010 != 0 then 0x20 else 0) | (if r & 0x00000008 != 0 then 0x10 else 0) |
            (if r & 0x00000004 != 0 then 0x08 else 0) |
            (if r & 0x00000002 != 0 then 0x04 else 0) | (if r & 0x00000001 != 0 then 0x02 else 0) |
            (if r & 0x80000000 != 0 then 0x01 else 0)
  {
  }

  lemma Window7(r: Word)
    ensures RotateLeft(r) & 0x3f == Six(Expanded(r)[42..48])
  {
    hide Turned;
    hide RotateLeft;
    hide Bit;
    Window7Masks(r);
    BitMasks(r);
    WindowBits7(r);
    hide Expanded;
  }

  lemma Places7()
    ensures E(43) == 28 && E(44) == 29 && E(45) == 30
    ensures E(46) == 31 && E(47) == 32 && E(48) == 1
  {
  }

  lemma WindowBits7(r: Word)
    ensures Expanded(r)[42..48] == [Bit(r, 28), Bit(r, 29), Bit(r, 30), Bit(r, 31), Bit(r, 32), Bit(r, 1)]
  {
    hide Bit;
    hide E;
    Places7();
  }

  /** No bit beside those of the mask. */
  predicate Within(x: Word, mask: Word) {
    x & !mask == 0
  }

  lemma WeightXor(a: bool, b: bool, w: Word)
    ensures Weight(a != b, w) == Xor(Weight(a, w), Weight(b, w)) && Within(Weight(a, w), w)
  {
    XorCases(w);
    hide Xor;
    hide Within;
  }

  lemma XorCases(w: Word)
    ensures Xor(w, w) == 0 && Xor(w, 0) == w && Xor(0, w) == w && Xor(0, 0) == 0 && Within(w, w) && Within(0, w)
  {
  }

  /** Joining words that share no bit goes on both sides of an exclusive or. */
  lemma HighOfXors(a: Word, b: Word, c: Word, p: Word, q: Word, r: Word)
    requires Within(a, 0x20) && Within(b, 0x10) && Within(c, 0x08)
    requires Within(p, 0x20) && Within(q, 0x10) && Within(r, 0x08)
    ensures Or(Or(Xor(a, p), Xor(b, q)), Xor(c, r)) == Xor(Or(Or(a, b), c), Or(Or(p, q), r))
    ensures Within(Or(Or(a, b), c), 0x38) && Within(Or(Or(p, q), r), 0x38)
  {
  }

  lemma LowOfXors(h: Word, d: Word, e: Word, f: Word, k: Word, s: Word, t: Word, u: Word)
    requires Within(h, 0x38) && Within(d, 0x04) && Within(e, 0x02) && Within(f, 0x01)
    requires Within(k, 0x38) && Within(s, 0x04) && Within(t, 0x02) && Within(u, 0x01)
    ensures Or(Or(Or(Xor(h, k), Xor(d, s)), Xor(e, t)), Xor(f, u)) ==
            Xor(Or(Or(Or(h, d), e), f), Or(Or(Or(k, s), t), u))
  {
  }

  lemma PlaceOfXor(a: Bits, b: Bits, i: nat, w: Word)
    requires |a| == |b| == 6 && i < 6
    ensures Weight(XorBits(a, b)[i], w) == Xor(Weight(a[i], w), Weight(b[i], w))
    ensures Within(Weight(a[i], w), w) && Within(Weight(b[i], w), w)
  {
    WeightXor(a[i], b[i], w);
    WeightXor(b[i], a[i], w);
    hide Weight;
    hide Within;
    hide Xor;
  }

  lemma SixOfXor(a: Bits, b: Bits)
    requires |a| == |b| == 6
    ensures Six(XorBits(a, b)) == Xor(Six(a), Six(b))
  {
    SixIsWeights(a);
    SixIsWeights(b);
    SixIsWeights(XorBits(a, b));
    hide Six;
    hide Weight;
    hide XorBits;
    hide Or;
    hide Xor;
    hide Within;
    PlaceOfXor(a, b, 0, 0x20);
    PlaceOfXor(a, b, 1, 0x10);
    PlaceOfXor(a, b, 2, 0x08);
    PlaceOfXor(a, b, 3, 0x04);
    PlaceOfXor(a, b, 4, 0x02);
    PlaceOfXor(a, b, 5, 0x01);
    HighOfXors(Weight(a[0], 0x20), Weight(a[1], 0x10), Weight(a[2], 0x08),
               Weight(b[0], 0x20), Weight(b[1], 0x10), Weight(b[2], 0x08));
    LowOfXors(Or(Or(Weight(a[0], 0x20), Weight(a[1], 0x10)), Weight(a[2], 0x08)),
              Weight(a[3], 0x04), Weight(a[4], 0x02), Weight(a[5], 0x01),
              Or(Or(Weight(b[0], 0x20), Weight(b[1], 0x10)), Weight(b[2], 0x08)),
              Weight(b[3], 0x04), Weight(b[4], 0x02), Weight(b[5], 0x01));
  }

  lemma SelectorIs(r: Word, k: Bits, g: nat)
    requires |k| == 48 && g < 8
    ensures Selector(r, k, g) == Xor(Six(Expanded(r)[6 * g..6 * g + 6]), Six(k[6 * g..6 * g + 6]))
  {
    hide Six;
    hide Xor;
    hide Expanded;
    var a, b := Expanded(r)[6 * g..6 * g + 6], k[6 * g..6 * g + 6];
    assert XorBits(Expanded(r), k)[6 * g..6 * g + 6] == XorBits(a, b);
    SixOfXor(a, b);
  }

  lemma SixOfBytes(x: Word, a: Word, b: Word, c: Word, d: Word)
    requires IsSix(a) && IsSix(b) && IsSix(c) && IsSix(d)
    ensures Six24(x, Bytes4(a, b, c, d)) == Xor((x >> 24) & 0x3f, a)
    ensures Six16(x, Bytes4(a, b, c, d)) == Xor((x >> 16) & 0x3f, b)
    ensures Six8(x, Bytes4(a, b, c, d)) == Xor((x >> 8) & 0x3f, c)
    ensures Six0(x, Bytes4(a, b, c, d)) == Xor(x & 0x3f, d)
  {
  }

  /** The two words of a round key: its groups 0, 2, 4, 6 and its groups 1, 3, 5, 7. */
  ghost predicate AreKeyWords(k: Bits, k0: Word, k1: Word)
    requires |k| == 48
  {
    && k0 == Bytes4(Six(k[0..6]), Six(k[12..18]), Six(k[24..30]), Six(k[36..42]))
    && k1 == Bytes4(Six(k[6..12]), Six(k[18..24]), Six(k[30..36]), Six(k[42..48]))
  }

  lemma EvenLookups(r: Word, k: Bits, k0: Word)
    requires |k| == 48 && k0 == Bytes4(Six(k[0..6]), Six(k[12..18]), Six(k[24..30]), Six(k[36..42]))
    ensures Six24(Turned(RotateLeft(r)), k0) == Selector(r, k, 0)
    ensures Six16(Turned(RotateLeft(r)), k0) == Selector(r, k, 2)
    ensures Six8(Turned(RotateLeft(r)), k0) == Selector(r, k, 4) && Six0(Turned(RotateLeft(r)), k0) == Selector(r, k, 6)
  {
    hide Six;
    hide Expanded;
    hide Selector;
    hide Xor;
    hide Bytes4;
    hide IsSix;
    hide Turned;
    hide RotateLeft;
    hide Six0;
    hide Six8;
    hide Six16;
    hide Six24;
    SixIsSix(k[0..6]);
    SixIsSix(k[12..18]);
    SixIsSix(k[24..30]);
    SixIsSix(k[36..42]);
    SixOfBytes(Turned(RotateLeft(r)), Six(k[0..6]), Six(k[12..18]), Six(k[24..30]), Six(k[36..42]));
    Window0(r);
    Window2(r);
    Window4(r);
    Window6(r);
    SelectorIs(r, k, 0);
    SelectorIs(r, k, 2);
    SelectorIs(r, k, 4);
    SelectorIs(r, k, 6);
  }

  lemma OddLookups(r: Word, k: Bits, k1: Word)
    requires |k| == 48 && k1 == Bytes4(Six(k[6..12]), Six(k[18..24]), Six(k[30..36]), Six(k[42..48]))
    ensures Six24(RotateLeft(r), k1) == Selector(r, k, 1) && Six16(RotateLeft(r), k1) == Selector(r, k, 3)
    ensures Six8(RotateLeft(r), k1) == Selector(r, k, 5) && Six0(RotateLeft(r), k1) == Selector(r, k, 7)
  {
    hide Six;
    hide Expanded;
    hide Selector;
    hide Xor;
    hide Bytes4;
    hide IsSix;
    hide RotateLeft;
    hide Six0;
    hide Six8;
    hide Six16;
    hide Six24;
    SixIsSix(k[6..12]);
    SixIsSix(k[18..24]);
    SixIsSix(k[30..36]);
    SixIsSix(k[42..48]);
    SixOfBytes(RotateLeft(r), Six(k[6..12]), Six(k[18..24]), Six(k[30..36]), Six(k[42..48]));
    Window1(r);
    Window3(r);
    Window5(r);
    Window7(r);
    SelectorIs(r, k, 1);
    SelectorIs(r, k, 3);
    SelectorIs(r, k, 5);
    SelectorIs(r, k, 7);
  }

  lemma TurnedOr(x: Word, y: Word)
    ensures RotateLeft(Or(x, TurnBack(y))) == Or(RotateLeft(x), y)
  {
  }

  lemma TurnedBack(x: Word)
    ensures RotateLeft(TurnBack(x)) == x
  {
  }

  lemma Interleave(x: Word, y: Word, a: Word, b: Word)
    ensures ((x | y) | a) | b == (x | a) | (y | b)
  {
  }

  lemma Backwards(a: Word, b: Word, c: Word, d: Word)
    ensures Or(Or(Or(d, c), b), a) == ((a | b) | c) | d
  {
  }

  lemma Regroup(x: Word, a: Word, b: Word, c: Word, d: Word)
    ensures Or(Or(Or(Or(x, d), c), b), a) == x | (((a | b) | c) | d)
  {
  }

  lemma RawOrs(a: Word, b: Word, c: Word, d: Word, e: Word, f: Word, g: Word, h: Word)
    ensures a | b | c | d | e | f | g | h == Or(Or(Or(Or(Or(Or(Or(a, b), c), d), e), f), g), h)
  {
  }

  /** The order of the lookups does not matter. */
  lemma Reordered(a: Word, b: Word, c: Word, d: Word, e: Word, f: Word, g: Word, h: Word)
    ensures a | b | c | d | e | f | g | h == Or(Or(Or(Or(Or(Or(Or(g, e), c), a), h), f), d), b)
  {
    Interleave(a, b, c, d);
    Interleave(a | c, b | d, e, f);
    Interleave(a | c | e, b | d | f, g, h);
    Backwards(a, c, e, g);
    Regroup(Or(Or(Or(g, e), c), a), b, d, f, h);
    hide Or;
  }

  lemma TurnedLookups(a: Word, b: Word, c: Word, d: Word, e: Word, f: Word, g: Word, h: Word)
    ensures RotateLeft(TurnBack(a) | TurnBack(b) | TurnBack(c) | TurnBack(d) | TurnBack(e) | TurnBack(f) | TurnBack(g) | TurnBack(h)) ==
            Or(Or(Or(Or(Or(Or(Or(g, e), c), a), h), f), d), b)
  {
    hide RotateLeft;
    hide TurnBack;
    hide Or;
    RawOrs(TurnBack(a), TurnBack(b), TurnBack(c), TurnBack(d), TurnBack(e), TurnBack(f), TurnBack(g), TurnBack(h));
    RawOrs(a, b, c, d, e, f, g, h);
    Reordered(a, b, c, d, e, f, g, h);
    TurnedOrs(a, b, c, d, e, f, g, h);
  }

  lemma TurnedOrs(a: Word, b: Word, c: Word, d: Word, e: Word, f: Word, g: Word, h: Word)
    ensures RotateLeft(Or(Or(Or(Or(Or(Or(Or(TurnBack(a), TurnBack(b)), TurnBack(c)), TurnBack(d)), TurnBack(e)), TurnBack(f)),
                             TurnBack(g)), TurnBack(h))) ==
            Or(Or(Or(Or(Or(Or(Or(a, b), c), d), e), f), g), h)
  {
    hide RotateLeft;
    hide TurnBack;
    hide Or;
    TurnedBack(a);
    var x := TurnBack(a);
    TurnedOr(x, b);
    x := Or(x, TurnBack(b));
    TurnedOr(x, c);
    x := Or(x, TurnBack(c));
    TurnedOr(x, d);
    x := Or(x, TurnBack(d));
    TurnedOr(x, e);
    x := Or(x, TurnBack(e));
    TurnedOr(x, f);
    x := Or(x, TurnBack(f));
    TurnedOr(x, g);
    x := Or(x, TurnBack(g));
    TurnedOr(x, h);
  }

  /** The round function is the cipher function of the standard, on a half turned left by one place. */
  lemma FeistelConforms(s: Boxes, r: Word, k: Bits, k0: Word, k1: Word)
    requires |k| == 48 && AreKeyWords(k, k0, k1)
    ensures Feistel(s, RotateLeft(r), k0, k1) == RotateLeft(CipherFunction(s, r, k))
  {
    hide Six;
    hide Selector;
    hide Bytes4;
    hide Turned;
    hide RotateLeft;
    hide Six0;
    hide Six8;
    hide Six16;
    hide Six24;
    hide Or;
    hide TurnBack;
    EvenLookups(r, k, k0);
    OddLookups(r, k, k1);
    var a, b, c, d := s.sp1(Selector(r, k, 0)), s.sp2(Selector(r, k, 1)), s.sp3(Selector(r, k, 2)), s.sp4(Selector(r, k, 3));
    var e, f, g, h := s.sp5(Selector(r, k, 4)), s.sp6(Selector(r, k, 5)), s.sp7(Selector(r, k, 6)), s.sp8(Selector(r, k, 7));
    TurnedLookups(a, b, c, d, e, f, g, h);
  }

  // ----- the rounds -----

  lemma TurnedXor(x: Word, y: Word)
    ensures Xor(RotateLeft(x), RotateLeft(y)) == RotateLeft(x ^ y)
  {
  }

  lemma KeyWordsConform(key: Key, i: nat)
    requires i < 16
    ensures AreKeyWords(RoundKey(KeyBits(key), i + 1), KeyWord(key, 2 * i), KeyWord(key, 2 * i + 1))
  {
    hide KeyWord;
    hide RoundKey;
    hide Six;
    hide Bytes4;
    KeyWordGroups(key, i);
  }

  /** The round key a mode uses in its round `n`. */
  lemma ScheduleConforms(key: Key, mode: Mode, n: nat)
    requires 1 <= n <= 16
    ensures AreKeyWords(RoundKey(KeyBits(key), if mode == DE1 then 17 - n else n),
                        Schedule(key, mode)[2 * n - 2], Schedule(key, mode)[2 * n - 1])
  {
    hide KeyWord;
    hide RoundKey;
    hide AreKeyWords;
    var i := if mode == DE1 then 16 - n else n - 1;
    KeyWordsConform(key, i);
    assert Taken(mode, 2 * n - 2) == 2 * i && Taken(mode, 2 * n - 1) == 2 * i + 1;
  }

  lemma RoundConforms(s: Boxes, key: Key, mode: Mode, p: Pair, n: nat)
    requires 1 <= n <= 16
    ensures Round(s, Turn(p), Schedule(key, mode)[2 * n - 2], Schedule(key, mode)[2 * n - 1]) ==
            Turn(Pair(p.r, p.l ^ CipherFunction(s, p.r, RoundKey(KeyBits(key), if mode == DE1 then 17 - n else n))))
  {
    hide Schedule;
    hide KeyBits;
    hide RoundKey;
    hide Feistel;
    hide CipherFunction;
    hide RotateLeft;
    hide Xor;
    hide AreKeyWords;
    ScheduleConforms(key, mode, n);
    var k := RoundKey(KeyBits(key), if mode == DE1 then 17 - n else n);
    FeistelConforms(s, p.r, k, Schedule(key, mode)[2 * n - 2], Schedule(key, mode)[2 * n - 1]);
    TurnedXor(p.l, CipherFunction(s, p.r, k));
  }

  lemma {:induction false} RoundsConform(s: Boxes, key: Key, mode: Mode, b: Pair, n: nat)
    requires n <= 16
    ensures Rounds(s, Schedule(key, mode), Turn(b), n) == Turn(StandardRounds(s, KeyBits(key), mode == DE1, b, n))
  {
    hide Schedule;
    hide KeyBits;
    hide RoundKey;
    hide Feistel;
    hide CipherFunction;
    hide RotateLeft;
    hide Xor;
    hide Round;
    if n > 0 {
      RoundsConform(s, key, mode, b, n - 1);
      RoundConforms(s, key, mode, StandardRounds(s, KeyBits(key), mode == DE1, b, n - 1), n);
    }
  }

  // ----- the whole cipher -----

  /**
    For every key, mode, block and set of tables, desfunc under the schedule of deskey
    computes the Data Encryption Standard under the key with the bits of its bytes reversed.
   */
  lemma CryptConforms(s: Boxes, key: Key, mode: Mode, b: Pair)
    ensures IsDes(s, BitsOfBytes(MirroredKey(key)), mode == DE1, b, Crypt(s, Schedule(key, mode), b))
  {
    hide Initial;
    hide Final;
    hide Schedule;
    hide KeyBits;
    hide BitsOfBytes;
    hide Rounds;
    hide StandardRounds;
    hide IsInitial;
    hide IsFinal;
    hide Turn;
    hide Unturn;
    KeyIsMirrored(key);
    var x := Unturn(Initial(b));
    InitialConforms(b);
    TurnUnturn(Initial(b));
    RoundsConform(s, key, mode, x, 16);
    var y := StandardRounds(s, KeyBits(key), mode == DE1, x, 16);
    TurnUnturn(y);
    FinalConforms(Turn(y));
  }
}
