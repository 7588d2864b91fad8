/** The steps of firefox/vncpwd/d3des.c around the rounds are the permutations of the standard, on turned halves. */
module DesPermutations {

  import opened Des
  import opened DesStandard

  // ----- words are their bits -----

  lemma BitMasks1(w: Word)
    ensures (Bit(w, 1) <==> w & 0x80000000 != 0) && (Bit(w, 2) <==> w & 0x40000000 != 0)
    ensures (Bit(w, 3) <==> w & 0x20000000 != 0) && (Bit(w, 4) <==> w & 0x10000000 != 0)
    ensures (Bit(w, 5) <==> w & 0x08000000 != 0) && (Bit(w, 6) <==> w & 0x04000000 != 0)
    ensures (Bit(w, 7) <==> w & 0x02000000 != 0) && (Bit(w, 8) <==> w & 0x01000000 != 0)
  {
  }

  lemma BitMasks2(w: Word)
    ensures (Bit(w, 9) <==> w & 0x00800000 != 0) && (Bit(w, 10) <==> w & 0x00400000 != 0)
    ensures (Bit(w, 11) <==> w & 0x00200000 != 0) && (Bit(w, 12) <==> w & 0x00100000 != 0)
    ensures (Bit(w, 13) <==> w & 0x00080000 != 0) && (Bit(w, 14) <==> w & 0x00040000 != 0)
    ensures (Bit(w, 15) <==> w & 0x00020000 != 0) && (Bit(w, 16) <==> w & 0x00010000 != 0)
  {
  }

  lemma BitMasks3(w: Word)
    ensures (Bit(w, 17) <==> w & 0x00008000 != 0) && (Bit(w, 18) <==> w & 0x00004000 != 0)
    ensures (Bit(w, 19) <==> w & 0x00002000 != 0) && (Bit(w, 20) <==> w & 0x00001000 != 0)
    ensures (Bit(w, 21) <==> w & 0x00000800 != 0) && (Bit(w, 22) <==> w & 0x00000400 != 0)
    ensures (Bit(w, 23) <==> w & 0x00000200 != 0) && (Bit(w, 24) <==> w & 0x00000100 != 0)
  {
  }

  lemma BitMasks4(w: Word)
    ensures (Bit(w, 25) <==> w & 0x00000080 != 0) && (Bit(w, 26) <==> w & 0x00000040 != 0)
    ensures (Bit(w, 27) <==> w & 0x00000020 != 0) && (Bit(w, 28) <==> w & 0x00000010 != 0)
    ensures (Bit(w, 29) <==> w & 0x00000008 != 0) && (Bit(w, 30) <==> w & 0x00000004 != 0)
    ensures (Bit(w, 31) <==> w & 0x00000002 != 0) && (Bit(w, 32) <==> w & 0x00000001 != 0)
  {
  }

  /** A bit is what its mask leaves. */
  lemma BitMasks(w: Word)
    ensures (Bit(w, 1) <==> w & 0x80000000 != 0) && (Bit(w, 2) <==> w & 0x40000000 != 0)
    ensures (Bit(w, 3) <==> w & 0x20000000 != 0) && (Bit(w, 4) <==> w & 0x10000000 != 0)
    ensures (Bit(w, 5) <==> w & 0x08000000 != 0) && (Bit(w, 6) <==> w & 0x04000000 != 0)
    ensures (Bit(w, 7) <==> w & 0x02000000 != 0) && (Bit(w, 8) <==> w & 0x01000000 != 0)
    ensures (Bit(w, 9) <==> w & 0x00800000 != 0) && (Bit(w, 10) <==> w & 0x00400000 != 0)
    ensures (Bit(w, 11) <==> w & 0x00200000 != 0) && (Bit(w, 12) <==> w & 0x00100000 != 0)
    ensures (Bit(w, 13) <==> w & 0x00080000 != 0) && (Bit(w, 14) <==> w & 0x00040000 != 0)
    ensures (Bit(w, 15) <==> w & 0x00020000 != 0) && (Bit(w, 16) <==> w & 0x00010000 != 0)
    ensures (Bit(w, 17) <==> w & 0x00008000 != 0) && (Bit(w, 18) <==> w & 0x00004000 != 0)
    ensures (Bit(w, 19) <==> w & 0x00002000 != 0) && (Bit(w, 20) <==> w & 0x00001000 != 0)
    ensures (Bit(w, 21) <==> w & 0x00000800 != 0) && (Bit(w, 22) <==> w & 0x00000400 != 0)
    ensures (Bit(w, 23) <==> w & 0x00000200 != 0) && (Bit(w, 24) <==> w & 0x00000100 != 0)
    ensures (Bit(w, 25) <==> w & 0x00000080 != 0) && (Bit(w, 26) <==> w & 0x00000040 != 0)
    ensures (Bit(w, 27) <==> w & 0x00000020 != 0) && (Bit(w, 28) <==> w & 0x00000010 != 0)
    ensures (Bit(w, 29) <==> w & 0x00000008 != 0) && (Bit(w, 30) <==> w & 0x00000004 != 0)
    ensures (Bit(w, 31) <==> w & 0x00000002 != 0) && (Bit(w, 32) <==> w & 0x00000001 != 0)
  {
    hide Bit;
    BitMasks1(w);
    BitMasks2(w);
    BitMasks3(w);
    BitMasks4(w);
  }

  lemma SameMasks(a: Word, b: Word)
    requires (a & 0x80000000 != 0 <==> b & 0x80000000 != 0) && (a & 0x40000000 != 0 <==> b & 0x40000000 != 0)
    requires (a & 0x20000000 != 0 <==> b & 0x20000000 != 0) && (a & 0x10000000 != 0 <==> b & 0x10000000 != 0)
    requires (a & 0x08000000 != 0 <==> b & 0x08000000 != 0) && (a & 0x04000000 != 0 <==> b & 0x04000000 != 0)
    requires (a & 0x02000000 != 0 <==> b & 0x02000000 != 0) && (a & 0x01000000 != 0 <==> b & 0x01000000 != 0)
    requires (a & 0x00800000 != 0 <==> b & 0x00800000 != 0) && (a & 0x00400000 != 0 <==> b & 0x00400000 != 0)
    requires (a & 0x00200000 != 0 <==> b & 0x00200000 != 0) && (a & 0x00100000 != 0 <==> b & 0x00100000 != 0)
    requires (a & 0x00080000 != 0 <==> b & 0x00080000 != 0) && (a & 0x00040000 != 0 <==> b & 0x00040000 != 0)
    requires (a & 0x00020000 != 0 <==> b & 0x00020000 != 0) && (a & 0x00010000 != 0 <==> b & 0x00010000 != 0)
    requires (a & 0x00008000 != 0 <==> b & 0x00008000 != 0) && (a & 0x00004000 != 0 <==> b & 0x00004000 != 0)
    requires (a & 0x00002000 != 0 <==> b & 0x00002000 != 0) && (a & 0x00001000 != 0 <==> b & 0x00001000 != 0)
    requires (a & 0x00000800 != 0 <==> b & 0x00000800 != 0) && (a & 0x00000400 != 0 <==> b & 0x00000400 != 0)
    requires (a & 0x00000200 != 0 <==> b & 0x00000200 != 0) && (a & 0x00000100 != 0 <==> b & 0x00000100 != 0)
    requires (a & 0x00000080 != 0 <==> b & 0x00000080 != 0) && (a & 0x00000040 != 0 <==> b & 0x00000040 != 0)
    requires (a & 0x00000020 != 0 <==> b & 0x00000020 != 0) && (a & 0x00000010 != 0 <==> b & 0x00000010 != 0)
    requires (a & 0x00000008 != 0 <==> b & 0x00000008 != 0) && (a & 0x00000004 != 0 <==> b & 0x00000004 != 0)
    requires (a & 0x00000002 != 0 <==> b & 0x00000002 != 0) && (a & 0x00000001 != 0 <==> b & 0x00000001 != 0)
    ensures a == b
  {
  }

  lemma SameLiteralBits(a: Word, b: Word)
    requires (Bit(a, 1) <==> Bit(b, 1)) && (Bit(a, 2) <==> Bit(b, 2)) && (Bit(a, 3) <==> Bit(b, 3))
    requires (Bit(a, 4) <==> Bit(b, 4))
    requires (Bit(a, 5) <==> Bit(b, 5)) && (Bit(a, 6) <==> Bit(b, 6)) && (Bit(a, 7) <==> Bit(b, 7))
    requires (Bit(a, 8) <==> Bit(b, 8))
    requires (Bit(a, 9) <==> Bit(b, 9)) && (Bit(a, 10) <==> Bit(b, 10)) && (Bit(a, 11) <==> Bit(b, 11))
    requires (Bit(a, 12) <==> Bit(b, 12))
    requires (Bit(a, 13) <==> Bit(b, 13)) && (Bit(a, 14) <==> Bit(b, 14)) && (Bit(a, 15) <==> Bit(b, 15))
    requires (Bit(a, 16) <==> Bit(b, 16))
    requires (Bit(a, 17) <==> Bit(b, 17)) && (Bit(a, 18) <==> Bit(b, 18)) && (Bit(a, 19) <==> Bit(b, 19))
    requires (Bit(a, 20) <==> Bit(b, 20))
    requires (Bit(a, 21) <==> Bit(b, 21)) && (Bit(a, 22) <==> Bit(b, 22)) && (Bit(a, 23) <==> Bit(b, 23))
    requires (Bit(a, 24) <==> Bit(b, 24))
    requires (Bit(a, 25) <==> Bit(b, 25)) && (Bit(a, 26) <==> Bit(b, 26)) && (Bit(a, 27) <==> Bit(b, 27))
    requires (Bit(a, 28) <==> Bit(b, 28))
    requires (Bit(a, 29) <==> Bit(b, 29)) && (Bit(a, 30) <==> Bit(b, 30)) && (Bit(a, 31) <==> Bit(b, 31))
    requires (Bit(a, 32) <==> Bit(b, 32))
    ensures a == b
  {
    hide Bit;
    BitMasks(a);
    BitMasks(b);
    SameMasks(a, b);
  }

  lemma SameBits(a: Word, b: Word)
    requires forall n | 1 <= n <= 32 :: Bit(a, n) <==> Bit(b, n)
    ensures a == b
  {
    hide Bit;
    SameLiteralBits(a, b);
  }

  /** The standard names one result. */
  lemma DesUnique(s: Boxes, key: Bits, decipher: bool, b: Pair, out: Pair, other: Pair)
    requires |key| == 64 && IsDes(s, key, decipher, b, out) && IsDes(s, key, decipher, b, other)
    ensures out == other
  {
    hide Bit;
    hide Ip;
    hide IpInverse;
    hide StandardRounds;
    var x :| IsInitial(b, x) && IsFinal(Exchange(StandardRounds(s, key, decipher, x, 16)), out);
    var y :| IsInitial(b, y) && IsFinal(Exchange(StandardRounds(s, key, decipher, y, 16)), other);
    SameBlock(x, y);
    SameBlock(out, other);
  }

  lemma SameBlock(a: Pair, b: Pair)
    requires forall n | 1 <= n <= 64 :: BlockBit(a, n) <==> BlockBit(b, n)
    ensures a == b
  {
    hide Bit;
    forall n | 1 <= n <= 32 ensures (Bit(a.l, n) <==> Bit(b.l, n)) && (Bit(a.r, n) <==> Bit(b.r, n)) {
      assert (BlockBit(a, n) <==> BlockBit(b, n)) && (BlockBit(a, n + 32) <==> BlockBit(b, n + 32));
    }
    SameBits(a.l, b.l);
    SameBits(a.r, b.r);
  }

  // ----- the permutations -----

  function Turn(b: Pair): Pair {
    Pair(RotateLeft(b.l), RotateLeft(b.r))
  }

  function Unturn(b: Pair): Pair {
    Pair(RotateRight(b.l), RotateRight(b.r))
  }

  lemma TurnUnturn(b: Pair)
    ensures Turn(Unturn(b)) == b && Unturn(Turn(b)) == b
  {
    RotatesUndo(b.l);
    RotatesUndo(b.r);
  }

  function InitialL(l: Word, r: Word): Word {
    RotateRight(Initial(Pair(l, r)).l)
  }

  function InitialR(l: Word, r: Word): Word {
    RotateRight(Initial(Pair(l, r)).r)
  }

  lemma InitialLeftHighMasks(l: Word, r: Word)
    ensures (InitialL(l, r) & 0x80000000 != 0 <==> r & 0x00000040 != 0)
    ensures (InitialL(l, r) & 0x40000000 != 0 <==> r & 0x00004000 != 0)
    ensures (InitialL(l, r) & 0x20000000 != 0 <==> r & 0x00400000 != 0)
    ensures (InitialL(l, r) & 0x10000000 != 0 <==> r & 0x40000000 != 0)
    ensures (InitialL(l, r) & 0x08000000 != 0 <==> l & 0x00000040 != 0)
    ensures (InitialL(l, r) & 0x04000000 != 0 <==> l & 0x00004000 != 0)
    ensures (InitialL(l, r) & 0x02000000 != 0 <==> l & 0x00400000 != 0)
    ensures (InitialL(l, r) & 0x01000000 != 0 <==> l & 0x40000000 != 0)
    ensures (InitialL(l, r) & 0x00800000 != 0 <==> r & 0x00000010 != 0)
    ensures (InitialL(l, r) & 0x00400000 != 0 <==> r & 0x00001000 != 0)
    ensures (InitialL(l, r) & 0x00200000 != 0 <==> r & 0x00100000 != 0)
    ensures (InitialL(l, r) & 0x00100000 != 0 <==> r & 0x10000000 != 0)
    ensures (InitialL(l, r) & 0x00080000 != 0 <==> l & 0x00000010 != 0)
    ensures (InitialL(l, r) & 0x00040000 != 0 <==> l & 0x00001000 != 0)
    ensures (InitialL(l, r) & 0x00020000 != 0 <==> l & 0x00100000 != 0)
    ensures (InitialL(l, r) & 0x00010000 != 0 <==> l & 0x10000000 != 0)
  {
  }

  lemma InitialLeftHigh(l: Word, r: Word)
    ensures (Bit(InitialL(l, r), 1) <==> Bit(r, 26)) && (Bit(InitialL(l, r), 2) <==> Bit(r, 18))
    ensures (Bit(InitialL(l, r), 3) <==> Bit(r, 10)) && (Bit(InitialL(l, r), 4) <==> Bit(r, 2))
    ensures (Bit(InitialL(l, r), 5) <==> Bit(l, 26)) && (Bit(InitialL(l, r), 6) <==> Bit(l, 18))
    ensures (Bit(InitialL(l, r), 7) <==> Bit(l, 10)) && (Bit(InitialL(l, r), 8) <==> Bit(l, 2))
    ensures (Bit(InitialL(l, r), 9) <==> Bit(r, 28)) && (Bit(InitialL(l, r), 10) <==> Bit(r, 20))
    ensures (Bit(InitialL(l, r), 11) <==> Bit(r, 12)) && (Bit(InitialL(l, r), 12) <==> Bit(r, 4))
    ensures (Bit(InitialL(l, r), 13) <==> Bit(l, 28)) && (Bit(InitialL(l, r), 14) <==> Bit(l, 20))
    ensures (Bit(InitialL(l, r), 15) <==> Bit(l, 12)) && (Bit(InitialL(l, r), 16) <==> Bit(l, 4))
  {
    hide Bit;
    hide InitialL;
    InitialLeftHighMasks(l, r);
    BitMasks(InitialL(l, r));
    BitMasks(l);
    BitMasks(r);
  }

  lemma InitialLeftLowMasks(l: Word, r: Word)
    ensures (InitialL(l, r) & 0x00008000 != 0 <==> r & 0x00000004 != 0)
    ensures (InitialL(l, r) & 0x00004000 != 0 <==> r & 0x00000400 != 0)
    ensures (InitialL(l, r) & 0x00002000 != 0 <==> r & 0x00040000 != 0)
    ensures (InitialL(l, r) & 0x00001000 != 0 <==> r & 0x04000000 != 0)
    ensures (InitialL(l, r) & 0x00000800 != 0 <==> l & 0x00000004 != 0)
    ensures (InitialL(l, r) & 0x00000400 != 0 <==> l & 0x00000400 != 0)
    ensures (InitialL(l, r) & 0x00000200 != 0 <==> l & 0x00040000 != 0)
    ensures (InitialL(l, r) & 0x00000100 != 0 <==> l & 0x04000000 != 0)
    ensures (InitialL(l, r) & 0x00000080 != 0 <==> r & 0x00000001 != 0)
    ensures (InitialL(l, r) & 0x00000040 != 0 <==> r & 0x00000100 != 0)
    ensures (InitialL(l, r) & 0x00000020 != 0 <==> r & 0x00010000 != 0)
    ensures (InitialL(l, r) & 0x00000010 != 0 <==> r & 0x01000000 != 0)
    ensures (InitialL(l, r) & 0x00000008 != 0 <==> l & 0x00000001 != 0)
    ensures (InitialL(l, r) & 0x00000004 != 0 <==> l & 0x00000100 != 0)
    ensures (InitialL(l, r) & 0x00000002 != 0 <==> l & 0x00010000 != 0)
    ensures (InitialL(l, r) & 0x00000001 != 0 <==> l & 0x01000000 != 0)
  {
  }

  lemma InitialLeftLow(l: Word, r: Word)
    ensures (Bit(InitialL(l, r), 17) <==> Bit(r, 30)) && (Bit(InitialL(l, r), 18) <==> Bit(r, 22))
    ensures (Bit(InitialL(l, r), 19) <==> Bit(r, 14)) && (Bit(InitialL(l, r), 20) <==> Bit(r, 6))
    ensures (Bit(InitialL(l, r), 21) <==> Bit(l, 30)) && (Bit(InitialL(l, r), 22) <==> Bit(l, 22))
    ensures (Bit(InitialL(l, r), 23) <==> Bit(l, 14)) && (Bit(InitialL(l, r), 24) <==> Bit(l, 6))
    ensures (Bit(InitialL(l, r), 25) <==> Bit(r, 32)) && (Bit(InitialL(l, r), 26) <==> Bit(r, 24))
    ensures (Bit(InitialL(l, r), 27) <==> Bit(r, 16)) && (Bit(InitialL(l, r), 28) <==> Bit(r, 8))
    ensures (Bit(InitialL(l, r), 29) <==> Bit(l, 32)) && (Bit(InitialL(l, r), 30) <==> Bit(l, 24))
    ensures (Bit(InitialL(l, r), 31) <==> Bit(l, 16)) && (Bit(InitialL(l, r), 32) <==> Bit(l, 8))
  {
    hide Bit;
    hide InitialL;
    InitialLeftLowMasks(l, r);
    BitMasks(InitialL(l, r));
    BitMasks(l);
    BitMasks(r);
  }

  lemma InitialRightHighMasks(l: Word, r: Word)
    ensures (InitialR(l, r) & 0x80000000 != 0 <==> r & 0x00000080 != 0)
    ensures (InitialR(l, r) & 0x40000000 != 0 <==> r & 0x00008000 != 0)
    ensures (InitialR(l, r) & 0x20000000 != 0 <==> r & 0x00800000 != 0)
    ensures (InitialR(l, r) & 0x10000000 != 0 <==> r & 0x80000000 != 0)
    ensures (InitialR(l, r) & 0x08000000 != 0 <==> l & 0x00000080 != 0)
    ensures (InitialR(l, r) & 0x04000000 != 0 <==> l & 0x00008000 != 0)
    ensures (InitialR(l, r) & 0x02000000 != 0 <==> l & 0x00800000 != 0)
    ensures (InitialR(l, r) & 0x01000000 != 0 <==> l & 0x80000000 != 0)
    ensures (InitialR(l, r) & 0x00800000 != 0 <==> r & 0x00000020 != 0)
    ensures (InitialR(l, r) & 0x00400000 != 0 <==> r & 0x00002000 != 0)
    ensures (InitialR(l, r) & 0x00200000 != 0 <==> r & 0x00200000 != 0)
    ensures (InitialR(l, r) & 0x00100000 != 0 <==> r & 0x20000000 != 0)
    ensures (InitialR(l, r) & 0x00080000 != 0 <==> l & 0x00000020 != 0)
    ensures (InitialR(l, r) & 0x00040000 != 0 <==> l & 0x00002000 != 0)
    ensures (InitialR(l, r) & 0x00020000 != 0 <==> l & 0x00200000 != 0)
    ensures (InitialR(l, r) & 0x00010000 != 0 <==> l & 0x20000000 != 0)
  {
  }

  lemma InitialRightHigh(l: Word, r: Word)
    ensures (Bit(InitialR(l, r), 1) <==> Bit(r, 25)) && (Bit(InitialR(l, r), 2) <==> Bit(r, 17))
    ensures (Bit(InitialR(l, r), 3) <==> Bit(r, 9)) && (Bit(InitialR(l, r), 4) <==> Bit(r, 1))
    ensures (Bit(InitialR(l, r), 5) <==> Bit(l, 25)) && (Bit(InitialR(l, r), 6) <==> Bit(l, 17))
    ensures (Bit(InitialR(l, r), 7) <==> Bit(l, 9)) && (Bit(InitialR(l, r), 8) <==> Bit(l, 1))
    ensures (Bit(InitialR(l, r), 9) <==> Bit(r, 27)) && (Bit(InitialR(l, r), 10) <==> Bit(r, 19))
    ensures (Bit(InitialR(l, r), 11) <==> Bit(r, 11)) && (Bit(InitialR(l, r), 12) <==> Bit(r, 3))
    ensures (Bit(InitialR(l, r), 13) <==> Bit(l, 27)) && (Bit(InitialR(l, r), 14) <==> Bit(l, 19))
    ensures (Bit(InitialR(l, r), 15) <==> Bit(l, 11)) && (Bit(InitialR(l, r), 16) <==> Bit(l, 3))
  {
    hide Bit;
    hide InitialR;
    InitialRightHighMasks(l, r);
    BitMasks(InitialR(l, r));
    BitMasks(l);
    BitMasks(r);
  }

  lemma InitialRightLowMasks(l: Word, r: Word)
    ensures (InitialR(l, r) & 0x00008000 != 0 <==> r & 0x00000008 != 0)
    ensures (InitialR(l, r) & 0x00004000 != 0 <==> r & 0x00000800 != 0)
    ensures (InitialR(l, r) & 0x00002000 != 0 <==> r & 0x00080000 != 0)
    ensures (InitialR(l, r) & 0x00001000 != 0 <==> r & 0x08000000 != 0)
    ensures (InitialR(l, r) & 0x00000800 != 0 <==> l & 0x00000008 != 0)
    ensures (InitialR(l, r) & 0x00000400 != 0 <==> l & 0x00000800 != 0)
    ensures (InitialR(l, r) & 0x00000200 != 0 <==> l & 0x00080000 != 0)
    ensures (InitialR(l, r) & 0x00000100 != 0 <==> l & 0x08000000 != 0)
    ensures (InitialR(l, r) & 0x00000080 != 0 <==> r & 0x00000002 != 0)
    ensures (InitialR(l, r) & 0x00000040 != 0 <==> r & 0x00000200 != 0)
    ensures (InitialR(l, r) & 0x00000020 != 0 <==> r & 0x00020000 != 0)
    ensures (InitialR(l, r) & 0x00000010 != 0 <==> r & 0x02000000 != 0)
    ensures (InitialR(l, r) & 0x00000008 != 0 <==> l & 0x00000002 != 0)
    ensures (InitialR(l, r) & 0x00000004 != 0 <==> l & 0x00000200 != 0)
    ensures (InitialR(l, r) & 0x00000002 != 0 <==> l & 0x00020000 != 0)
    ensures (InitialR(l, r) & 0x00000001 != 0 <==> l & 0x02000000 != 0)
  {
  }

  lemma InitialRightLow(l: Word, r: Word)
    ensures (Bit(InitialR(l, r), 17) <==> Bit(r, 29)) && (Bit(InitialR(l, r), 18) <==> Bit(r, 21))
    ensures (Bit(InitialR(l, r), 19) <==> Bit(r, 13)) && (Bit(InitialR(l, r), 20) <==> Bit(r, 5))
    ensures (Bit(InitialR(l, r), 21) <==> Bit(l, 29)) && (Bit(InitialR(l, r), 22) <==> Bit(l, 21))
    ensures (Bit(InitialR(l, r), 23) <==> Bit(l, 13)) && (Bit(InitialR(l, r), 24) <==> Bit(l, 5))
    ensures (Bit(InitialR(l, r), 25) <==> Bit(r, 31)) && (Bit(InitialR(l, r), 26) <==> Bit(r, 23))
    ensures (Bit(InitialR(l, r), 27) <==> Bit(r, 15)) && (Bit(InitialR(l, r), 28) <==> Bit(r, 7))
    ensures (Bit(InitialR(l, r), 29) <==> Bit(l, 31)) && (Bit(InitialR(l, r), 30) <==> Bit(l, 23))
    ensures (Bit(InitialR(l, r), 31) <==> Bit(l, 15)) && (Bit(InitialR(l, r), 32) <==> Bit(l, 7))
  {
    hide Bit;
    hide InitialR;
    InitialRightLowMasks(l, r);
    BitMasks(InitialR(l, r));
    BitMasks(l);
    BitMasks(r);
  }

  lemma IpLeftHigh()
    ensures Ip(1) == 58 && Ip(2) == 50 && Ip(3) == 42 && Ip(4) == 34
    ensures Ip(5) == 26 && Ip(6) == 18 && Ip(7) == 10 && Ip(8) == 2
    ensures Ip(9) == 60 && Ip(10) == 52 && Ip(11) == 44 && Ip(12) == 36
    ensures Ip(13) == 28 && Ip(14) == 20 && Ip(15) == 12 && Ip(16) == 4
  {
  }

  lemma InitialBitLeftHigh(b: Pair, n: nat)
    requires 1 <= n <= 16
    ensures Bit(InitialL(b.l, b.r), n) <==> BlockBit(b, Ip(n))
  {
    hide Bit;
    hide Ip;
    IpLeftHigh();
    hide InitialL;
    hide InitialR;
    InitialLeftHigh(b.l, b.r);
    match n
    case 1 => case 2 => case 3 => case 4 => case 5 => case 6 => case 7 => case 8 =>
    case 9 => case 10 => case 11 => case 12 => case 13 => case 14 => case 15 => case _ =>
  }

  lemma IpLeftLow()
    ensures Ip(17) == 62 && Ip(18) == 54 && Ip(19) == 46 && Ip(20) == 38
    ensures Ip(21) == 30 && Ip(22) == 22 && Ip(23) == 14 && Ip(24) == 6
    ensures Ip(25) == 64 && Ip(26) == 56 && Ip(27) == 48 && Ip(28) == 40
    ensures Ip(29) == 32 && Ip(30) == 24 && Ip(31) == 16 && Ip(32) == 8
  {
  }

  lemma InitialBitLeftLow(b: Pair, n: nat)
    requires 17 <= n <= 32
    ensures Bit(InitialL(b.l, b.r), n) <==> BlockBit(b, Ip(n))
  {
    hide Bit;
    hide Ip;
    IpLeftLow();
    hide InitialL;
    hide InitialR;
    InitialLeftLow(b.l, b.r);
    match n
    case 17 => case 18 => case 19 => case 20 => case 21 => case 22 => case 23 => case 24 =>
    case 25 => case 26 => case 27 => case 28 => case 29 => case 30 => case 31 => case _ =>
  }

  lemma IpRightHigh()
    ensures Ip(33) == 57 && Ip(34) == 49 && Ip(35) == 41 && Ip(36) == 33
    ensures Ip(37) == 25 && Ip(38) == 17 && Ip(39) == 9 && Ip(40) == 1
    ensures Ip(41) == 59 && Ip(42) == 51 && Ip(43) == 43 && Ip(44) == 35
    ensures Ip(45) == 27 && Ip(46) == 19 && Ip(47) == 11 && Ip(48) == 3
  {
  }

  lemma InitialBitRightHigh(b: Pair, n: nat)
    requires 33 <= n <= 48
    ensures Bit(InitialR(b.l, b.r), n - 32) <==> BlockBit(b, Ip(n))
  {
    hide Bit;
    hide Ip;
    IpRightHigh();
    hide InitialL;
    hide InitialR;
    InitialRightHigh(b.l, b.r);
    match n
    case 33 => case 34 => case 35 => case 36 => case 37 => case 38 => case 39 => case 40 =>
    case 41 => case 42 => case 43 => case 44 => case 45 => case 46 => case 47 => case _ =>
  }

  lemma IpRightLow()
    ensures Ip(49) == 61 && Ip(50) == 53 && Ip(51) == 45 && Ip(52) == 37
    ensures Ip(53) == 29 && Ip(54) == 21 && Ip(55) == 13 && Ip(56) == 5
    ensures Ip(57) == 63 && Ip(58) == 55 && Ip(59) == 47 && Ip(60) == 39
    ensures Ip(61) == 31 && Ip(62) == 23 && Ip(63) == 15 && Ip(64) == 7
  {
  }

  lemma InitialBitRightLow(b: Pair, n: nat)
    requires 49 <= n <= 64
    ensures Bit(InitialR(b.l, b.r), n - 32) <==> BlockBit(b, Ip(n))
  {
    hide Bit;
    hide Ip;
    IpRightLow();
    hide InitialL;
    hide InitialR;
    InitialRightLow(b.l, b.r);
    match n
    case 49 => case 50 => case 51 => case 52 => case 53 => case 54 => case 55 => case 56 =>
    case 57 => case 58 => case 59 => case 60 => case 61 => case 62 => case 63 => case _ =>
  }

  /** The exchanges, rotations and masks before the rounds are the permutation IP, both halves turned left by one place. */
  lemma InitialConforms(b: Pair)
    ensures IsInitial(b, Unturn(Initial(b)))
  {
    hide Initial;
    hide Bit;
    assert b == Pair(b.l, b.r);
    forall n | 1 <= n <= 64 ensures BlockBit(Unturn(Initial(b)), n) <==> BlockBit(b, Ip(n)) {
      if n <= 16 { InitialBitLeftHigh(b, n); }
      else if n <= 32 { InitialBitLeftLow(b, n); }
      else if n <= 48 { InitialBitRightHigh(b, n); }
      else { InitialBitRightLow(b, n); }
    }
  }

  lemma IpUndone(n: nat)
    requires 1 <= n <= 64
    ensures Ip(IpInverse(n)) == n
  {
    var row, column := (n - 1) / 8, (n - 1) % 8;
    var m := IpInverse(n);
    if column % 2 == 0 {
      assert m == 8 * (4 + column / 2) + (7 - row) + 1;
      assert (m - 1) / 8 == 4 + column / 2 && (m - 1) % 8 == 7 - row;
    } else {
      assert m == 8 * (column / 2) + (7 - row) + 1;
      assert (m - 1) / 8 == column / 2 && (m - 1) % 8 == 7 - row;
    }
  }

  lemma FinalBit(b: Pair, c: Pair, n: nat)
    requires IsInitial(c, b) && 1 <= n <= 64
    ensures BlockBit(c, n) <==> BlockBit(b, IpInverse(n))
  {
    hide Ip;
    hide IpInverse;
    hide BlockBit;
    IpUndone(n);
  }

  lemma FinalIsInverse(b: Pair, c: Pair)
    requires IsInitial(c, b)
    ensures IsFinal(b, c)
  {
    hide IsInitial;
    hide IpInverse;
    hide BlockBit;
    forall n | 1 <= n <= 64 ensures BlockBit(c, n) <==> BlockBit(b, IpInverse(n)) { FinalBit(b, c, n); }
  }

  /** The steps after the rounds are IP undone, on exchanged halves. */
  lemma FinalConforms(b: Pair)
    ensures IsFinal(Exchange(Unturn(b)), Final(b))
  {
    hide Initial;
    hide Final;
    FinalUndoesInitial(b);
    InitialConforms(Final(b));
    assert Unturn(Initial(Final(b))) == Exchange(Unturn(b));
    FinalIsInverse(Exchange(Unturn(b)), Final(b));
  }
}
