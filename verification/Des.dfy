/**
  DES as firefox/vncpwd/d3des.c computes it, on 32-bit words and for any contents
  of the eight substitution tables.
 */
module Des {

  type Word = bv32
  type Byte = bv8

  /** Two words: a block of eight bytes, or the two halves between rounds. */
  datatype Pair = Pair(l: Word, r: Word)

  /** The tables SP1 to SP8; they are read at indices below 64 only. */
  datatype Boxes = Boxes(sp1: Word -> Word, sp2: Word -> Word, sp3: Word -> Word, sp4: Word -> Word,
                         sp5: Word -> Word, sp6: Word -> Word, sp7: Word -> Word, sp8: Word -> Word)

  function Exchange(b: Pair): Pair {
    Pair(b.r, b.l)
  }

  // ----- the bit permutations, word by word -----

  function Cross4L(l: Word, r: Word): Word {
    l ^ ((((l >> 4) ^ r) & 0x0f0f0f0f) << 4)
  }

  function Cross4R(l: Word, r: Word): Word {
    r ^ (((l >> 4) ^ r) & 0x0f0f0f0f)
  }

  function Cross4(b: Pair): Pair {
    Pair(Cross4L(b.l, b.r), Cross4R(b.l, b.r))
  }

  function Cross16L(l: Word, r: Word): Word {
    l ^ ((((l >> 16) ^ r) & 0x0000ffff) << 16)
  }

  function Cross16R(l: Word, r: Word): Word {
    r ^ (((l >> 16) ^ r) & 0x0000ffff)
  }

  function Cross16(b: Pair): Pair {
    Pair(Cross16L(b.l, b.r), Cross16R(b.l, b.r))
  }

  function Cross2L(l: Word, r: Word): Word {
    l ^ ((((l >> 2) ^ r) & 0x33333333) << 2)
  }

  function Cross2R(l: Word, r: Word): Word {
    r ^ (((l >> 2) ^ r) & 0x33333333)
  }

  function Cross2(b: Pair): Pair {
    Pair(Cross2L(b.l, b.r), Cross2R(b.l, b.r))
  }

  function Cross8L(l: Word, r: Word): Word {
    l ^ ((((l >> 8) ^ r) & 0x00ff00ff) << 8)
  }

  function Cross8R(l: Word, r: Word): Word {
    r ^ (((l >> 8) ^ r) & 0x00ff00ff)
  }

  function Cross8(b: Pair): Pair {
    Pair(Cross8L(b.l, b.r), Cross8R(b.l, b.r))
  }

  function MixL(l: Word, r: Word): Word {
    l ^ ((l ^ r) & 0xaaaaaaaa)
  }

  function MixR(l: Word, r: Word): Word {
    r ^ ((l ^ r) & 0xaaaaaaaa)
  }

  function Mix(b: Pair): Pair {
    Pair(MixL(b.l, b.r), MixR(b.l, b.r))
  }

  function RotateLeft(x: Word): Word {
    (x << 1) | ((x >> 31) & 1)
  }

  function RotateRight(x: Word): Word {
    (x << 31) | (x >> 1)
  }

  /** The four exchanges before the rounds. */
  function Scatter(b: Pair): Pair {
    Exchange(Cross8(Cross2(Exchange(Cross16(Cross4(b))))))
  }

  /** The four exchanges after the rounds. */
  function Gather(b: Pair): Pair {
    Cross4(Cross16(Exchange(Cross2(Cross8(b)))))
  }

  /** Rotate and mix, before the rounds. */
  function TurnLeft(b: Pair): Pair {
    var m := Mix(Pair(b.l, RotateLeft(b.r)));
    Pair(RotateLeft(m.l), m.r)
  }

  /** Rotate and mix, after the rounds. */
  function TurnRight(b: Pair): Pair {
    var m := Mix(Pair(b.l, RotateRight(b.r)));
    Pair(RotateRight(m.l), m.r)
  }

  /** The permutation before the rounds. */
  function Initial(b: Pair): Pair {
    TurnLeft(Scatter(b))
  }

  /** The permutation after the rounds; the halves leave in exchanged order. */
  function Final(b: Pair): Pair {
    Gather(TurnRight(b))
  }

  // ----- the permutations undone -----

  lemma Cross4Words(l: Word, r: Word)
    ensures Cross4L(Cross4L(l, r), Cross4R(l, r)) == l
    ensures Cross4R(Cross4L(l, r), Cross4R(l, r)) == r
  {
  }

  lemma Cross4Undo(b: Pair)
    ensures Cross4(Cross4(b)) == b
  {
    Cross4Words(b.l, b.r);
  }

  lemma Cross16Words(l: Word, r: Word)
    ensures Cross16L(Cross16L(l, r), Cross16R(l, r)) == l
    ensures Cross16R(Cross16L(l, r), Cross16R(l, r)) == r
  {
  }

  lemma Cross16Undo(b: Pair)
    ensures Cross16(Cross16(b)) == b
  {
    Cross16Words(b.l, b.r);
  }

  lemma Cross2Words(l: Word, r: Word)
    ensures Cross2L(Cross2L(l, r), Cross2R(l, r)) == l
    ensures Cross2R(Cross2L(l, r), Cross2R(l, r)) == r
  {
  }

  lemma Cross2Undo(b: Pair)
    ensures Cross2(Cross2(b)) == b
  {
    Cross2Words(b.l, b.r);
  }

  lemma Cross8Words(l: Word, r: Word)
    ensures Cross8L(Cross8L(l, r), Cross8R(l, r)) == l
    ensures Cross8R(Cross8L(l, r), Cross8R(l, r)) == r
  {
  }

  lemma Cross8Undo(b: Pair)
    ensures Cross8(Cross8(b)) == b
  {
    Cross8Words(b.l, b.r);
  }

  lemma MixWords(l: Word, r: Word)
    ensures MixL(MixL(l, r), MixR(l, r)) == l && MixR(MixL(l, r), MixR(l, r)) == r
  {
  }

  lemma MixWordsExchange(l: Word, r: Word)
    ensures MixL(r, l) == MixR(l, r) && MixR(r, l) == MixL(l, r)
  {
  }

  lemma MixUndo(b: Pair)
    ensures Mix(Mix(b)) == b && Mix(Exchange(b)) == Exchange(Mix(b))
  {
    MixWords(b.l, b.r);
    MixWordsExchange(b.l, b.r);
  }

  lemma RotatesUndo(x: Word)
    ensures RotateRight(RotateLeft(x)) == x && RotateLeft(RotateRight(x)) == x
  {
  }

  lemma ScatterUndo(b: Pair)
    ensures Gather(Exchange(Scatter(b))) == b
  {
    var b1 := Cross4(b);
    var b3 := Exchange(Cross16(b1));
    var b4 := Cross2(b3);
    Cross4Undo(b);
    Cross16Undo(b1);
    Cross2Undo(b3);
    Cross8Undo(b4);
  }

  lemma GatherUndo(b: Pair)
    ensures Scatter(Gather(b)) == Exchange(b)
  {
    var c2 := Cross8(b);
    var c4 := Exchange(Cross2(c2));
    var c5 := Cross16(c4);
    Cross8Undo(b);
    Cross2Undo(c2);
    Cross16Undo(c4);
    Cross4Undo(c5);
  }

  lemma TurnUndo(b: Pair)
    ensures TurnRight(Exchange(TurnLeft(b))) == Exchange(b)
    ensures TurnLeft(Exchange(TurnRight(b))) == Exchange(b)
  {
    MixedUndo(Pair(b.l, RotateLeft(b.r)));
    MixedUndo(Pair(b.l, RotateRight(b.r)));
    RotatesUndo(b.r);
  }

  lemma MixedUndo(c: Pair)
    ensures var m := Mix(c);
            && RotateRight(RotateLeft(m.l)) == m.l && RotateLeft(RotateRight(m.l)) == m.l
            && Mix(Pair(m.r, m.l)) == Exchange(c)
  {
    RotatesUndo(Mix(c).l);
    MixUndo(Mix(c));
    MixUndo(c);
  }

  /** The final permutation is the initial one undone, on exchanged halves. */
  lemma FinalUndoesInitial(b: Pair)
    ensures Final(Exchange(Initial(b))) == b
    ensures Initial(Final(b)) == Exchange(b)
  {
    TurnUndo(Scatter(b));
    ScatterUndo(b);
    GatherUndo(TurnRight(b));
    TurnUndo(b);
  }

  // ----- the rounds -----

  function Turned(half: Word): Word {
    (half << 28) | (half >> 4)
  }

  function Six0(x: Word, k: Word): Word {
    (x ^ k) & 0x3f
  }

  function Six8(x: Word, k: Word): Word {
    ((x ^ k) >> 8) & 0x3f
  }

  function Six16(x: Word, k: Word): Word {
    ((x ^ k) >> 16) & 0x3f
  }

  function Six24(x: Word, k: Word): Word {
    ((x ^ k) >> 24) & 0x3f
  }

  function Or(x: Word, y: Word): Word {
    x | y
  }

  /** The round function: two key words, eight table lookups. */
  function Feistel(s: Boxes, half: Word, k0: Word, k1: Word): Word {
    var f := Or(Or(Or(s.sp7(Six0(Turned(half), k0)), s.sp5(Six8(Turned(half), k0))),
                   s.sp3(Six16(Turned(half), k0))), s.sp1(Six24(Turned(half), k0)));
    Or(Or(Or(Or(f, s.sp8(Six0(half, k1))), s.sp6(Six8(half, k1))), s.sp4(Six16(half, k1))), s.sp2(Six24(half, k1)))
  }

  function Xor(x: Word, y: Word): Word {
    x ^ y
  }

  /** One round, with the halves exchanged afterwards. */
  function Round(s: Boxes, b: Pair, k0: Word, k1: Word): Pair {
    Pair(b.r, Xor(b.l, Feistel(s, b.r, k0, k1)))
  }

  /** The first `n` of the sixteen rounds. */
  function Rounds(s: Boxes, keys: seq<Word>, b: Pair, n: nat): Pair
    requires |keys| == 32 && n <= 16
  {
    if n == 0 then b else Round(s, Rounds(s, keys, b, n - 1), keys[2 * n - 2], keys[2 * n - 1])
  }

  /** desfunc */
  function Crypt(s: Boxes, keys: seq<Word>, b: Pair): Pair
    requires |keys| == 32
  {
    Final(Rounds(s, keys, Initial(b), 16))
  }

  /** The key words of one schedule taken from the last round to the first. */
  ghost predicate Reversed(keys: seq<Word>, other: seq<Word>) {
    && |keys| == |other| == 32
    && forall i | 0 <= i < 16 :: other[2 * i] == keys[2 * (15 - i)] && other[2 * i + 1] == keys[2 * (15 - i) + 1]
  }

  lemma XorUndo(x: Word, y: Word)
    ensures Xor(Xor(x, y), y) == x
  {
  }

  lemma RoundUndo(s: Boxes, b: Pair, k0: Word, k1: Word)
    ensures Round(s, Exchange(Round(s, b, k0, k1)), k0, k1) == Exchange(b)
  {
    XorUndo(b.l, Feistel(s, b.r, k0, k1));
  }

  lemma {:induction false} RoundsUndo(s: Boxes, keys: seq<Word>, other: seq<Word>, b: Pair, n: nat)
    requires Reversed(keys, other) && n <= 16
    ensures Rounds(s, other, Exchange(Rounds(s, keys, b, 16)), n) == Exchange(Rounds(s, keys, b, 16 - n))
  {
    hide Round;
    hide Exchange;
    if n > 0 {
      RoundsUndo(s, keys, other, b, n - 1);
      var i := n - 1;
      assert other[2 * i] == keys[2 * (15 - i)] && other[2 * i + 1] == keys[2 * (15 - i) + 1];
      RoundUndo(s, Rounds(s, keys, b, 16 - n), other[2 * n - 2], other[2 * n - 1]);
    }
  }

  /** Running the schedule backwards undoes it, whatever the tables. */
  lemma CryptUndo(s: Boxes, keys: seq<Word>, other: seq<Word>, b: Pair)
    requires Reversed(keys, other)
    ensures Crypt(s, other, Crypt(s, keys, b)) == b
  {
    FinalUndoesInitial(Rounds(s, keys, Initial(b), 16));
    RoundsUndo(s, keys, other, Initial(b), 16);
    FinalUndoesInitial(b);
  }

  // ----- complemented blocks and keys -----

  function Neg(x: Word): Word {
    !x
  }

  function Not(b: Pair): Pair {
    Pair(Neg(b.l), Neg(b.r))
  }

  /** A key word with its forty-eight used bits split over two words: all of them complemented. */
  function FlipKey(k: Word): Word {
    k ^ 0x3f3f3f3f
  }

  lemma Cross4WordsFlip(l: Word, r: Word)
    ensures Cross4L(Neg(l), Neg(r)) == Neg(Cross4L(l, r)) && Cross4R(Neg(l), Neg(r)) == Neg(Cross4R(l, r))
  {
  }

  lemma Cross4Flips(b: Pair)
    ensures Cross4(Not(b)) == Not(Cross4(b))
  {
    Cross4WordsFlip(b.l, b.r);
  }

  lemma Cross16WordsFlip(l: Word, r: Word)
    ensures Cross16L(Neg(l), Neg(r)) == Neg(Cross16L(l, r)) && Cross16R(Neg(l), Neg(r)) == Neg(Cross16R(l, r))
  {
  }

  lemma Cross16Flips(b: Pair)
    ensures Cross16(Not(b)) == Not(Cross16(b))
  {
    Cross16WordsFlip(b.l, b.r);
  }

  lemma Cross2WordsFlip(l: Word, r: Word)
    ensures Cross2L(Neg(l), Neg(r)) == Neg(Cross2L(l, r)) && Cross2R(Neg(l), Neg(r)) == Neg(Cross2R(l, r))
  {
  }

  lemma Cross2Flips(b: Pair)
    ensures Cross2(Not(b)) == Not(Cross2(b))
  {
    Cross2WordsFlip(b.l, b.r);
  }

  lemma Cross8WordsFlip(l: Word, r: Word)
    ensures Cross8L(Neg(l), Neg(r)) == Neg(Cross8L(l, r)) && Cross8R(Neg(l), Neg(r)) == Neg(Cross8R(l, r))
  {
  }

  lemma Cross8Flips(b: Pair)
    ensures Cross8(Not(b)) == Not(Cross8(b))
  {
    Cross8WordsFlip(b.l, b.r);
  }

  lemma MixWordLFlips(l: Word, r: Word)
    ensures MixL(!l, !r) == !MixL(l, r)
  {
  }

  lemma MixWordRFlips(l: Word, r: Word)
    ensures MixR(!l, !r) == !MixR(l, r)
  {
  }

  lemma MixWordsFlip(l: Word, r: Word)
    ensures MixL(Neg(l), Neg(r)) == Neg(MixL(l, r)) && MixR(Neg(l), Neg(r)) == Neg(MixR(l, r))
  {
    MixWordLFlips(l, r);
    MixWordRFlips(l, r);
  }

  lemma MixFlips(b: Pair)
    ensures Mix(Not(b)) == Not(Mix(b))
  {
    MixWordsFlip(b.l, b.r);
  }

  lemma RotatesFlip(x: Word)
    ensures RotateLeft(Neg(x)) == Neg(RotateLeft(x)) && RotateRight(Neg(x)) == Neg(RotateRight(x))
  {
  }

  lemma TurnsFlip(b: Pair)
    ensures TurnLeft(Not(b)) == Not(TurnLeft(b)) && TurnRight(Not(b)) == Not(TurnRight(b))
  {
    RotatesFlip(b.r);
    var x, y := Pair(b.l, RotateLeft(b.r)), Pair(b.l, RotateRight(b.r));
    MixFlips(x);
    MixFlips(y);
    RotatesFlip(Mix(x).l);
    RotatesFlip(Mix(y).l);
  }

  lemma ScatterFlips(b: Pair)
    ensures Scatter(Not(b)) == Not(Scatter(b))
  {
    Cross4Flips(b);
    Cross16Flips(Cross4(b));
    Cross2Flips(Exchange(Cross16(Cross4(b))));
    Cross8Flips(Cross2(Exchange(Cross16(Cross4(b)))));
  }

  lemma GatherFlips(b: Pair)
    ensures Gather(Not(b)) == Not(Gather(b))
  {
    Cross8Flips(b);
    Cross2Flips(Cross8(b));
    Cross16Flips(Exchange(Cross2(Cross8(b))));
    Cross4Flips(Cross16(Exchange(Cross2(Cross8(b)))));
  }

  lemma SixFlips(x: Word, k: Word)
    ensures Six0(Neg(x), FlipKey(k)) == Six0(x, k) && Six8(Neg(x), FlipKey(k)) == Six8(x, k)
    ensures Six16(Neg(x), FlipKey(k)) == Six16(x, k) && Six24(Neg(x), FlipKey(k)) == Six24(x, k)
  {
  }

  lemma TurnedWordFlips(x: Word)
    ensures Turned(!x) == !Turned(x)
  {
  }

  lemma TurnedFlips(x: Word)
    ensures Turned(Neg(x)) == Neg(Turned(x))
  {
    TurnedWordFlips(x);
  }

  lemma FeistelFlips(s: Boxes, half: Word, k0: Word, k1: Word)
    ensures Feistel(s, Neg(half), FlipKey(k0), FlipKey(k1)) == Feistel(s, half, k0, k1)
  {
    TurnedFlips(half);
    SixFlips(Turned(half), k0);
    SixFlips(half, k1);
  }

  lemma XorFlips(x: Word, y: Word)
    ensures Xor(Neg(x), y) == Neg(Xor(x, y))
  {
  }

  lemma RoundFlips(s: Boxes, b: Pair, k0: Word, k1: Word)
    ensures Round(s, Not(b), FlipKey(k0), FlipKey(k1)) == Not(Round(s, b, k0, k1))
  {
    FeistelFlips(s, b.r, k0, k1);
    XorFlips(b.l, Feistel(s, b.r, k0, k1));
  }

  ghost predicate Flipped(keys: seq<Word>, other: seq<Word>) {
    |keys| == |other| == 32 && forall k | 0 <= k < 32 :: other[k] == FlipKey(keys[k])
  }

  lemma {:induction false} RoundsFlip(s: Boxes, keys: seq<Word>, other: seq<Word>, b: Pair, n: nat)
    requires Flipped(keys, other) && n <= 16
    ensures Rounds(s, other, Not(b), n) == Not(Rounds(s, keys, b, n))
  {
    if n > 0 {
      RoundsFlip(s, keys, other, b, n - 1);
      RoundFlips(s, Rounds(s, keys, b, n - 1), keys[2 * n - 2], keys[2 * n - 1]);
    }
  }

  /** Complementing the block and all used key bits complements the result. */
  lemma CryptFlips(s: Boxes, keys: seq<Word>, other: seq<Word>, b: Pair)
    requires Flipped(keys, other)
    ensures Crypt(s, other, Not(b)) == Not(Crypt(s, keys, b))
  {
    ScatterFlips(b);
    TurnsFlip(Scatter(b));
    RoundsFlip(s, keys, other, Initial(b), 16);
    var c := Rounds(s, keys, Initial(b), 16);
    TurnsFlip(c);
    GatherFlips(TurnRight(c));
  }
}
