/**
  firefox/vncpwd/d3des.c as it runs where `unsigned long` has 64 bits: the same
  statements on wide words, arrays filled and overwritten in place, global key
  registers. The low 32 bits of every word are shown to follow the 32-bit algorithm,
  whatever the high bits hold.
 */
module DesMachine {

  import opened Des
  import opened DesKeys
  import opened DesModes

  type Wide = bv64

  function Low(x: Wide): Word {
    (x & 0xffffffff) as Word
  }

  function Widen(x: Word): Wide {
    x as Wide
  }

  /** Nothing above the low 32 bits. */
  predicate Clean(x: Wide) {
    x & 0xffffffff == x
  }

  // ----- one statement at a time -----

  function Work4(l: Wide, r: Wide): Wide {
    ((l >> 4) ^ r) & 0x0f0f0f0f
  }

  lemma Cross4LowL(l: Wide, r: Wide)
    ensures Low(l ^ (Work4(l, r) << 4)) == Cross4L(Low(l), Low(r))
  {
  }

  lemma Cross4LowR(l: Wide, r: Wide)
    ensures Low(r ^ Work4(l, r)) == Cross4R(Low(l), Low(r))
  {
  }

  function Work16(l: Wide, r: Wide): Wide {
    ((l >> 16) ^ r) & 0x0000ffff
  }

  lemma Cross16LowL(l: Wide, r: Wide)
    ensures Low(l ^ (Work16(l, r) << 16)) == Cross16L(Low(l), Low(r))
  {
  }

  lemma Cross16LowR(l: Wide, r: Wide)
    ensures Low(r ^ Work16(l, r)) == Cross16R(Low(l), Low(r))
  {
  }

  function Work2(l: Wide, r: Wide): Wide {
    ((l >> 2) ^ r) & 0x33333333
  }

  lemma Cross2LowL(l: Wide, r: Wide)
    ensures Low(l ^ (Work2(l, r) << 2)) == Cross2L(Low(l), Low(r))
  {
  }

  lemma Cross2LowR(l: Wide, r: Wide)
    ensures Low(r ^ Work2(l, r)) == Cross2R(Low(l), Low(r))
  {
  }

  function Work8(l: Wide, r: Wide): Wide {
    ((l >> 8) ^ r) & 0x00ff00ff
  }

  lemma Cross8LowL(l: Wide, r: Wide)
    ensures Low(l ^ (Work8(l, r) << 8)) == Cross8L(Low(l), Low(r))
  {
  }

  lemma Cross8LowR(l: Wide, r: Wide)
    ensures Low(r ^ Work8(l, r)) == Cross8R(Low(l), Low(r))
  {
  }

  function WorkMix(l: Wide, r: Wide): Wide {
    (l ^ r) & 0xaaaaaaaa
  }

  lemma MixLowL(l: Wide, r: Wide)
    ensures Low(l ^ WorkMix(l, r)) == MixL(Low(l), Low(r))
  {
  }

  lemma MixLowR(l: Wide, r: Wide)
    ensures Low(r ^ WorkMix(l, r)) == MixR(Low(l), Low(r))
  {
  }

  lemma MixStaysClean(l: Wide, r: Wide)
    requires Clean(r)
    ensures Clean(r ^ WorkMix(l, r))
  {
  }

  /** The rotation before the rounds masks its result. */
  function WideLeft(x: Wide): Wide {
    ((x << 1) | ((x >> 31) & 1)) & 0xffffffff
  }

  /** The rotation after the rounds does not, and leaves bits above the low 32. */
  function WideRight(x: Wide): Wide {
    (x << 31) | (x >> 1)
  }

  lemma WideLeftBits(x: Wide)
    ensures Low(((x << 1) | ((x >> 31) & 1)) & 0xffffffff) == (Low(x) << 1) | ((Low(x) >> 31) & 1)
  {
  }

  lemma WideLeftLow(x: Wide)
    ensures Low(WideLeft(x)) == RotateLeft(Low(x))
  {
    WideLeftBits(x);
  }

  lemma WideLeftClean(x: Wide)
    ensures Clean(WideLeft(x))
  {
  }

  lemma CleanIsWidened(x: Wide)
    requires Clean(x)
    ensures x == Widen(Low(x))
  {
  }

  lemma WideRightBits(w: Word)
    ensures Low(WideRight(Widen(w))) == RotateRight(w)
  {
  }

  lemma WideRightLow(x: Wide)
    requires Clean(x)
    ensures Low(WideRight(x)) == RotateRight(Low(x))
  {
    CleanIsWidened(x);
    WideRightBits(Low(x));
  }

  // ----- the permutations -----

  method InitialWords(left: Wide, right: Wide) returns (l: Wide, r: Wide)
    ensures Clean(l) && Clean(r)
    ensures Pair(Low(l), Low(r)) == Initial(Pair(Low(left), Low(right)))
  {
    ghost var b := Pair(Low(left), Low(right));
    l, r := ScatterWords(left, right);
    ghost var c := Scatter(b);
    l, r := TurnWordsLeft(l, r);
    assert Initial(b) == TurnLeft(c);
  }

  method ScatterWords(left: Wide, right: Wide) returns (l: Wide, r: Wide)
    ensures Pair(Low(l), Low(r)) == Scatter(Pair(Low(left), Low(right)))
  {
    var l1, r1 := left ^ (Work4(left, right) << 4), right ^ Work4(left, right);
    Cross4LowL(left, right);
    Cross4LowR(left, right);
    var l2, r2 := l1 ^ (Work16(l1, r1) << 16), r1 ^ Work16(l1, r1);
    Cross16LowL(l1, r1);
    Cross16LowR(l1, r1);
    var l3, r3 := l2 ^ Work2(r2, l2), r2 ^ (Work2(r2, l2) << 2);
    Cross2LowL(r2, l2);
    Cross2LowR(r2, l2);
    l, r := l3 ^ Work8(r3, l3), r3 ^ (Work8(r3, l3) << 8);
    Cross8LowL(r3, l3);
    Cross8LowR(r3, l3);
  }

  method TurnWordsLeft(left: Wide, right: Wide) returns (l: Wide, r: Wide)
    ensures Clean(l) && Clean(r)
    ensures Pair(Low(l), Low(r)) == TurnLeft(Pair(Low(left), Low(right)))
  {
    var r1 := WideLeft(right);
    WideLeftLow(right);
    WideLeftClean(right);
    var l2, r2 := left ^ WorkMix(left, r1), r1 ^ WorkMix(left, r1);
    MixLowL(left, r1);
    MixLowR(left, r1);
    MixStaysClean(left, r1);
    l, r := WideLeft(l2), r2;
    WideLeftLow(l2);
    WideLeftClean(l2);
  }

  method FinalWords(left: Wide, right: Wide) returns (l: Wide, r: Wide)
    requires Clean(left) && Clean(right)
    ensures Pair(Low(r), Low(l)) == Final(Pair(Low(left), Low(right)))
  {
    l, r := TurnWordsRight(left, right);
    ghost var c := TurnRight(Pair(Low(left), Low(right)));
    assert Final(Pair(Low(left), Low(right))) == Gather(c);
    l, r := GatherWords(l, r);
  }

  method TurnWordsRight(left: Wide, right: Wide) returns (l: Wide, r: Wide)
    requires Clean(left) && Clean(right)
    ensures Pair(Low(l), Low(r)) == TurnRight(Pair(Low(left), Low(right)))
  {
    var r1 := WideRight(right);
    WideRightLow(right);
    var l2, r2 := left ^ WorkMix(left, r1), r1 ^ WorkMix(left, r1);
    MixLowL(left, r1);
    MixLowR(left, r1);
    MixLeftClean(left, r1);
    l, r := WideRight(l2), r2;
    WideRightLow(l2);
  }

  lemma MixLeftClean(l: Wide, r: Wide)
    requires Clean(l)
    ensures Clean(l ^ WorkMix(l, r))
  {
  }

  method GatherWords(left: Wide, right: Wide) returns (l: Wide, r: Wide)
    ensures Pair(Low(r), Low(l)) == Gather(Pair(Low(left), Low(right)))
  {
    var l1, r1 := left ^ (Work8(left, right) << 8), right ^ Work8(left, right);
    Cross8LowL(left, right);
    Cross8LowR(left, right);
    var l2, r2 := l1 ^ (Work2(l1, r1) << 2), r1 ^ Work2(l1, r1);
    Cross2LowL(l1, r1);
    Cross2LowR(l1, r1);
    var l3, r3 := l2 ^ Work16(r2, l2), r2 ^ (Work16(r2, l2) << 16);
    Cross16LowL(r2, l2);
    Cross16LowR(r2, l2);
    l, r := l3 ^ Work4(r3, l3), r3 ^ (Work4(r3, l3) << 4);
    Cross4LowL(r3, l3);
    Cross4LowR(r3, l3);
  }

  // ----- the rounds -----

  function WideTurned(half: Wide): Wide {
    (half << 28) | (half >> 4)
  }

  function Index0(x: Wide, k: Wide): Word { Low((x ^ k) & 0x3f) }
  function Index8(x: Wide, k: Wide): Word { Low(((x ^ k) >> 8) & 0x3f) }
  function Index16(x: Wide, k: Wide): Word { Low(((x ^ k) >> 16) & 0x3f) }
  function Index24(x: Wide, k: Wide): Word { Low(((x ^ k) >> 24) & 0x3f) }

  lemma IndexLow(x: Wide, k: Wide)
    ensures Index0(x, k) == Six0(Low(x), Low(k)) && Index8(x, k) == Six8(Low(x), Low(k))
    ensures Index16(x, k) == Six16(Low(x), Low(k)) && Index24(x, k) == Six24(Low(x), Low(k))
  {
  }

  lemma TurnedBits(w: Word)
    ensures Low(WideTurned(Widen(w))) == Turned(w)
  {
  }

  lemma TurnedLow(half: Wide)
    requires Clean(half)
    ensures Low(WideTurned(half)) == Turned(Low(half))
  {
    CleanIsWidened(half);
    TurnedBits(Low(half));
  }

  function WideOr(x: Wide, y: Wide): Wide {
    x | y
  }

  /** The value that one round adds to the other half: eight lookups, combined one after another. */
  function Fval(s: Boxes, half: Wide, k0: Wide, k1: Wide): Wide {
    var u := WideTurned(half);
    var f := WideOr(WideOr(WideOr(Widen(s.sp7(Index0(u, k0))), Widen(s.sp5(Index8(u, k0)))), Widen(s.sp3(Index16(u, k0)))),
                    Widen(s.sp1(Index24(u, k0))));
    WideOr(WideOr(WideOr(WideOr(f, Widen(s.sp8(Index0(half, k1)))), Widen(s.sp6(Index8(half, k1)))),
                  Widen(s.sp4(Index16(half, k1)))), Widen(s.sp2(Index24(half, k1))))
  }

  lemma WidenOr(x: Word, y: Word)
    ensures WideOr(Widen(x), Widen(y)) == Widen(Or(x, y))
  {
  }

  lemma WidenEight(a: Word, b: Word, c: Word, d: Word, e: Word, f: Word, g: Word, h: Word)
    ensures WideOr(WideOr(WideOr(WideOr(WideOr(WideOr(WideOr(Widen(a), Widen(b)), Widen(c)), Widen(d)),
                                       Widen(e)), Widen(f)), Widen(g)), Widen(h)) ==
            Widen(Or(Or(Or(Or(Or(Or(Or(a, b), c), d), e), f), g), h))
  {
    WidenOr(a, b);
    WidenOr(Or(a, b), c);
    WidenOr(Or(Or(a, b), c), d);
    WidenOr(Or(Or(Or(a, b), c), d), e);
    WidenOr(Or(Or(Or(Or(a, b), c), d), e), f);
    WidenOr(Or(Or(Or(Or(Or(a, b), c), d), e), f), g);
    WidenOr(Or(Or(Or(Or(Or(Or(a, b), c), d), e), f), g), h);
  }

  lemma FvalLow(s: Boxes, half: Wide, k0: Wide, k1: Wide)
    requires Clean(half)
    ensures Fval(s, half, k0, k1) == Widen(Feistel(s, Low(half), Low(k0), Low(k1)))
  {
    var h, j0, j1 := Low(half), Low(k0), Low(k1);
    TurnedLow(half);
    IndexLow(WideTurned(half), k0);
    IndexLow(half, k1);
    WidenEight(s.sp7(Six0(Turned(h), j0)), s.sp5(Six8(Turned(h), j0)), s.sp3(Six16(Turned(h), j0)),
               s.sp1(Six24(Turned(h), j0)), s.sp8(Six0(h, j1)), s.sp6(Six8(h, j1)), s.sp4(Six16(h, j1)), s.sp2(Six24(h, j1)));
  }
}
