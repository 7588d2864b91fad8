/** The key schedule of firefox/vncpwd/d3des.c, and what complementing a key does to it. */
module DesKeys {

  import opened Des

  type Key = k: seq<Byte> | |k| == 8 witness [0, 0, 0, 0, 0, 0, 0, 0]

  datatype Mode = EN0 | DE1

  function ByteBit(m: nat): Byte
    requires m < 8
  {
    match m
    case 0 => 1 case 1 => 2 case 2 => 4 case 3 => 8 case 4 => 16 case 5 => 32 case 6 => 64 case _ => 128
  }

  function BigByte(j: nat): Word
    requires j < 24
  {
    match j
    case 0 => 0x800000 case 1 => 0x400000 case 2 => 0x200000 case 3 => 0x100000 case 4 => 0x80000 case 5 => 0x40000
    case 6 => 0x20000 case 7 => 0x10000 case 8 => 0x8000 case 9 => 0x4000 case 10 => 0x2000 case 11 => 0x1000
    case 12 => 0x800 case 13 => 0x400 case 14 => 0x200 case 15 => 0x100 case 16 => 0x80 case 17 => 0x40
    case 18 => 0x20 case 19 => 0x10 case 20 => 0x8 case 21 => 0x4 case 22 => 0x2 case _ => 0x1
  }

  function Pc1(j: nat): (l: nat)
    requires j < 56
    ensures l < 64
  {
    match j
    case 0 => 56 case 1 => 48 case 2 => 40 case 3 => 32 case 4 => 24 case 5 => 16 case 6 => 8
    case 7 => 0 case 8 => 57 case 9 => 49 case 10 => 41 case 11 => 33 case 12 => 25 case 13 => 17
    case 14 => 9 case 15 => 1 case 16 => 58 case 17 => 50 case 18 => 42 case 19 => 34 case 20 => 26
    case 21 => 18 case 22 => 10 case 23 => 2 case 24 => 59 case 25 => 51 case 26 => 43 case 27 => 35
    case 28 => 62 case 29 => 54 case 30 => 46 case 31 => 38 case 32 => 30 case 33 => 22 case 34 => 14
    case 35 => 6 case 36 => 61 case 37 => 53 case 38 => 45 case 39 => 37 case 40 => 29 case 41 => 21
    case 42 => 13 case 43 => 5 case 44 => 60 case 45 => 52 case 46 => 44 case 47 => 36 case 48 => 28
    case 49 => 20 case 50 => 12 case 51 => 4 case 52 => 27 case 53 => 19 case 54 => 11 case _ => 3
  }

  function TotRot(i: nat): (l: nat)
    requires i < 16
    ensures 1 <= l <= 28
  {
    match i
    case 0 => 1 case 1 => 2 case 2 => 4 case 3 => 6 case 4 => 8 case 5 => 10 case 6 => 12 case 7 => 14
    case 8 => 15 case 9 => 17 case 10 => 19 case 11 => 21 case 12 => 23 case 13 => 25 case 14 => 27 case _ => 28
  }

  function Pc2(j: nat): (l: nat)
    requires j < 48
    ensures l < 56
  {
    match j
    case 0 => 13 case 1 => 16 case 2 => 10 case 3 => 23 case 4 => 0 case 5 => 4
    case 6 => 2 case 7 => 27 case 8 => 14 case 9 => 5 case 10 => 20 case 11 => 9
    case 12 => 22 case 13 => 18 case 14 => 11 case 15 => 3 case 16 => 25 case 17 => 7
    case 18 => 15 case 19 => 6 case 20 => 26 case 21 => 19 case 22 => 12 case 23 => 1
    case 24 => 40 case 25 => 51 case 26 => 30 case 27 => 36 case 28 => 46 case 29 => 54
    case 30 => 29 case 31 => 39 case 32 => 50 case 33 => 44 case 34 => 32 case 35 => 47
    case 36 => 43 case 37 => 48 case 38 => 38 case 39 => 55 case 40 => 33 case 41 => 52
    case 42 => 45 case 43 => 41 case 44 => 49 case 45 => 35 case 46 => 28 case _ => 31
  }

  /** One bit of the key, counted through the bytes. */
  predicate KeyBit(key: Key, l: nat)
    requires l < 64
  {
    key[l / 8] & ByteBit(l % 8) != 0
  }

  /** Where bit `j` of the two rotated halves comes from in round `i`. */
  function Rotated(i: nat, j: nat): (l: nat)
    requires i < 16 && j < 56
    ensures l < 56
  {
    var l := j + TotRot(i);
    if j < 28 then (if l < 28 then l else l - 28) else (if l < 56 then l else l - 28)
  }

  predicate RoundBit(key: Key, i: nat, j: nat)
    requires i < 16 && j < 48
  {
    KeyBit(key, Pc1(Rotated(i, Pc2(j))))
  }

  /** The first `n` bits of the selected twenty-four, starting at `from`, packed from the top. */
  function Pack(key: Key, i: nat, from: nat, n: nat): Word
    requires i < 16 && n <= 24 && (from == 0 || from == 24)
  {
    if n == 0 then 0
    else if RoundBit(key, i, from + n - 1) then Or(Pack(key, i, from, n - 1), BigByte(n - 1))
    else Pack(key, i, from, n - 1)
  }

  function Cook0(raw0: Word, raw1: Word): Word {
    ((raw0 & 0x00fc0000) << 6) | ((raw0 & 0x00000fc0) << 10) | ((raw1 & 0x00fc0000) >> 10) | ((raw1 & 0x00000fc0) >> 6)
  }

  function Cook1(raw0: Word, raw1: Word): Word {
    ((raw0 & 0x0003f000) << 12) | ((raw0 & 0x0000003f) << 16) | ((raw1 & 0x0003f000) >> 4) | (raw1 & 0x0000003f)
  }

  /** Key word `k` of the encryption schedule. */
  function KeyWord(key: Key, k: nat): Word
    requires k < 32
  {
    var raw0, raw1 := Pack(key, k / 2, 0, 24), Pack(key, k / 2, 24, 24);
    if k % 2 == 0 then Cook0(raw0, raw1) else Cook1(raw0, raw1)
  }

  /** deskey: for decryption the rounds are taken in the opposite order. */
  function Schedule(key: Key, mode: Mode): (keys: seq<Word>)
    ensures |keys| == 32
  {
    seq(32, k requires 0 <= k < 32 => KeyWord(key, Taken(mode, k)))
  }

  /** Which word of the encryption schedule stands at place `k`. */
  function Taken(mode: Mode, k: nat): (t: nat)
    requires k < 32
    ensures t < 32
  {
    if mode == DE1 then 2 * (15 - k / 2) + k % 2 else k
  }

  function Opposite(mode: Mode): Mode {
    if mode == EN0 then DE1 else EN0
  }

  lemma TakenReversed(mode: Mode, i: nat)
    requires i < 16
    ensures Taken(Opposite(mode), 2 * i) == Taken(mode, 2 * (15 - i))
    ensures Taken(Opposite(mode), 2 * i + 1) == Taken(mode, 2 * (15 - i) + 1)
  {
  }

  /** The two schedules of a key are each other taken backwards, two words at a time. */
  lemma SchedulesReversed(key: Key, mode: Mode)
    ensures Reversed(Schedule(key, mode), Schedule(key, Opposite(mode)))
  {
    hide KeyWord;
    var a, b := Schedule(key, mode), Schedule(key, Opposite(mode));
    forall i | 0 <= i < 16 ensures b[2 * i] == a[2 * (15 - i)] && b[2 * i + 1] == a[2 * (15 - i) + 1] {
      TakenReversed(mode, i);
    }
  }

  /** Decryption undoes encryption, and encryption decryption, for every key, block and set of tables. */
  lemma DecryptUndoesEncrypt(s: Boxes, key: Key, mode: Mode, b: Pair)
    ensures Crypt(s, Schedule(key, Opposite(mode)), Crypt(s, Schedule(key, mode), b)) == b
  {
    SchedulesReversed(key, mode);
    CryptUndo(s, Schedule(key, mode), Schedule(key, Opposite(mode)), b);
  }

  // ----- complementation -----

  function NotKey(key: Key): Key {
    seq(8, i requires 0 <= i < 8 => !key[i])
  }

  lemma KeyBitFlips(key: Key, l: nat)
    requires l < 64
    ensures KeyBit(NotKey(key), l) <==> !KeyBit(key, l)
  {
    var b := key[l / 8];
    BitFlips(b, l % 8);
  }

  lemma BitFlips(b: Byte, m: nat)
    requires m < 8
    ensures (!b) & ByteBit(m) != 0 <==> b & ByteBit(m) == 0
  {
    if m == 0 { assert (!b) & 1 != 0 <==> b & 1 == 0; }
    else if m == 1 { assert (!b) & 2 != 0 <==> b & 2 == 0; }
    else if m == 2 { assert (!b) & 4 != 0 <==> b & 4 == 0; }
    else if m == 3 { assert (!b) & 8 != 0 <==> b & 8 == 0; }
    else if m == 4 { assert (!b) & 16 != 0 <==> b & 16 == 0; }
    else if m == 5 { assert (!b) & 32 != 0 <==> b & 32 == 0; }
    else if m == 6 { assert (!b) & 64 != 0 <==> b & 64 == 0; }
    else { assert (!b) & 128 != 0 <==> b & 128 == 0; }
  }

  /** The first `n` bits of a twenty-four-bit word, all set. */
  function Ones(n: nat): Word
    requires n <= 24
  {
    match n
    case 0 => 0x000000 case 1 => 0x800000 case 2 => 0xc00000 case 3 => 0xe00000 case 4 => 0xf00000
    case 5 => 0xf80000 case 6 => 0xfc0000 case 7 => 0xfe0000 case 8 => 0xff0000 case 9 => 0xff8000
    case 10 => 0xffc000 case 11 => 0xffe000 case 12 => 0xfff000 case 13 => 0xfff800 case 14 => 0xfffc00
    case 15 => 0xfffe00 case 16 => 0xffff00 case 17 => 0xffff80 case 18 => 0xffffc0 case 19 => 0xffffe0
    case 20 => 0xfffff0 case 21 => 0xfffff8 case 22 => 0xfffffc case 23 => 0xfffffe case _ => 0xffffff
  }

  predicate Inside(x: Word, ones: Word) {
    x & !ones == 0
  }

  predicate Apart(x: Word, y: Word) {
    x & y == 0
  }

  lemma OnesStepHigh(n: nat)
    requires n < 12
    ensures Ones(n + 1) == Or(Ones(n), BigByte(n)) && Apart(Ones(n), BigByte(n))
  {
    match n
    case 0 => case 1 => case 2 => case 3 => case 4 => case 5 => case 6 => case 7 => case 8 => case 9 => case 10 => case _ =>
  }

  lemma OnesStepLow(n: nat)
    requires 12 <= n < 24
    ensures Ones(n + 1) == Or(Ones(n), BigByte(n)) && Apart(Ones(n), BigByte(n))
  {
    match n
    case 12 => case 13 => case 14 => case 15 => case 16 => case 17 =>
    case 18 => case 19 => case 20 => case 21 => case 22 => case _ =>
  }

  lemma OnesStep(n: nat)
    requires n < 24
    ensures Ones(n + 1) == Or(Ones(n), BigByte(n)) && Apart(Ones(n), BigByte(n))
  {
    if n < 12 { OnesStepHigh(n); } else { OnesStepLow(n); }
  }

  lemma SetInOne(x: Word, ones: Word, bit: Word)
    requires Inside(x, ones) && Apart(ones, bit)
    ensures Xor(x, ones) == Xor(Or(x, bit), Or(ones, bit))
  {
  }

  lemma SetInOther(x: Word, ones: Word, bit: Word)
    requires Inside(x, ones) && Apart(ones, bit)
    ensures Or(Xor(x, ones), bit) == Xor(x, Or(ones, bit))
  {
  }

  lemma StaysInside(x: Word, ones: Word, bit: Word)
    requires Inside(x, ones)
    ensures Inside(x, Or(ones, bit))
  {
  }

  lemma AddsInside(x: Word, ones: Word, bit: Word)
    requires Inside(x, ones)
    ensures Inside(Or(x, bit), Or(ones, bit))
  {
  }

  lemma NoneInside()
    ensures Inside(0, Ones(0))
  {
  }

  lemma {:induction false} PackInside(key: Key, i: nat, from: nat, n: nat)
    requires i < 16 && n <= 24 && (from == 0 || from == 24)
    ensures Inside(Pack(key, i, from, n), Ones(n))
  {
    hide BigByte;
    hide Ones;
    hide Or;
    hide Inside;
    hide RoundBit;
    if n == 0 {
      NoneInside();
    } else {
      PackInside(key, i, from, n - 1);
      OnesStep(n - 1);
      StaysInside(Pack(key, i, from, n - 1), Ones(n - 1), BigByte(n - 1));
      AddsInside(Pack(key, i, from, n - 1), Ones(n - 1), BigByte(n - 1));
    }
  }

  /** One more bit: set on one side, left out on the other. */
  lemma FlipStep(x: Word, y: Word, ones: Word, bit: Word, more: Word, set1: bool)
    requires y == Xor(x, ones) && Inside(x, ones) && Apart(ones, bit) && more == Or(ones, bit)
    ensures (if set1 then y else Or(y, bit)) == Xor(if set1 then Or(x, bit) else x, more)
  {
    if set1 { SetInOne(x, ones, bit); } else { SetInOther(x, ones, bit); }
  }

  lemma {:induction false} PackFlips(key: Key, i: nat, from: nat, n: nat)
    requires i < 16 && n <= 24 && (from == 0 || from == 24)
    ensures Pack(NotKey(key), i, from, n) == Xor(Pack(key, i, from, n), Ones(n))
  {
    if n == 0 {
      XorZero(Pack(key, i, from, 0));
    } else {
      PackFlips(key, i, from, n - 1);
      PackInside(key, i, from, n - 1);
      OnesStep(n - 1);
      var set1 := RoundBit(key, i, from + n - 1);
      KeyBitFlips(key, Pc1(Rotated(i, Pc2(from + n - 1))));
      FlipStep(Pack(key, i, from, n - 1), Pack(NotKey(key), i, from, n - 1), Ones(n - 1), BigByte(n - 1), Ones(n), set1);
    }
  }

  lemma XorZero(x: Word)
    requires x == 0
    ensures x == Xor(x, Ones(0))
  {
  }

  lemma Cook0WordFlips(raw0: Word, raw1: Word)
    ensures Cook0(raw0 ^ 0xffffff, raw1 ^ 0xffffff) == Cook0(raw0, raw1) ^ 0x3f3f3f3f
  {
  }

  lemma Cook1WordFlips(raw0: Word, raw1: Word)
    ensures Cook1(raw0 ^ 0xffffff, raw1 ^ 0xffffff) == Cook1(raw0, raw1) ^ 0x3f3f3f3f
  {
  }

  lemma CookFlips(raw0: Word, raw1: Word)
    ensures Cook0(Xor(raw0, 0xffffff), Xor(raw1, 0xffffff)) == FlipKey(Cook0(raw0, raw1))
    ensures Cook1(Xor(raw0, 0xffffff), Xor(raw1, 0xffffff)) == FlipKey(Cook1(raw0, raw1))
  {
    Cook0WordFlips(raw0, raw1);
    Cook1WordFlips(raw0, raw1);
  }

  lemma AllPacked(key: Key, i: nat, from: nat)
    requires i < 16 && (from == 0 || from == 24)
    ensures Pack(NotKey(key), i, from, 24) == Xor(Pack(key, i, from, 24), 0xffffff)
  {
    PackFlips(key, i, from, 24);
  }

  lemma KeyWordFlips(key: Key, k: nat)
    requires k < 32
    ensures KeyWord(NotKey(key), k) == FlipKey(KeyWord(key, k))
  {
    AllPacked(key, k / 2, 0);
    AllPacked(key, k / 2, 24);
    CookFlips(Pack(key, k / 2, 0, 24), Pack(key, k / 2, 24, 24));
  }

  /** Complementing the key and the block complements the result. */
  lemma Complementation(s: Boxes, key: Key, mode: Mode, b: Pair)
    ensures Crypt(s, Schedule(NotKey(key), mode), Not(b)) == Not(Crypt(s, Schedule(key, mode), b))
  {
    var keys, other := Schedule(key, mode), Schedule(NotKey(key), mode);
    forall k | 0 <= k < 32 ensures other[k] == FlipKey(keys[k]) {
      KeyWordFlips(key, Taken(mode, k));
    }
    CryptFlips(s, keys, other, b);
  }
}
