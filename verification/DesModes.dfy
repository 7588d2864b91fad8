/** The multi-length modes of firefox/vncpwd/d3des.c: three passes, with words exchanged between blocks. */
module DesModes {

  import opened Des
  import opened DesKeys

  /** The contents of the registers KnL, KnR and Kn3. */
  datatype Registers = Registers(left: seq<Word>, right: seq<Word>, third: seq<Word>)

  ghost predicate Loaded(k: Registers) {
    |k.left| == |k.right| == |k.third| == 32
  }

  /** des2key */
  function DoubleKey(key: seq<Byte>, mode: Mode): Registers
    requires |key| == 16
  {
    Registers(Schedule(key[..8], mode), Schedule(key[8..], Opposite(mode)), Schedule(key[..8], mode))
  }

  /** des3key */
  function TripleKey(key: seq<Byte>, mode: Mode): Registers
    requires |key| == 24
  {
    var first, third := if mode == EN0 then key[..8] else key[16..], if mode == EN0 then key[16..] else key[..8];
    Registers(Schedule(first, mode), Schedule(key[8..16], Opposite(mode)), Schedule(third, mode))
  }

  /** Ddes: one block, three passes. */
  function Crypt1(s: Boxes, k: Registers, a: Pair): Pair
    requires Loaded(k)
  {
    Crypt(s, k.third, Crypt(s, k.right, Crypt(s, k.left, a)))
  }

  datatype Two = Two(a: Pair, b: Pair)
  datatype Three = Three(a: Pair, b: Pair, c: Pair)

  function Pass2(s: Boxes, keys: seq<Word>, t: Two): Two
    requires |keys| == 32
  {
    Two(Crypt(s, keys, t.a), Crypt(s, keys, t.b))
  }

  /** The second word of the first block against the first word of the second. */
  function Cross2Blocks(t: Two): Two {
    Two(Pair(t.a.l, t.b.l), Pair(t.a.r, t.b.r))
  }

  /** D2des */
  function Crypt2(s: Boxes, k: Registers, t: Two): Two
    requires Loaded(k)
  {
    Pass2(s, k.third, Cross2Blocks(Pass2(s, k.right, Cross2Blocks(Pass2(s, k.left, t)))))
  }

  function Pass3(s: Boxes, keys: seq<Word>, t: Three): Three
    requires |keys| == 32
  {
    Three(Crypt(s, keys, t.a), Crypt(s, keys, t.b), Crypt(s, keys, t.c))
  }

  function Cross3Blocks(t: Three): Three {
    Three(Pair(t.a.l, t.b.l), Pair(t.a.r, t.c.l), Pair(t.b.r, t.c.r))
  }

  /** D3des */
  function Crypt3(s: Boxes, k: Registers, t: Three): Three
    requires Loaded(k)
  {
    Pass3(s, k.third, Cross3Blocks(Pass3(s, k.right, Cross3Blocks(Pass3(s, k.left, t)))))
  }

  /** `other` runs the three registers of `k` backwards. */
  ghost predicate Inverse(k: Registers, other: Registers) {
    Reversed(k.third, other.left) && Reversed(k.right, other.right) && Reversed(k.left, other.third)
  }

  lemma DoubleKeysInverse(key: seq<Byte>, mode: Mode)
    requires |key| == 16
    ensures Inverse(DoubleKey(key, mode), DoubleKey(key, Opposite(mode)))
  {
    SchedulesReversed(key[..8], mode);
    SchedulesReversed(key[8..], Opposite(mode));
  }

  lemma TripleKeysInverse(key: seq<Byte>, mode: Mode)
    requires |key| == 24
    ensures Inverse(TripleKey(key, mode), TripleKey(key, Opposite(mode)))
  {
    SchedulesReversed(key[..8], mode);
    SchedulesReversed(key[8..16], Opposite(mode));
    SchedulesReversed(key[16..], mode);
  }

  lemma Pass2Undo(s: Boxes, keys: seq<Word>, other: seq<Word>, t: Two)
    requires Reversed(keys, other)
    ensures Pass2(s, other, Pass2(s, keys, t)) == t
  {
    CryptUndo(s, keys, other, t.a);
    CryptUndo(s, keys, other, t.b);
  }

  lemma Pass3Undo(s: Boxes, keys: seq<Word>, other: seq<Word>, t: Three)
    requires Reversed(keys, other)
    ensures Pass3(s, other, Pass3(s, keys, t)) == t
  {
    CryptUndo(s, keys, other, t.a);
    CryptUndo(s, keys, other, t.b);
    CryptUndo(s, keys, other, t.c);
  }

  /** One, two and three blocks come back under inverse registers. */
  lemma Crypt1Undo(s: Boxes, k: Registers, other: Registers, a: Pair)
    requires Inverse(k, other)
    ensures Crypt1(s, other, Crypt1(s, k, a)) == a
  {
    var b := Crypt(s, k.left, a);
    var c := Crypt(s, k.right, b);
    CryptUndo(s, k.third, other.left, c);
    CryptUndo(s, k.right, other.right, b);
    CryptUndo(s, k.left, other.third, a);
  }

  lemma Crypt2Undo(s: Boxes, k: Registers, other: Registers, t: Two)
    requires Inverse(k, other)
    ensures Crypt2(s, other, Crypt2(s, k, t)) == t
  {
    var t1 := Pass2(s, k.left, t);
    var t2 := Cross2Blocks(t1);
    var t3 := Pass2(s, k.right, t2);
    var t4 := Cross2Blocks(t3);
    Pass2Undo(s, k.third, other.left, t4);
    Pass2Undo(s, k.right, other.right, t2);
    Pass2Undo(s, k.left, other.third, t);
    Exchange2Undo(t3);
    Exchange2Undo(t1);
  }

  /** The exchanges between blocks are their own inverses. */
  lemma Exchange2Undo(t: Two)
    ensures Cross2Blocks(Cross2Blocks(t)) == t
  {
  }

  lemma Exchange3Undo(t: Three)
    ensures Cross3Blocks(Cross3Blocks(t)) == t
  {
  }

  lemma Crypt3Undo(s: Boxes, k: Registers, other: Registers, t: Three)
    requires Inverse(k, other)
    ensures Crypt3(s, other, Crypt3(s, k, t)) == t
  {
    var t1 := Pass3(s, k.left, t);
    var t2 := Cross3Blocks(t1);
    var t3 := Pass3(s, k.right, t2);
    var t4 := Cross3Blocks(t3);
    Pass3Undo(s, k.third, other.left, t4);
    Pass3Undo(s, k.right, other.right, t2);
    Pass3Undo(s, k.left, other.third, t);
    Exchange3Undo(t3);
    Exchange3Undo(t1);
  }

  // ----- blocks as bytes -----

  function LoadWord(a: Byte, b: Byte, c: Byte, d: Byte): Word {
    ((a as Word) << 24) | ((b as Word) << 16) | ((c as Word) << 8) | (d as Word)
  }

  function StoreByte0(w: Word): Byte { ((w >> 24) & 0xff) as Byte }
  function StoreByte1(w: Word): Byte { ((w >> 16) & 0xff) as Byte }
  function StoreByte2(w: Word): Byte { ((w >> 8) & 0xff) as Byte }
  function StoreByte3(w: Word): Byte { (w & 0xff) as Byte }

  /** scrunch: eight bytes, most significant first. */
  function Load(bytes: seq<Byte>): Pair
    requires |bytes| == 8
  {
    Pair(LoadWord(bytes[0], bytes[1], bytes[2], bytes[3]), LoadWord(bytes[4], bytes[5], bytes[6], bytes[7]))
  }

  /** unscrun */
  function Store(b: Pair): (bytes: seq<Byte>)
    ensures |bytes| == 8
  {
    [StoreByte0(b.l), StoreByte1(b.l), StoreByte2(b.l), StoreByte3(b.l),
     StoreByte0(b.r), StoreByte1(b.r), StoreByte2(b.r), StoreByte3(b.r)]
  }

  lemma LoadStoreWord(w: Word)
    ensures LoadWord(StoreByte0(w), StoreByte1(w), StoreByte2(w), StoreByte3(w)) == w
  {
  }

  lemma StoreLoad0(a: Byte, b: Byte, c: Byte, d: Byte)
    ensures StoreByte0(LoadWord(a, b, c, d)) == a
  {
  }

  lemma StoreLoad1(a: Byte, b: Byte, c: Byte, d: Byte)
    ensures StoreByte1(LoadWord(a, b, c, d)) == b
  {
  }

  lemma StoreLoad2(a: Byte, b: Byte, c: Byte, d: Byte)
    ensures StoreByte2(LoadWord(a, b, c, d)) == c
  {
  }

  lemma StoreLoad3(a: Byte, b: Byte, c: Byte, d: Byte)
    ensures StoreByte3(LoadWord(a, b, c, d)) == d
  {
  }

  lemma LoadStore(b: Pair)
    ensures Load(Store(b)) == b
  {
    LoadStoreWord(b.l);
    LoadStoreWord(b.r);
  }

  lemma StoreLoadWord(a: Byte, b: Byte, c: Byte, d: Byte)
    ensures var w := LoadWord(a, b, c, d);
            [StoreByte0(w), StoreByte1(w), StoreByte2(w), StoreByte3(w)] == [a, b, c, d]
  {
    StoreLoad0(a, b, c, d);
    StoreLoad1(a, b, c, d);
    StoreLoad2(a, b, c, d);
    StoreLoad3(a, b, c, d);
  }

  lemma StoreLoad(bytes: seq<Byte>)
    requires |bytes| == 8
    ensures Store(Load(bytes)) == bytes
  {
    StoreLoadWord(bytes[0], bytes[1], bytes[2], bytes[3]);
    StoreLoadWord(bytes[4], bytes[5], bytes[6], bytes[7]);
    assert bytes == [bytes[0], bytes[1], bytes[2], bytes[3]] + [bytes[4], bytes[5], bytes[6], bytes[7]];
    var w, v := Load(bytes).l, Load(bytes).r;
    assert Store(Load(bytes)) == [StoreByte0(w), StoreByte1(w), StoreByte2(w), StoreByte3(w)]
                                 + [StoreByte0(v), StoreByte1(v), StoreByte2(v), StoreByte3(v)];
  }
}
