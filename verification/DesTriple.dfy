/** The byte interfaces and the multi-length modes of firefox/vncpwd/d3des.c in terms of the standard. */
module DesTriple {

  import opened Des
  import opened DesKeys
  import opened DesModes
  import opened DesDevice
  import opened DesPassword
  import opened DesStandard
  import opened DesPermutations
  import opened DesSchedules
  import opened DesConforms

  // ----- blocks as bytes -----

  /** The block holds the bytes in order, each with its most significant bit first. */
  ghost predicate Shows(b: Pair, bytes: seq<Byte>)
    requires |bytes| == 8
  {
    forall n | 1 <= n <= 64 :: BlockBit(b, n) <==> BitsOfBytes(bytes)[n - 1]
  }

  lemma LoadMasks0(a: Byte, b: Byte, c: Byte, d: Byte)
    ensures (LoadWord(a, b, c, d) & 0x80000000 != 0 <==> a & 0x80 != 0)
    ensures (LoadWord(a, b, c, d) & 0x40000000 != 0 <==> a & 0x40 != 0)
    ensures (LoadWord(a, b, c, d) & 0x20000000 != 0 <==> a & 0x20 != 0)
    ensures (LoadWord(a, b, c, d) & 0x10000000 != 0 <==> a & 0x10 != 0)
    ensures (LoadWord(a, b, c, d) & 0x08000000 != 0 <==> a & 0x08 != 0)
    ensures (LoadWord(a, b, c, d) & 0x04000000 != 0 <==> a & 0x04 != 0)
    ensures (LoadWord(a, b, c, d) & 0x02000000 != 0 <==> a & 0x02 != 0)
    ensures (LoadWord(a, b, c, d) & 0x01000000 != 0 <==> a & 0x01 != 0)
  {
  }

  lemma LoadBits0(a: Byte, b: Byte, c: Byte, d: Byte, m: nat)
    requires m < 8
    ensures Bit(LoadWord(a, b, c, d), 0 + m + 1) <==> BitOfByte(a, m)
  {
    LoadMasks0(a, b, c, d);
    BitMasks(LoadWord(a, b, c, d));
    hide LoadWord;
    hide Bit;
    match m
    case 0 => case 1 => case 2 => case 3 => case 4 => case 5 => case 6 => case _ =>
  }

  lemma LoadMasks1(a: Byte, b: Byte, c: Byte, d: Byte)
    ensures (LoadWord(a, b, c, d) & 0x00800000 != 0 <==> b & 0x80 != 0)
    ensures (LoadWord(a, b, c, d) & 0x00400000 != 0 <==> b & 0x40 != 0)
    ensures (LoadWord(a, b, c, d) & 0x00200000 != 0 <==> b & 0x20 != 0)
    ensures (LoadWord(a, b, c, d) & 0x00100000 != 0 <==> b & 0x10 != 0)
    ensures (LoadWord(a, b, c, d) & 0x00080000 != 0 <==> b & 0x08 != 0)
    ensures (LoadWord(a, b, c, d) & 0x00040000 != 0 <==> b & 0x04 != 0)
    ensures (LoadWord(a, b, c, d) & 0x00020000 != 0 <==> b & 0x02 != 0)
    ensures (LoadWord(a, b, c, d) & 0x00010000 != 0 <==> b & 0x01 != 0)
  {
  }

  lemma LoadBits1(a: Byte, b: Byte, c: Byte, d: Byte, m: nat)
    requires m < 8
    ensures Bit(LoadWord(a, b, c, d), 8 + m + 1) <==> BitOfByte(b, m)
  {
    LoadMasks1(a, b, c, d);
    BitMasks(LoadWord(a, b, c, d));
    hide LoadWord;
    hide Bit;
    match m
    case 0 => case 1 => case 2 => case 3 => case 4 => case 5 => case 6 => case _ =>
  }

  lemma LoadMasks2(a: Byte, b: Byte, c: Byte, d: Byte)
    ensures (LoadWord(a, b, c, d) & 0x00008000 != 0 <==> c & 0x80 != 0)
    ensures (LoadWord(a, b, c, d) & 0x00004000 != 0 <==> c & 0x40 != 0)
    ensures (LoadWord(a, b, c, d) & 0x00002000 != 0 <==> c & 0x20 != 0)
    ensures (LoadWord(a, b, c, d) & 0x00001000 != 0 <==> c & 0x10 != 0)
    ensures (LoadWord(a, b, c, d) & 0x00000800 != 0 <==> c & 0x08 != 0)
    ensures (LoadWord(a, b, c, d) & 0x00000400 != 0 <==> c & 0x04 != 0)
    ensures (LoadWord(a, b, c, d) & 0x00000200 != 0 <==> c & 0x02 != 0)
    ensures (LoadWord(a, b, c, d) & 0x00000100 != 0 <==> c & 0x01 != 0)
  {
  }

  lemma LoadBits2(a: Byte, b: Byte, c: Byte, d: Byte, m: nat)
    requires m < 8
    ensures Bit(LoadWord(a, b, c, d), 16 + m + 1) <==> BitOfByte(c, m)
  {
    LoadMasks2(a, b, c, d);
    BitMasks(LoadWord(a, b, c, d));
    hide LoadWord;
    hide Bit;
    match m
    case 0 => case 1 => case 2 => case 3 => case 4 => case 5 => case 6 => case _ =>
  }

  lemma LoadMasks3(a: Byte, b: Byte, c: Byte, d: Byte)
    ensures (LoadWord(a, b, c, d) & 0x00000080 != 0 <==> d & 0x80 != 0)
    ensures (LoadWord(a, b, c, d) & 0x00000040 != 0 <==> d & 0x40 != 0)
    ensures (LoadWord(a, b, c, d) & 0x00000020 != 0 <==> d & 0x20 != 0)
    ensures (LoadWord(a, b, c, d) & 0x00000010 != 0 <==> d & 0x10 != 0)
    ensures (LoadWord(a, b, c, d) & 0x00000008 != 0 <==> d & 0x08 != 0)
    ensures (LoadWord(a, b, c, d) & 0x00000004 != 0 <==> d & 0x04 != 0)
    ensures (LoadWord(a, b, c, d) & 0x00000002 != 0 <==> d & 0x02 != 0)
    ensures (LoadWord(a, b, c, d) & 0x00000001 != 0 <==> d & 0x01 != 0)
  {
  }

  lemma LoadBits3(a: Byte, b: Byte, c: Byte, d: Byte, m: nat)
    requires m < 8
    ensures Bit(LoadWord(a, b, c, d), 24 + m + 1) <==> BitOfByte(d, m)
  {
    LoadMasks3(a, b, c, d);
    BitMasks(LoadWord(a, b, c, d));
    hide LoadWord;
    hide Bit;
    match m
    case 0 => case 1 => case 2 => case 3 => case 4 => case 5 => case 6 => case _ =>
  }

  lemma LoadWordBit(a: Byte, b: Byte, c: Byte, d: Byte, n: nat)
    requires 1 <= n <= 32
    ensures Bit(LoadWord(a, b, c, d), n) <==> BitOfByte([a, b, c, d][(n - 1) / 8], (n - 1) % 8)
  {
    hide LoadWord;
    hide Bit;
    hide BitOfByte;
    var q, m := (n - 1) / 8, (n - 1) % 8;
    assert n == 8 * q + m + 1;
    if q == 0 { LoadBits0(a, b, c, d, m); }
    else if q == 1 { LoadBits1(a, b, c, d, m); }
    else if q == 2 { LoadBits2(a, b, c, d, m); }
    else { LoadBits3(a, b, c, d, m); }
  }

  /** scrunch takes the bytes in order, and so unscrun, its inverse, gives them. */
  lemma LoadShows(bytes: seq<Byte>)
    requires |bytes| == 8
    ensures Shows(Load(bytes), bytes)
  {
    hide LoadWord;
    hide Bit;
    hide BitOfByte;
    forall n | 1 <= n <= 64 ensures BlockBit(Load(bytes), n) <==> BitsOfBytes(bytes)[n - 1] {
      if n <= 32 {
        LoadWordBit(bytes[0], bytes[1], bytes[2], bytes[3], n);
      } else {
        LoadWordBit(bytes[4], bytes[5], bytes[6], bytes[7], n - 32);
        assert (n - 33) / 8 == (n - 1) / 8 - 4 && (n - 33) % 8 == (n - 1) % 8;
      }
    }
  }

  /** deskey followed by des: eight bytes through the standard. */
  lemma BytesConform(s: Boxes, key: Key, mode: Mode, bytes: seq<Byte>) returns (b: Pair, c: Pair)
    requires |bytes| == 8
    ensures Shows(b, bytes) && Shows(c, CryptBytes(s, Schedule(key, mode), bytes))
    ensures IsDes(s, BitsOfBytes(MirroredKey(key)), mode == DE1, b, c)
  {
    hide Shows;
    hide IsDes;
    hide BitsOfBytes;
    hide Crypt;
    hide Load;
    hide Store;
    b := Load(bytes);
    c := Crypt(s, Schedule(key, mode), b);
    LoadShows(bytes);
    LoadShows(Store(c));
    LoadStore(c);
    CryptConforms(s, key, mode, b);
  }

  // ----- three passes -----

  /** Encipher, decipher, encipher; the other way round the same undone. */
  ghost predicate IsTripleDes(s: Boxes, k1: Bits, k2: Bits, k3: Bits, decipher: bool, a: Pair, out: Pair)
    requires |k1| == |k2| == |k3| == 64
  {
    var first, last, between := if decipher then k3 else k1, if decipher then k1 else k3, !decipher;
    exists x, y :: IsDes(s, first, decipher, a, x) && IsDes(s, k2, between, x, y) && IsDes(s, last, decipher, y, out)
  }

  function StandardKey(key: Key): (b: Bits)
    ensures |b| == 64
  {
    BitsOfBytes(MirroredKey(key))
  }

  lemma ThreePasses(s: Boxes, k1: Key, k2: Key, k3: Key, mode: Mode, a: Pair)
    ensures var x := Crypt(s, Schedule(if mode == DE1 then k3 else k1, mode), a);
            var y := Crypt(s, Schedule(k2, Opposite(mode)), x);
            var out := Crypt(s, Schedule(if mode == DE1 then k1 else k3, mode), y);
            IsTripleDes(s, StandardKey(k1), StandardKey(k2), StandardKey(k3), mode == DE1, a, out)
  {
    hide IsDes;
    hide Crypt;
    hide Schedule;
    hide BitsOfBytes;
    var x := Crypt(s, Schedule(if mode == DE1 then k3 else k1, mode), a);
    var y := Crypt(s, Schedule(k2, Opposite(mode)), x);
    CryptConforms(s, if mode == DE1 then k3 else k1, mode, a);
    CryptConforms(s, k2, Opposite(mode), x);
    CryptConforms(s, if mode == DE1 then k1 else k3, mode, y);
  }

  /** des2key and Ddes: triple DES with the first half of the key used twice. */
  lemma DoubleConforms(s: Boxes, key: seq<Byte>, mode: Mode, a: Pair)
    requires |key| == 16
    ensures IsTripleDes(s, StandardKey(key[..8]), StandardKey(key[8..]), StandardKey(key[..8]), mode == DE1, a,
                        Crypt1(s, DoubleKey(key, mode), a))
  {
    hide Crypt;
    hide IsTripleDes;
    hide StandardKey;
    ThreePasses(s, key[..8], key[8..], key[..8], mode, a);
  }

  /** des3key and Ddes: triple DES with three keys. */
  lemma TripleConforms(s: Boxes, key: seq<Byte>, mode: Mode, a: Pair)
    requires |key| == 24
    ensures IsTripleDes(s, StandardKey(key[..8]), StandardKey(key[8..16]), StandardKey(key[16..]), mode == DE1, a,
                        Crypt1(s, TripleKey(key, mode), a))
  {
    hide Crypt;
    hide IsTripleDes;
    hide StandardKey;
    ThreePasses(s, key[..8], key[8..16], key[16..], mode, a);
  }

  /** With equal neighbours two passes cancel: what is left is single DES under the other key. */
  lemma EqualKeysAreSingle(s: Boxes, k: Key, other: Key, mode: Mode, a: Pair)
    ensures Crypt1(s, DoubleKey(k + k, mode), a) == Crypt(s, Schedule(k, mode), a)
    ensures Crypt1(s, TripleKey(k + k + other, mode), a) == Crypt(s, Schedule(other, mode), a)
    ensures Crypt1(s, TripleKey(other + k + k, mode), a) == Crypt(s, Schedule(other, mode), a)
  {
    hide Crypt;
    hide Schedule;
    assert (k + k)[..8] == k && (k + k)[8..] == k;
    var kko, okk := k + k + other, other + k + k;
    assert kko[..8] == k && kko[8..16] == k && kko[16..] == other;
    assert okk[..8] == other && okk[8..16] == k && okk[16..] == k;
    DecryptUndoesEncrypt(s, k, mode, a);
    var x := Crypt(s, Schedule(other, mode), a);
    DecryptUndoesEncrypt(s, k, Opposite(mode), x);
    assert Opposite(Opposite(mode)) == mode;
  }

  // ----- the exchanges between blocks -----

  /** At every seam between two blocks the last word of one and the first of the next change places. */
  function Seams(ws: seq<Word>): (r: seq<Word>)
    requires |ws| % 2 == 0
    ensures |r| == |ws|
  {
    seq(|ws|, k requires 0 <= k < |ws| =>
      if k == 0 || k == |ws| - 1 then ws[k] else if k % 2 == 1 then ws[k + 1] else ws[k - 1])
  }

  function Words2(t: Two): seq<Word> {
    [t.a.l, t.a.r, t.b.l, t.b.r]
  }

  function Words3(t: Three): seq<Word> {
    [t.a.l, t.a.r, t.b.l, t.b.r, t.c.l, t.c.r]
  }

  lemma ExchangesAreSeams(t: Two, u: Three)
    ensures Words2(Cross2Blocks(t)) == Seams(Words2(t)) && Words3(Cross3Blocks(u)) == Seams(Words3(u))
  {
  }

  // ----- passwords -----

  lemma FoldedExactly(k: Byte, c: Byte, d: Byte)
    ensures Folded(k, c) == Folded(k, d) <==> c & 0x7f == d & 0x7f
  {
  }

  /** Folding the same character in twice takes it out again. */
  lemma FoldedTwice(k: Byte, c: Byte)
    ensures Folded(Folded(k, c), c) == k
  {
  }

  /** Up to eight characters: the key tells passwords of one length apart exactly by the seven low bits of each. */
  lemma ShortPasswordsDiffer(s: Boxes, p: seq<Byte>, q: seq<Byte>)
    requires |p| == |q| <= 8
    ensures PasswordKey(s, p) == PasswordKey(s, q) <==> SameLowBits(p, q)
  {
    hide CryptBytes1;
    hide Mixed;
    hide Schedule;
    hide SameLowBits;
    hide DefaultKey;
    var regs, k := DoubleKey(DefaultKey(), EN0), DefaultKey()[..8];
    OneChunk(s, p);
    OneChunk(s, q);
    DoubleLengthRoundTrip(s, DefaultKey(), EN0, Mixed(k, p), seq(16, _ => 0));
    DoubleLengthRoundTrip(s, DefaultKey(), EN0, Mixed(k, q), seq(16, _ => 0));
    MixedExactly(k, p, q);
  }

  lemma OneChunk(s: Boxes, p: seq<Byte>)
    requires |p| <= 8
    ensures PasswordKey(s, p) == CryptBytes1(s, DoubleKey(DefaultKey(), EN0), Mixed(DefaultKey()[..8], p))
  {
    hide CryptBytes1;
    hide DefaultKey;
    hide Mixed;
    hide Hashed;
    hide Schedule;
    var regs, n := DoubleKey(DefaultKey(), EN0), Chunk(p);
    assert p[..n] == p && p[n..] == [];
    HashStep(s, regs, DefaultKey()[..8], p, true);
    HashEnd(s, regs, CryptBytes1(s, regs, Mixed(DefaultKey()[..8], p)));
  }

  lemma MixedExactly(k: seq<Byte>, p: seq<Byte>, q: seq<Byte>)
    requires |p| == |q| <= |k|
    ensures Mixed(k, p) == Mixed(k, q) <==> SameLowBits(p, q)
  {
    hide Folded;
    forall i | 0 <= i < |p| ensures Mixed(k, p)[i] == Mixed(k, q)[i] <==> p[i] & 0x7f == q[i] & 0x7f {
      FoldedExactly(k[i], p[i], q[i]);
    }
    if SameLowBits(p, q) { assert Mixed(k, p) == Mixed(k, q); }
  }

  /** The default key counts the hexadecimal digits up in its first half and down in the second. */
  lemma DefaultKeyPattern(i: nat)
    requires i < 8
    ensures DefaultKey()[i] == 0x01 + 0x22 * (i as Byte) && DefaultKey()[8 + i] == !DefaultKey()[i]
  {
    match i
    case 0 => case 1 => case 2 => case 3 => case 4 => case 5 => case 6 => case _ =>
  }
}
