/** The public procedures of firefox/vncpwd/d3des.c: loading keys, one- to three-block modes, hashing a password. */
module DesDevice {

  import opened Des
  import opened DesKeys
  import opened DesModes
  import opened DesMachine
  import opened DesRegisters

  // ----- loading a key -----

  function WideCook0(raw0: Wide, raw1: Wide): Wide {
    ((raw0 & 0x00fc0000) << 6) | ((raw0 & 0x00000fc0) << 10) | ((raw1 & 0x00fc0000) >> 10) | ((raw1 & 0x00000fc0) >> 6)
  }

  function WideCook1(raw0: Wide, raw1: Wide): Wide {
    ((raw0 & 0x0003f000) << 12) | ((raw0 & 0x0000003f) << 16) | ((raw1 & 0x0003f000) >> 4) | (raw1 & 0x0000003f)
  }

  lemma WideCook0Low(x: Word, y: Word)
    ensures Low(WideCook0(Widen(x), Widen(y))) == Cook0(x, y)
  {
  }

  lemma WideCook1Low(x: Word, y: Word)
    ensures Low(WideCook1(Widen(x), Widen(y))) == Cook1(x, y)
  {
  }

  /** The place of round `i` in the raw schedule. */
  function Place(mode: Mode, i: nat): (m: nat)
    requires i < 16
    ensures m <= 30
  {
    if mode == DE1 then 2 * (15 - i) else 2 * i
  }

  ghost predicate HoldsRound(kn: seq<Wide>, key: Key, mode: Mode, i: nat)
    requires |kn| == 32 && i < 16
  {
    kn[Place(mode, i)] == Widen(Pack(key, i, 0, 24)) && kn[Place(mode, i) + 1] == Widen(Pack(key, i, 24, 24))
  }

  /** The bits of the key in the order of the first permutation. */
  method PermuteKey(key: array<Byte>, at: nat) returns (pc1m: array<bool>)
    requires at + 8 <= key.Length
    ensures pc1m.Length == 56 && fresh(pc1m)
    ensures forall j | 0 <= j < 56 :: pc1m[j] == KeyBit(key[at..at + 8], Pc1(j))
  {
    pc1m := new bool[56];
    for j := 0 to 56
      invariant forall i | 0 <= i < j :: pc1m[i] == KeyBit(key[at..at + 8], Pc1(i))
    {
      var l := Pc1(j);
      var m := l % 8;
      assert key[at..at + 8][l / 8] == key[at + l / 8];
      pc1m[j] := key[at + l / 8] & ByteBit(m) != 0;
    }
  }

  /** The two halves, each rotated by the total of round `i`. */
  method Rotate(pc1m: array<bool>, i: nat) returns (pcr: array<bool>)
    requires pc1m.Length == 56 && i < 16
    ensures pcr.Length == 56 && fresh(pcr)
    ensures forall j | 0 <= j < 56 :: pcr[j] == pc1m[Rotated(i, j)]
  {
    pcr := new bool[56];
    for j := 0 to 28
      invariant forall k | 0 <= k < j :: pcr[k] == pc1m[Rotated(i, k)]
    {
      var l := j + TotRot(i);
      if l < 28 { pcr[j] := pc1m[l]; } else { pcr[j] := pc1m[l - 28]; }
    }
    for j := 28 to 56
      invariant forall k | 0 <= k < j :: pcr[k] == pc1m[Rotated(i, k)]
    {
      var l := j + TotRot(i);
      if l < 56 { pcr[j] := pc1m[l]; } else { pcr[j] := pc1m[l - 28]; }
    }
  }

  /** Twenty-four selected bits packed into one word. */
  method PackBits(pcr: array<bool>, from: nat, ghost key: Key, ghost i: nat) returns (w: Wide)
    requires pcr.Length == 56 && i < 16 && (from == 0 || from == 24)
    requires forall j | 0 <= j < 48 :: pcr[Pc2(j)] == RoundBit(key, i, j)
    ensures w == Widen(Pack(key, i, from, 24))
  {
    w := 0;
    for j := 0 to 24
      invariant w == Widen(Pack(key, i, from, j))
    {
      WidenOr(Pack(key, i, from, j), BigByte(j));
      if pcr[Pc2(j + from)] {
        w := WideOr(w, Widen(BigByte(j)));
      }
    }
  }

  /** One round's two raw words. */
  method RawRound(pc1m: array<bool>, i: nat, ghost key: Key) returns (w0: Wide, w1: Wide)
    requires pc1m.Length == 56 && i < 16
    requires forall j | 0 <= j < 56 :: pc1m[j] == KeyBit(key, Pc1(j))
    ensures w0 == Widen(Pack(key, i, 0, 24)) && w1 == Widen(Pack(key, i, 24, 24))
  {
    var pcr := Rotate(pc1m, i);
    assert forall j | 0 <= j < 48 :: pcr[Pc2(j)] == RoundBit(key, i, j);
    w0 := PackBits(pcr, 0, key, i);
    w1 := PackBits(pcr, 24, key, i);
  }

  /** The raw schedule, in the order the mode asks for. */
  method RawSchedule(pc1m: array<bool>, mode: Mode, ghost key: Key) returns (kn: array<Wide>)
    requires pc1m.Length == 56
    requires forall j | 0 <= j < 56 :: pc1m[j] == KeyBit(key, Pc1(j))
    ensures kn.Length == 32 && fresh(kn)
    ensures forall i | 0 <= i < 16 :: HoldsRound(kn[..], key, mode, i)
  {
    kn := new Wide[32];
    for i := 0 to 16
      invariant forall k | 0 <= k < i :: HoldsRound(kn[..], key, mode, k)
      invariant forall j | 0 <= j < 56 :: pc1m[j] == KeyBit(key, Pc1(j))
    {
      var w0, w1 := RawRound(pc1m, i, key);
      var m := Place(mode, i);
      ghost var before := kn[..];
      kn[m] := w0;
      kn[m + 1] := w1;
      assert kn[..] == before[m := w0][m + 1 := w1];
      RoundsStay(before, kn[..], key, mode, i);
    }
  }

  lemma RoundsStay(kn: seq<Wide>, now: seq<Wide>, key: Key, mode: Mode, i: nat)
    requires |kn| == |now| == 32 && i < 16
    requires forall k | 0 <= k < i :: HoldsRound(kn, key, mode, k)
    requires now == kn[Place(mode, i) := now[Place(mode, i)]][Place(mode, i) + 1 := now[Place(mode, i) + 1]]
    requires HoldsRound(now, key, mode, i)
    ensures forall k | 0 <= k < i + 1 :: HoldsRound(now, key, mode, k)
  {
    forall k | 0 <= k < i ensures HoldsRound(now, key, mode, k) {
      assert HoldsRound(kn, key, mode, k);
      var m, n := Place(mode, k), Place(mode, i);
      assert m != n && m + 1 != n && m != n + 1;
      assert now[m] == kn[m] && now[m + 1] == kn[m + 1];
    }
  }

  /** The two cooked words of a raw pair. */
  ghost predicate CooksTo(raw0: Wide, raw1: Wide, even: Word, odd: Word) {
    Low(WideCook0(raw0, raw1)) == even && Low(WideCook1(raw0, raw1)) == odd
  }

  lemma CooksToKeyWords(raw0: Wide, raw1: Wide, key: Key, r: nat)
    requires r < 16 && raw0 == Widen(Pack(key, r, 0, 24)) && raw1 == Widen(Pack(key, r, 24, 24))
    ensures CooksTo(raw0, raw1, KeyWord(key, 2 * r), KeyWord(key, 2 * r + 1))
  {
    CookedWords(Pack(key, r, 0, 24), Pack(key, r, 24, 24), raw0, raw1);
    KeyWordPair(key, r);
  }

  lemma CooksToSchedule(kn: seq<Wide>, key: Key, mode: Mode, i: nat)
    requires |kn| == 32 && i < 16 && forall k | 0 <= k < 16 :: HoldsRound(kn, key, mode, k)
    ensures CooksTo(kn[2 * i], kn[2 * i + 1], Schedule(key, mode)[2 * i], Schedule(key, mode)[2 * i + 1])
  {
    hide KeyWord;
    hide CooksTo;
    hide Pack;
    var r := if mode == DE1 then 15 - i else i;
    TakenPair(mode, i, r);
    var even, odd := KeyWord(key, 2 * r), KeyWord(key, 2 * r + 1);
    assert Schedule(key, mode)[2 * i] == even && Schedule(key, mode)[2 * i + 1] == odd;
    assert CooksTo(kn[2 * i], kn[2 * i + 1], even, odd) by {
      assert HoldsRound(kn, key, mode, r) && Place(mode, r) == 2 * i;
      CooksToKeyWords(kn[2 * i], kn[2 * i + 1], key, r);
    }
  }

  lemma TakenPair(mode: Mode, i: nat, r: nat)
    requires i < 16 && r == if mode == DE1 then 15 - i else i
    ensures Taken(mode, 2 * i) == 2 * r && Taken(mode, 2 * i + 1) == 2 * r + 1
  {
  }

  lemma KeyWordPair(key: Key, r: nat)
    requires r < 16
    ensures KeyWord(key, 2 * r) == Cook0(Pack(key, r, 0, 24), Pack(key, r, 24, 24))
    ensures KeyWord(key, 2 * r + 1) == Cook1(Pack(key, r, 0, 24), Pack(key, r, 24, 24))
  {
    assert 2 * r / 2 == r && (2 * r + 1) / 2 == r;
  }

  lemma CookedWords(x: Word, y: Word, raw0: Wide, raw1: Wide)
    requires raw0 == Widen(x) && raw1 == Widen(y)
    ensures CooksTo(raw0, raw1, Cook0(x, y), Cook1(x, y))
  {
    WideCook0Low(x, y);
    WideCook1Low(x, y);
  }

  /** cookey: the raw words regrouped for the lookups. */
  method CooKey(kn: array<Wide>, ghost want: seq<Word>) returns (dough: array<Wide>)
    requires kn.Length == 32 == |want|
    requires forall i | 0 <= i < 16 :: CooksTo(kn[2 * i], kn[2 * i + 1], want[2 * i], want[2 * i + 1])
    ensures dough.Length == 32 && fresh(dough)
    ensures LowWords(dough[..]) == want
  {
    dough := new Wide[32];
    for i := 0 to 16
      invariant forall k | 0 <= k < 16 :: CooksTo(kn[2 * k], kn[2 * k + 1], want[2 * k], want[2 * k + 1])
      invariant forall k | 0 <= k < 2 * i :: Low(dough[k]) == want[k]
    {
      assert CooksTo(kn[2 * i], kn[2 * i + 1], want[2 * i], want[2 * i + 1]);
      dough[2 * i] := WideCook0(kn[2 * i], kn[2 * i + 1]);
      dough[2 * i + 1] := WideCook1(kn[2 * i], kn[2 * i + 1]);
    }
    assert forall k | 0 <= k < 32 :: LowWords(dough[..])[k] == want[k];
  }

  // ----- bytes through the modes -----

  function CryptBytes(s: Boxes, keys: seq<Word>, bytes: seq<Byte>): (r: seq<Byte>)
    requires |keys| == 32 && |bytes| == 8
    ensures |r| == 8
  {
    Store(Crypt(s, keys, Load(bytes)))
  }

  function CryptBytes1(s: Boxes, k: Registers, bytes: seq<Byte>): (r: seq<Byte>)
    requires Loaded(k) && |bytes| == 8
    ensures |r| == 8
  {
    Store(Crypt1(s, k, Load(bytes)))
  }

  function Load2(bytes: seq<Byte>): Two
    requires |bytes| == 16
  {
    Two(Load(bytes[..8]), Load(bytes[8..]))
  }

  function Store2(t: Two): (bytes: seq<Byte>)
    ensures |bytes| == 16
  {
    Store(t.a) + Store(t.b)
  }

  function Load3(bytes: seq<Byte>): Three
    requires |bytes| == 24
  {
    Three(Load(bytes[..8]), Load(bytes[8..16]), Load(bytes[16..]))
  }

  function Store3(t: Three): (bytes: seq<Byte>)
    ensures |bytes| == 24
  {
    Store(t.a) + Store(t.b) + Store(t.c)
  }

  lemma Load2Store2(t: Two)
    ensures Load2(Store2(t)) == t
  {
    assert Store2(t)[..8] == Store(t.a) && Store2(t)[8..] == Store(t.b);
    LoadStore(t.a);
    LoadStore(t.b);
  }

  lemma Store2Load2(bytes: seq<Byte>)
    requires |bytes| == 16
    ensures Store2(Load2(bytes)) == bytes
  {
    StoreLoad(bytes[..8]);
    StoreLoad(bytes[8..]);
    assert bytes == bytes[..8] + bytes[8..];
  }

  lemma Load3Store3(t: Three)
    ensures Load3(Store3(t)) == t
  {
    assert Store3(t)[..8] == Store(t.a) && Store3(t)[8..16] == Store(t.b) && Store3(t)[16..] == Store(t.c);
    LoadStore(t.a);
    LoadStore(t.b);
    LoadStore(t.c);
  }

  lemma Store3Load3(bytes: seq<Byte>)
    requires |bytes| == 24
    ensures Store3(Load3(bytes)) == bytes
  {
    StoreLoad(bytes[..8]);
    StoreLoad(bytes[8..16]);
    StoreLoad(bytes[16..]);
    assert bytes == bytes[..8] + bytes[8..16] + bytes[16..];
  }

  function CryptBytes2(s: Boxes, k: Registers, bytes: seq<Byte>): (r: seq<Byte>)
    requires Loaded(k) && |bytes| == 16
    ensures |r| == 16
  {
    Store2(Crypt2(s, k, Load2(bytes)))
  }

  function CryptBytes3(s: Boxes, k: Registers, bytes: seq<Byte>): (r: seq<Byte>)
    requires Loaded(k) && |bytes| == 24
    ensures |r| == 24
  {
    Store3(Crypt3(s, k, Load3(bytes)))
  }

  /** Single-length keys: deskey and des with the opposite mode give the block back. */
  lemma SingleRoundTrip(s: Boxes, key: Key, mode: Mode, bytes: seq<Byte>)
    requires |bytes| == 8
    ensures CryptBytes(s, Schedule(key, Opposite(mode)), CryptBytes(s, Schedule(key, mode), bytes)) == bytes
  {
    LoadStore(Crypt(s, Schedule(key, mode), Load(bytes)));
    DecryptUndoesEncrypt(s, key, mode, Load(bytes));
    StoreLoad(bytes);
  }

  /** Under inverse registers every mode gives its input back. */
  lemma RoundTrip1(s: Boxes, k: Registers, other: Registers, bytes: seq<Byte>)
    requires Loaded(k) && Loaded(other) && Inverse(k, other) && |bytes| == 8
    ensures CryptBytes1(s, other, CryptBytes1(s, k, bytes)) == bytes
  {
    LoadStore(Crypt1(s, k, Load(bytes)));
    Crypt1Undo(s, k, other, Load(bytes));
    StoreLoad(bytes);
  }

  lemma RoundTrip2(s: Boxes, k: Registers, other: Registers, bytes: seq<Byte>)
    requires Loaded(k) && Loaded(other) && Inverse(k, other) && |bytes| == 16
    ensures CryptBytes2(s, other, CryptBytes2(s, k, bytes)) == bytes
  {
    var t := Load2(bytes);
    Load2Store2(Crypt2(s, k, t));
    Crypt2Undo(s, k, other, t);
    Store2Load2(bytes);
  }

  lemma RoundTrip3(s: Boxes, k: Registers, other: Registers, bytes: seq<Byte>)
    requires Loaded(k) && Loaded(other) && Inverse(k, other) && |bytes| == 24
    ensures CryptBytes3(s, other, CryptBytes3(s, k, bytes)) == bytes
  {
    var t := Load3(bytes);
    Load3Store3(Crypt3(s, k, t));
    Crypt3Undo(s, k, other, t);
    Store3Load3(bytes);
  }

  /** des2key in the opposite mode makes Ddes and D2des undo themselves. */
  lemma DoubleLengthRoundTrip(s: Boxes, key: seq<Byte>, mode: Mode, one: seq<Byte>, two: seq<Byte>)
    requires |key| == 16 && |one| == 8 && |two| == 16
    ensures CryptBytes1(s, DoubleKey(key, Opposite(mode)), CryptBytes1(s, DoubleKey(key, mode), one)) == one
    ensures CryptBytes2(s, DoubleKey(key, Opposite(mode)), CryptBytes2(s, DoubleKey(key, mode), two)) == two
  {
    DoubleKeysInverse(key, mode);
    RoundTrip1(s, DoubleKey(key, mode), DoubleKey(key, Opposite(mode)), one);
    RoundTrip2(s, DoubleKey(key, mode), DoubleKey(key, Opposite(mode)), two);
  }

  /** des3key in the opposite mode makes Ddes, D2des and D3des undo themselves. */
  lemma TripleLengthRoundTrip(s: Boxes, key: seq<Byte>, mode: Mode, one: seq<Byte>, two: seq<Byte>, three: seq<Byte>)
    requires |key| == 24 && |one| == 8 && |two| == 16 && |three| == 24
    ensures CryptBytes1(s, TripleKey(key, Opposite(mode)), CryptBytes1(s, TripleKey(key, mode), one)) == one
    ensures CryptBytes2(s, TripleKey(key, Opposite(mode)), CryptBytes2(s, TripleKey(key, mode), two)) == two
    ensures CryptBytes3(s, TripleKey(key, Opposite(mode)), CryptBytes3(s, TripleKey(key, mode), three)) == three
  {
    TripleKeysInverse(key, mode);
    RoundTrip1(s, TripleKey(key, mode), TripleKey(key, Opposite(mode)), one);
    RoundTrip2(s, TripleKey(key, mode), TripleKey(key, Opposite(mode)), two);
    RoundTrip3(s, TripleKey(key, mode), TripleKey(key, Opposite(mode)), three);
  }

  // ----- the global registers -----

  /** The copying loops of cpkey, usekey, cp3key and use3key. */
  method CopyWords(from: array<Wide>, fromAt: nat, into: array<Wide>, at: nat)
    requires from != into && fromAt + 32 <= from.Length && at + 32 <= into.Length
    modifies into
    ensures into[..] == old(into[..at]) + from[fromAt..fromAt + 32] + old(into[at + 32..])
  {
    for i := 0 to 32
      invariant into[..at] == old(into[..at]) && into[at + i..] == old(into[at + i..])
      invariant into[at..at + i] == from[fromAt..fromAt + i]
    {
      assert into[at + i + 1..] == into[at + i..][1..];
      into[at + i] := from[fromAt + i];
      assert into[at..at + i + 1] == into[at..at + i] + [into[at + i]];
      assert from[fromAt..fromAt + i + 1] == from[fromAt..fromAt + i] + [from[fromAt + i]];
    }
    assert into[..] == into[..at] + into[at..at + 32] + into[at + 32..];
  }

  class Device {
    const s: Boxes
    const knL: array<Wide>
    const knR: array<Wide>
    const kn3: array<Wide>

    constructor (s: Boxes)
      ensures this.s == s && Valid() && fresh(knL) && fresh(knR) && fresh(kn3)
    {
      this.s := s;
      knL := new Wide[32];
      knR := new Wide[32];
      kn3 := new Wide[32];
    }

    ghost predicate Valid() {
      knL.Length == knR.Length == kn3.Length == 32 && knL != knR && knL != kn3 && knR != kn3
    }

    ghost function Regs(): Registers
      reads knL, knR, kn3
    {
      Registers(LowWords(knL[..]), LowWords(knR[..]), LowWords(kn3[..]))
    }

    /** deskey */
    method DesKey(key: array<Byte>, at: nat, mode: Mode)
      requires Valid() && at + 8 <= key.Length
      modifies knL
      ensures LowWords(knL[..]) == Schedule(key[at..at + 8], mode)
    {
      ghost var k := key[at..at + 8];
      var pc1m := PermuteKey(key, at);
      var kn := RawSchedule(pc1m, mode, k);
      forall i | 0 <= i < 16
        ensures CooksTo(kn[2 * i], kn[2 * i + 1], Schedule(k, mode)[2 * i], Schedule(k, mode)[2 * i + 1])
      {
        CooksToSchedule(kn[..], k, mode, i);
      }
      var dough := CooKey(kn, Schedule(k, mode));
      UseKey(dough);
    }

    /** des: in place when both blocks are the same array. */
    method DesBlock(inblock: array<Byte>, outblock: array<Byte>)
      requires Valid() && inblock.Length == 8 && outblock.Length == 8
      modifies outblock
      ensures outblock[..] == CryptBytes(s, LowWords(knL[..]), old(inblock[..]))
    {
      var work := new Wide[2];
      assert inblock[0..8] == inblock[..];
      Scrunch(inblock, 0, work);
      DesFunc(s, work, knL);
      Unscrun(work, outblock, 0);
    }

    /** cpkey: the left register copied out. */
    method CpKey(into: array<Wide>)
      requires Valid() && into.Length == 32 && into != knL
      modifies into
      ensures into[..] == knL[..]
    {
      CopyWords(knL, 0, into, 0);
    }

    /** usekey: the left register loaded from such a copy. */
    method UseKey(from: array<Wide>)
      requires Valid() && from.Length == 32 && from != knL
      modifies knL
      ensures knL[..] == from[..]
    {
      CopyWords(from, 0, knL, 0);
    }

    /** des2key */
    method Des2Key(hexkey: array<Byte>, mode: Mode)
      requires Valid() && 16 <= hexkey.Length
      modifies knL, knR, kn3
      ensures Regs() == DoubleKey(hexkey[..16], mode)
    {
      hide Schedule;
      hide LowWords;
      ghost var k := hexkey[..16];
      assert hexkey[8..16] == k[8..] && hexkey[0..8] == k[..8];
      DesKey(hexkey, 8, if mode == EN0 then DE1 else EN0);
      CpKey(knR);
      DesKey(hexkey, 0, mode);
      CpKey(kn3);
    }

    /** des3key */
    method Des3Key(hexkey: array<Byte>, mode: Mode)
      requires Valid() && 24 <= hexkey.Length
      modifies knL, knR, kn3
      ensures Regs() == TripleKey(hexkey[..24], mode)
    {
      hide Schedule;
      hide LowWords;
      ghost var k := hexkey[..24];
      assert hexkey[0..8] == k[..8] && hexkey[8..16] == k[8..16] && hexkey[16..24] == k[16..];
      var revmod, first, third := DE1, 0, 16;
      if mode != EN0 {
        revmod, first, third := EN0, 16, 0;
      }
      DesKey(hexkey, 8, revmod);
      CpKey(knR);
      DesKey(hexkey, third, mode);
      CpKey(kn3);
      DesKey(hexkey, first, mode);
    }

    /** cp3key: the registers into a block of 96 words. */
    method Cp3Key(into: array<Wide>)
      requires Valid() && into.Length == 96 && into != knL && into != knR && into != kn3
      modifies into
      ensures into[..] == knL[..] + knR[..] + kn3[..]
    {
      CopyWords(knL, 0, into, 0);
      CopyWords(knR, 0, into, 32);
      CopyWords(kn3, 0, into, 64);
    }

    /** use3key: the registers back from such a block. */
    method Use3Key(from: array<Wide>)
      requires Valid() && from.Length == 96 && from != knL && from != knR && from != kn3
      modifies knL, knR, kn3
      ensures knL[..] + knR[..] + kn3[..] == from[..]
    {
      CopyWords(from, 0, knL, 0);
      CopyWords(from, 32, knR, 0);
      CopyWords(from, 64, kn3, 0);
    }

    /** The three passes of Ddes. */
    method Passes1(work: array<Wide>)
      requires Valid() && work.Length == 2 && work != knL && work != knR && work != kn3
      modifies work
      ensures LowPair(work[..]) == Crypt1(s, Regs(), old(LowPair(work[..])))
    {
      DesFunc(s, work, knL);
      DesFunc(s, work, knR);
      DesFunc(s, work, kn3);
    }

    /** Ddes */
    method Ddes(from: array<Byte>, into: array<Byte>)
      requires Valid() && from.Length == into.Length == 8
      modifies into
      ensures into[..] == CryptBytes1(s, Regs(), old(from[..]))
    {
      hide Crypt1;
      var work := new Wide[2];
      assert from[0..8] == from[..];
      Scrunch(from, 0, work);
      Passes1(work);
      Unscrun(work, into, 0);
    }

    /** One register applied to two blocks. */
    method Pass2On(a: array<Wide>, b: array<Wide>, kn: array<Wide>)
      requires a.Length == b.Length == 2 && kn.Length == 32 && a != b && kn != a && kn != b
      modifies a, b
      ensures Blocks2(a, b) == Pass2(s, LowWords(kn[..]), old(Blocks2(a, b)))
    {
      DesFunc(s, a, kn);
      DesFunc(s, b, kn);
    }

    /** The three passes of D2des. */
    method Passes2(leftt: array<Wide>, right: array<Wide>)
      requires Valid() && leftt.Length == right.Length == 2 && leftt != right
      requires leftt != knL && leftt != knR && leftt != kn3 && right != knL && right != knR && right != kn3
      modifies leftt, right
      ensures Blocks2(leftt, right) == Crypt2(s, Regs(), old(Blocks2(leftt, right)))
    {
      Pass2On(leftt, right, knL);
      Swap2(leftt, right);
      Pass2On(leftt, right, knR);
      Swap2(leftt, right);
      Pass2On(leftt, right, kn3);
    }

    /** D2des */
    method D2des(from: array<Byte>, into: array<Byte>)
      requires Valid() && from.Length == into.Length == 16
      modifies into
      ensures into[..] == CryptBytes2(s, Regs(), old(from[..]))
    {
      hide Crypt2;
      var leftt, right := Scrunch2(from);
      Passes2(leftt, right);
      Unscrun2(leftt, right, into);
    }

    /** One register applied to three blocks. */
    method Pass3On(a: array<Wide>, b: array<Wide>, c: array<Wide>, kn: array<Wide>)
      requires a.Length == b.Length == c.Length == 2 && kn.Length == 32
      requires a != b && a != c && b != c && kn != a && kn != b && kn != c
      modifies a, b, c
      ensures Blocks3(a, b, c) == Pass3(s, LowWords(kn[..]), old(Blocks3(a, b, c)))
    {
      DesFunc(s, a, kn);
      DesFunc(s, b, kn);
      DesFunc(s, c, kn);
    }

    /** The three passes of D3des. */
    method Passes3(leftt: array<Wide>, middl: array<Wide>, right: array<Wide>)
      requires Valid() && leftt.Length == middl.Length == right.Length == 2
      requires leftt != middl && leftt != right && middl != right
      requires {leftt, middl, right} !! {knL, knR, kn3}
      modifies leftt, middl, right
      ensures Blocks3(leftt, middl, right) == Crypt3(s, Regs(), old(Blocks3(leftt, middl, right)))
    {
      Pass3On(leftt, middl, right, knL);
      Swap3(leftt, middl, right);
      Pass3On(leftt, middl, right, knR);
      Swap3(leftt, middl, right);
      Pass3On(leftt, middl, right, kn3);
    }

    /** D3des */
    method D3des(from: array<Byte>, into: array<Byte>)
      requires Valid() && from.Length == into.Length == 24
      modifies into
      ensures into[..] == CryptBytes3(s, Regs(), old(from[..]))
    {
      hide Crypt3;
      var leftt, middl, right := Scrunch3(from);
      Passes3(leftt, middl, right);
      Unscrun3(leftt, middl, right, into);
    }
  }

  ghost function Blocks2(a: array<Wide>, b: array<Wide>): Two
    requires a.Length == b.Length == 2
    reads a, b
  {
    Two(LowPair(a[..]), LowPair(b[..]))
  }

  ghost function Blocks3(a: array<Wide>, b: array<Wide>, c: array<Wide>): Three
    requires a.Length == b.Length == c.Length == 2
    reads a, b, c
  {
    Three(LowPair(a[..]), LowPair(b[..]), LowPair(c[..]))
  }

  method Scrunch2(from: array<Byte>) returns (a: array<Wide>, b: array<Wide>)
    requires from.Length == 16
    ensures fresh(a) && fresh(b) && a != b && a.Length == b.Length == 2
    ensures Blocks2(a, b) == Load2(from[..])
  {
    a, b := new Wide[2], new Wide[2];
    Scrunch(from, 0, a);
    Scrunch(from, 8, b);
    assert from[0..8] == from[..][..8] && from[8..16] == from[..][8..];
  }

  method Unscrun2(a: array<Wide>, b: array<Wide>, into: array<Byte>)
    requires a.Length == b.Length == 2 && into.Length == 16
    modifies into
    ensures into[..] == Store2(Blocks2(a, b))
  {
    Unscrun(a, into, 0);
    Unscrun(b, into, 8);
  }

  method Scrunch3(from: array<Byte>) returns (a: array<Wide>, b: array<Wide>, c: array<Wide>)
    requires from.Length == 24
    ensures fresh(a) && fresh(b) && fresh(c) && a != b && a != c && b != c && a.Length == b.Length == c.Length == 2
    ensures Blocks3(a, b, c) == Load3(from[..])
  {
    a, b, c := new Wide[2], new Wide[2], new Wide[2];
    Scrunch(from, 0, a);
    Scrunch(from, 8, b);
    Scrunch(from, 16, c);
    assert from[0..8] == from[..][..8] && from[8..16] == from[..][8..16] && from[16..24] == from[..][16..];
  }

  method Unscrun3(a: array<Wide>, b: array<Wide>, c: array<Wide>, into: array<Byte>)
    requires a.Length == b.Length == c.Length == 2 && into.Length == 24
    modifies into
    ensures into[..] == Store3(Blocks3(a, b, c))
  {
    ghost var x, y, z := Store(LowPair(a[..])), Store(LowPair(b[..])), Store(LowPair(c[..]));
    Unscrun(a, into, 0);
    assert into[..8] == x;
    Unscrun(b, into, 8);
    assert into[..16] == x + y;
    Unscrun(c, into, 16);
    assert into[..] == x + y + z;
  }

  /** The second word of one block against the first of the next. */
  method Swap2(a: array<Wide>, b: array<Wide>)
    requires a.Length == b.Length == 2 && a != b
    modifies a, b
    ensures Blocks2(a, b) == Cross2Blocks(old(Blocks2(a, b)))
  {
    var swap := a[1];
    a[1] := b[0];
    b[0] := swap;
  }

  method Swap3(a: array<Wide>, b: array<Wide>, c: array<Wide>)
    requires a.Length == b.Length == c.Length == 2 && a != b && a != c && b != c
    modifies a, b, c
    ensures Blocks3(a, b, c) == Cross3Blocks(old(Blocks3(a, b, c)))
  {
    Swap2(a, b);
    Swap2(b, c);
  }
}
