/** The procedures of firefox/vncpwd/d3des.c over arrays and the global key registers. */
module DesRegisters {

  import opened Des
  import opened DesKeys
  import opened DesModes
  import opened DesMachine

  function LowWords(ws: seq<Wide>): (keys: seq<Word>)
    ensures |keys| == |ws|
  {
    seq(|ws|, i requires 0 <= i < |ws| => Low(ws[i]))
  }

  function LowPair(ws: seq<Wide>): Pair
    requires |ws| == 2
  {
    Pair(Low(ws[0]), Low(ws[1]))
  }

  function WideXor(x: Wide, y: Wide): Wide {
    x ^ y
  }

  lemma HalfRoundLow(half: Wide, w: Word)
    ensures Low(WideXor(half, Widen(w))) == Xor(Low(half), w)
  {
  }

  lemma HalfRoundClean(half: Wide, w: Word)
    requires Clean(half)
    ensures Clean(WideXor(half, Widen(w)))
  {
  }

  lemma TwoRounds(s: Boxes, keys: seq<Word>, b: Pair, n: nat)
    requires |keys| == 32 && n < 8
    ensures Rounds(s, keys, b, 2 * n + 2) ==
            Round(s, Round(s, Rounds(s, keys, b, 2 * n), keys[4 * n], keys[4 * n + 1]), keys[4 * n + 2], keys[4 * n + 3])
  {
    hide Round;
    assert Rounds(s, keys, b, 2 * n + 1) == Round(s, Rounds(s, keys, b, 2 * n), keys[4 * n], keys[4 * n + 1]);
  }

  /** desfunc: on wide words, in place. */
  method DesFunc(s: Boxes, block: array<Wide>, keys: array<Wide>)
    requires block.Length == 2 && keys.Length == 32 && block != keys
    modifies block
    ensures LowPair(block[..]) == Crypt(s, LowWords(keys[..]), LowPair(old(block[..])))
  {
    var left, right := InitialWords(block[0], block[1]);
    left, right := RunRounds(s, keys, left, right);
    left, right := FinalWords(left, right);
    block[0], block[1] := right, left;
  }

  /** The loop of desfunc: eight times two rounds. */
  method RunRounds(s: Boxes, keys: array<Wide>, l0: Wide, r0: Wide) returns (left: Wide, right: Wide)
    requires keys.Length == 32 && Clean(l0) && Clean(r0)
    ensures Clean(left) && Clean(right)
    ensures Pair(Low(left), Low(right)) == Rounds(s, LowWords(keys[..]), Pair(Low(l0), Low(r0)), 16)
  {
    hide Low;
    hide Clean;
    hide Round;
    ghost var ks, start := LowWords(keys[..]), Pair(Low(l0), Low(r0));
    left, right := l0, r0;
    for round := 0 to 8
      invariant Clean(left) && Clean(right)
      invariant Pair(Low(left), Low(right)) == Rounds(s, ks, start, 2 * round)
    {
      ghost var before := Pair(Low(left), Low(right));
      var k0, k1, k2, k3 := keys[4 * round], keys[4 * round + 1], keys[4 * round + 2], keys[4 * round + 3];
      NextTwo(s, ks, start, round, before, Low(k0), Low(k1), Low(k2), Low(k3));
      left, right := DoubleRound(s, left, right, k0, k1, k2, k3);
    }
  }

  lemma NextTwo(s: Boxes, ks: seq<Word>, b: Pair, n: nat, before: Pair, w0: Word, w1: Word, w2: Word, w3: Word)
    requires |ks| == 32 && n < 8 && before == Rounds(s, ks, b, 2 * n)
    requires w0 == ks[4 * n] && w1 == ks[4 * n + 1] && w2 == ks[4 * n + 2] && w3 == ks[4 * n + 3]
    ensures Round(s, Round(s, before, w0, w1), w2, w3) == Rounds(s, ks, b, 2 * (n + 1))
  {
    TwoRounds(s, ks, b, n);
  }

  method DoubleRound(s: Boxes, l: Wide, r: Wide, k0: Wide, k1: Wide, k2: Wide, k3: Wide) returns (left: Wide, right: Wide)
    requires Clean(l) && Clean(r)
    ensures Clean(left) && Clean(right)
    ensures Pair(Low(left), Low(right)) == Round(s, Round(s, Pair(Low(l), Low(r)), Low(k0), Low(k1)), Low(k2), Low(k3))
  {
    left := RoundOn(s, l, r, k0, k1);
    right := RoundOn(s, r, left, k2, k3);
  }

  method RoundOn(s: Boxes, half: Wide, other: Wide, k0: Wide, k1: Wide) returns (r: Wide)
    requires Clean(half) && Clean(other)
    ensures Clean(r) && Low(r) == Xor(Low(half), Feistel(s, Low(other), Low(k0), Low(k1)))
  {
    FvalLow(s, other, k0, k1);
    HalfRoundLow(half, Feistel(s, Low(other), Low(k0), Low(k1)));
    HalfRoundClean(half, Feistel(s, Low(other), Low(k0), Low(k1)));
    r := WideXor(half, Fval(s, other, k0, k1));
  }

  // ----- bytes -----

  function WideLoad(a: Byte, b: Byte, c: Byte, d: Byte): Wide {
    (((a as Wide) & 0xff) << 24) | (((b as Wide) & 0xff) << 16) | (((c as Wide) & 0xff) << 8) | ((d as Wide) & 0xff)
  }

  lemma WideLoadLow(a: Byte, b: Byte, c: Byte, d: Byte)
    ensures Low(WideLoad(a, b, c, d)) == LoadWord(a, b, c, d)
  {
  }

  method Scrunch(outof: array<Byte>, at: nat, into: array<Wide>)
    requires at + 8 <= outof.Length && into.Length == 2
    modifies into
    ensures LowPair(into[..]) == Load(outof[at..at + 8])
  {
    WideLoadLow(outof[at], outof[at + 1], outof[at + 2], outof[at + 3]);
    WideLoadLow(outof[at + 4], outof[at + 5], outof[at + 6], outof[at + 7]);
    into[0] := WideLoad(outof[at], outof[at + 1], outof[at + 2], outof[at + 3]);
    into[1] := WideLoad(outof[at + 4], outof[at + 5], outof[at + 6], outof[at + 7]);
  }

  function WideByte0(w: Wide): Byte { ((w >> 24) & 0xff) as Byte }
  function WideByte1(w: Wide): Byte { ((w >> 16) & 0xff) as Byte }
  function WideByte2(w: Wide): Byte { ((w >> 8) & 0xff) as Byte }
  function WideByte3(w: Wide): Byte { (w & 0xff) as Byte }

  lemma WideBytesLow(w: Wide)
    ensures WideByte0(w) == StoreByte0(Low(w)) && WideByte1(w) == StoreByte1(Low(w))
    ensures WideByte2(w) == StoreByte2(Low(w)) && WideByte3(w) == StoreByte3(Low(w))
  {
  }

  function WordBytes(w: Word): (b: seq<Byte>)
    ensures |b| == 4
  {
    [StoreByte0(w), StoreByte1(w), StoreByte2(w), StoreByte3(w)]
  }

  method StoreWide(w: Wide, into: array<Byte>, at: nat)
    requires at + 4 <= into.Length
    modifies into
    ensures into[..] == old(into[..at]) + WordBytes(Low(w)) + old(into[at + 4..])
  {
    WideBytesLow(w);
    into[at] := WideByte0(w);
    into[at + 1] := WideByte1(w);
    into[at + 2] := WideByte2(w);
    into[at + 3] := WideByte3(w);
  }

  method Unscrun(outof: array<Wide>, into: array<Byte>, at: nat)
    requires at + 8 <= into.Length && outof.Length == 2
    modifies into
    ensures into[..] == old(into[..at]) + Store(LowPair(outof[..])) + old(into[at + 8..])
  {
    hide Low;
    hide Store;
    ghost var start, end := into[..at], into[at + 8..];
    ghost var a, b := WordBytes(Low(outof[0])), WordBytes(Low(outof[1]));
    assert Store(LowPair(outof[..])) == a + b by { StoredWords(LowPair(outof[..])); }
    hide WordBytes;
    StoreWide(outof[0], into, at);
    assert into[..at + 4] == start + a && into[at + 8..] == end;
    StoreWide(outof[1], into, at + 4);
    assert into[..] == start + a + b + end;
  }

  lemma StoredWords(p: Pair)
    ensures Store(p) == WordBytes(p.l) + WordBytes(p.r)
  {
  }
}
