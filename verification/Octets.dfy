/** Bytes and big-endian numbers, as unpack('n' | 'N' | 'J') and binary.BigEndian read them. */
module Octets {

  type Byte = x: int | 0 <= x < 256

  function Power(k: nat): (p: nat)
    ensures p > 0
  {
    if k == 0 then 1 else 256 * Power(k - 1)
  }

  /** The number a big-endian string stands for. */
  function Number(b: seq<Byte>): (n: nat)
    ensures n < Power(|b|)
  {
    if b == [] then 0 else Number(b[..|b| - 1]) * 256 + b[|b| - 1]
  }

  /** The `k` low bytes of a number, most significant first. */
  function BigEndian(n: nat, k: nat): (b: seq<Byte>)
    ensures |b| == k
  {
    if k == 0 then [] else BigEndian(n / 256, k - 1) + [n % 256]
  }

  lemma {:induction false} NumberBigEndian(n: nat, k: nat)
    requires n < Power(k)
    ensures Number(BigEndian(n, k)) == n
  {
    if k > 0 {
      NumberBigEndian(n / 256, k - 1);
      assert BigEndian(n, k)[..k - 1] == BigEndian(n / 256, k - 1);
    }
  }

  lemma {:induction false} BigEndianNumber(b: seq<Byte>)
    ensures BigEndian(Number(b), |b|) == b
  {
    if b != [] {
      BigEndianNumber(b[..|b| - 1]);
      assert Number(b) / 256 == Number(b[..|b| - 1]) && Number(b) % 256 == b[|b| - 1];
    }
  }

  lemma SmallPowers()
    ensures Power(1) == 0x100 && Power(2) == 0x1_0000 && Power(4) == 0x1_0000_0000
    ensures Power(8) == 0x1_0000_0000_0000_0000
  {
    assert Power(2) == 256 * Power(1);
    assert Power(3) == 256 * Power(2);
    assert Power(4) == 256 * Power(3);
    assert Power(5) == 256 * Power(4);
    assert Power(6) == 256 * Power(5);
    assert Power(7) == 256 * Power(6);
    assert Power(8) == 256 * Power(7);
  }

  lemma Number1(a: Byte)
    ensures Number([a]) == a
  {
    assert [a][..0] == [];
  }

  /** `b` stands in `buf` at `offset`. */
  ghost predicate At(buf: seq<Byte>, offset: nat, b: seq<Byte>) {
    offset + |b| <= |buf| && buf[offset..offset + |b|] == b
  }

  lemma AtSplit(buf: seq<Byte>, offset: nat, a: seq<Byte>, b: seq<Byte>)
    requires At(buf, offset, a + b)
    ensures At(buf, offset, a) && At(buf, offset + |a|, b)
  {
    var whole := buf[offset..offset + |a + b|];
    assert whole[..|a|] == a && whole[|a|..] == b;
    assert buf[offset..offset + |a|] == whole[..|a|];
    assert buf[offset + |a|..offset + |a| + |b|] == whole[|a|..];
  }

  lemma AtByte(buf: seq<Byte>, offset: nat, b: Byte)
    requires At(buf, offset, [b])
    ensures offset < |buf| && buf[offset] == b
  {
    assert buf[offset] == buf[offset..offset + 1][0];
  }

  lemma AtSlice(buf: seq<Byte>, offset: nat, b: seq<Byte>)
    requires At(buf, offset, b)
    ensures offset + |b| <= |buf| && buf[offset..offset + |b|] == b
  {
  }

  // ----- 16-bit fields -----

  function Uint16(buf: seq<Byte>, off: nat): (n: nat)
    requires off + 2 <= |buf|
  {
    var high: nat := buf[off];
    high * 256 + buf[off + 1]
  }

  function Bytes16(n: nat): (b: seq<Byte>)
    ensures |b| == 2
  {
    [n / 256 % 256, n % 256]
  }

  lemma Uint16At(buf: seq<Byte>, off: nat, n: nat)
    requires n < 0x1_0000 && At(buf, off, Bytes16(n))
    ensures off + 2 <= |buf| && Uint16(buf, off) == n
  {
    assert buf[off] == buf[off..off + 2][0] && buf[off + 1] == buf[off..off + 2][1];
  }

  /** A 16-bit field is the number its two bytes stand for, most significant first. */
  lemma Uint16IsNumber(buf: seq<Byte>, off: nat)
    requires off + 2 <= |buf|
    ensures Uint16(buf, off) == Number(buf[off..off + 2])
  {
    var b := buf[off..off + 2];
    assert b[..1] == [buf[off]];
    Number1(buf[off]);
  }

  lemma Bytes16IsBigEndian(n: nat)
    ensures Bytes16(n) == BigEndian(n, 2)
  {
    assert BigEndian(n / 256, 1) == BigEndian(n / 256 / 256, 0) + [n / 256 % 256];
  }

  // ----- Go strings -----

  type Text = seq<Byte>

  predicate Ascii(s: Text) {
    forall i | 0 <= i < |s| :: s[i] < 0x80
  }

  function LowerByte(b: Byte): Byte {
    if 0x41 <= b <= 0x5a then b + 0x20 else b
  }

  /** strings.ToLower; what it does beyond ASCII is left to `fold`. */
  function Lower(fold: Text -> Text, s: Text): Text {
    if Ascii(s) then seq(|s|, i requires 0 <= i < |s| => LowerByte(s[i])) else fold(s)
  }

  /** No capital is left, and nothing has changed but capitals into their small letters. */
  lemma LowerMeaning(fold: Text -> Text, s: Text, i: nat)
    requires Ascii(s) && i < |s|
    ensures var r := Lower(fold, s);
            && |r| == |s| && !(0x41 <= r[i] <= 0x5a)
            && (r[i] == s[i] || (0x41 <= s[i] <= 0x5a && r[i] == s[i] + 0x20))
    ensures Lower(fold, Lower(fold, s)) == Lower(fold, s)
  {
  }
}
