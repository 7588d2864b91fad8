/** The DER writer of webauthn/src/WebAuthn/Attestation/AuthenticatorData.php, against X.690 read backwards. */
module Der {

  import opened Wrappers
  import opened Octets

  /** A string length in PHP. */
  const LENGTH_LIMIT: nat := 0x8000_0000_0000_0000

  // ----- lengths -----

  /** The bytes of a number without leading zeros. */
  function Shortest(n: nat): (b: seq<Byte>)
    ensures n > 0 ==> b != [] && b[0] > 0
  {
    if n == 0 then [] else Shortest(n / 256) + [n % 256]
  }

  lemma {:induction false} ShortestNumber(n: nat)
    ensures Number(Shortest(n)) == n
  {
    if n > 0 {
      ShortestNumber(n / 256);
      assert Shortest(n)[..|Shortest(n)| - 1] == Shortest(n / 256);
    }
  }

  /** Nothing shorter holds the number. */
  lemma {:induction false} ShortestIsShortest(n: nat, k: nat)
    ensures |Shortest(n)| <= k <==> n < Power(k)
    decreases k
  {
    if k == 0 {
    } else if n > 0 {
      ShortestIsShortest(n / 256, k - 1);
    }
  }

  lemma ShortLengths(n: nat)
    requires n < LENGTH_LIMIT
    ensures |Shortest(n)| <= 8
  {
    SmallPowers();
    ShortestIsShortest(n, 8);
  }

  function Length(n: nat): (b: seq<Byte>)
    requires n < LENGTH_LIMIT
    ensures |b| >= 1
  {
    ShortLengths(n);
    if n < 128 then [n] else [0x80 + |Shortest(n)|] + Shortest(n)
  }

  datatype Lengthed = Lengthed(n: nat, next: nat)

  /** Section 8.1.3 of X.690: the length octets at `at`, in any definite form. */
  function ReadLength(b: seq<Byte>, at: nat): (r: Option<Lengthed>)
    ensures r.Some? ==> at < r.value.next <= |b|
  {
    if at >= |b| then None
    else if b[at] < 0x80 then Some(Lengthed(b[at], at + 1))
    else
      var k := b[at] - 0x80;
      if k == 0 || at + 1 + k > |b| then None else Some(Lengthed(Number(b[at + 1..at + 1 + k]), at + 1 + k))
  }

  /** The length written is the length read, wherever it stands. */
  lemma LengthReads(pre: seq<Byte>, n: nat, post: seq<Byte>)
    requires n < LENGTH_LIMIT
    ensures ReadLength(pre + Length(n) + post, |pre|) == Some(Lengthed(n, |pre| + |Length(n)|))
  {
    hide Shortest;
    hide Number;
    var b, at := pre + Length(n) + post, |pre|;
    ShortLengths(n);
    ShortestNumber(n);
    if n >= 128 {
      assert b[at + 1..at + 1 + |Shortest(n)|] == Shortest(n);
    }
  }

  /** Section 10.1 of X.690: no other form of the same length is as short. */
  lemma LengthIsShortest(n: nat, b: seq<Byte>)
    requires n < LENGTH_LIMIT && ReadLength(b, 0) == Some(Lengthed(n, |b|))
    ensures |Length(n)| <= |b|
    ensures |Length(n)| == |b| ==> Length(n) == b
  {
    hide Shortest;
    hide Number;
    if n >= 128 {
      var k := b[0] - 0x80;
      assert b[1..1 + k] == b[1..];
      ShortestIsShortest(n, k);
      ShortestNumber(n);
      if |Shortest(n)| == k {
        SameSizeSameBytes(Shortest(n), b[1..]);
        assert b == [b[0]] + b[1..];
      }
    }
  }

  lemma SameSizeSameBytes(a: seq<Byte>, b: seq<Byte>)
    requires |a| == |b|
    ensures Number(a) == Number(b) ==> a == b
  {
    BigEndianNumber(a);
    BigEndianNumber(b);
  }

  /** _der_length */
  method DerLength(len: nat) returns (b: seq<Byte>)
    requires len < LENGTH_LIMIT
    ensures b == Length(len)
  {
    if len < 128 {
      return [len];
    }
    var lenBytes: seq<Byte>, rest := [], len;
    while rest > 0
      invariant Shortest(len) == Shortest(rest) + lenBytes
    {
      lenBytes := [rest % 256] + lenBytes;
      rest := rest / 256;
    }
    ShortLengths(len);
    b := [0x80 + |lenBytes|] + lenBytes;
  }

  // ----- unsigned integers -----

  /** The value of integer contents: two's complement, section 8.3.3 of X.690. */
  function TwosComplement(c: seq<Byte>): int
    requires c != []
  {
    Number(c) - if c[0] >= 0x80 then Power(|c|) else 0
  }

  function Stripped(b: seq<Byte>): (r: seq<Byte>)
    ensures b != [] ==> r != [] && (r[0] != 0 || |r| == 1)
    ensures |r| <= |b|
  {
    if |b| > 1 && b[0] == 0 then Stripped(b[1..]) else b
  }

  function IntegerContents(b: seq<Byte>): (r: seq<Byte>)
    ensures |r| <= |b| + 1
  {
    var s := Stripped(b);
    if s != [] && s[0] >= 0x80 then [0] + s else s
  }

  lemma Carry(x: nat, p: nat, y: nat)
    ensures (x * p + y) * 256 == x * (256 * p) + y * 256
  {
  }

  lemma {:induction false} NumberConcat(a: seq<Byte>, b: seq<Byte>)
    ensures Number(a + b) == Number(a) * Power(|b|) + Number(b)
    decreases |b|
  {
    if b == [] {
      assert a + b == a;
    } else {
      var c := b[..|b| - 1];
      NumberConcat(a, c);
      assert (a + b)[..|a + b| - 1] == a + c;
      Carry(Number(a), Power(|c|), Number(c));
    }
  }

  lemma LeadingZero(b: seq<Byte>)
    ensures Number([0] + b) == Number(b)
  {
    NumberConcat([0], b);
    Number1(0);
    assert 0 * Power(|b|) == 0;
  }

  lemma {:induction false} StrippedNumber(b: seq<Byte>)
    ensures Number(Stripped(b)) == Number(b)
  {
    if |b| > 1 && b[0] == 0 {
      LeadingZero(b[1..]);
      assert b == [0] + b[1..];
      StrippedNumber(b[1..]);
    }
  }

  /** The contents denote the unsigned number. */
  lemma IntegerDenotes(b: seq<Byte>)
    requires b != []
    ensures IntegerContents(b) != [] && TwosComplement(IntegerContents(b)) == Number(b)
  {
    StrippedNumber(b);
    LeadingZero(Stripped(b));
  }

  /** The first byte's share of a number. */
  lemma FirstByte(b: seq<Byte>)
    requires b != []
    ensures b[0] * Power(|b| - 1) <= Number(b) < (b[0] + 1) * Power(|b| - 1)
  {
    hide Number;
    hide Power;
    NumberConcat([b[0]], b[1..]);
    Number1(b[0]);
    assert b == [b[0]] + b[1..];
    assert (b[0] + 1) * Power(|b| - 1) == b[0] * Power(|b| - 1) + Power(|b| - 1);
  }

  lemma {:induction false} PowerGrows(a: nat, b: nat)
    requires a <= b
    ensures Power(a) <= Power(b)
  {
    if a < b {
      PowerGrows(a, b - 1);
    }
  }

  lemma Scaled(x: nat, y: nat, p: nat)
    requires x <= y
    ensures x * p <= y * p
  {
  }

  /** Contents of a number that is not negative hold at most half the range. */
  lemma PositiveContents(c: seq<Byte>)
    requires c != [] && TwosComplement(c) >= 0
    ensures c[0] < 0x80 && 2 * Number(c) < Power(|c|)
  {
    FirstByte(c);
    assert Number(c) < Power(|c|) && Power(|c|) == 256 * Power(|c| - 1);
    hide Number;
    hide Power;
    Scaled(c[0] + 1, 128, Power(|c| - 1));
  }

  /** Without leading zeros the contents need at least this range. */
  lemma StrippedNeeds(s: seq<Byte>)
    requires |s| > 1 && s[0] != 0
    ensures Number(s) >= Power(|s| - 1)
    ensures s[0] >= 0x80 ==> 2 * Number(s) >= Power(|s|)
  {
    FirstByte(s);
    Scaled(1, s[0], Power(|s| - 1));
    if s[0] >= 0x80 {
      Scaled(128, s[0], Power(|s| - 1));
    }
  }

  /** Section 8.3.2 of X.690: no shorter contents denote the number. */
  lemma IntegerIsShortest(b: seq<Byte>, c: seq<Byte>)
    requires b != [] && c != [] && TwosComplement(c) == Number(b)
    ensures |IntegerContents(b)| <= |c|
  {
    var s := Stripped(b);
    StrippedNumber(b);
    PositiveContents(c);
    if |s| == 1 {
      OneByte(s, c);
    } else {
      StrippedNeeds(s);
      Longer(Number(s), |s|, |c|, s[0] >= 0x80);
    }
  }

  lemma Longer(n: nat, k: nat, size: nat, high: bool)
    requires k > 1 && size > 0 && 2 * n < Power(size) && n >= Power(k - 1) && (high ==> 2 * n >= Power(k))
    ensures if high then size > k else size >= k
  {
    if size <= k {
      PowerGrows(size, k);
    }
    if size <= k - 1 {
      PowerGrows(size, k - 1);
    }
  }

  lemma OneByte(s: seq<Byte>, c: seq<Byte>)
    requires |s| == 1 && c != [] && 2 * Number(s) < Power(|c|)
    ensures if s[0] >= 0x80 then |c| > 1 else |c| >= 1
  {
    Number1(s[0]);
    assert s == [s[0]];
    SmallPowers();
  }

  // ----- whole values -----

  function Tagged(tag: Byte, contents: seq<Byte>): (b: seq<Byte>)
    requires |contents| < LENGTH_LIMIT
    ensures |contents| < |b| <= |contents| + 10
  {
    ShortLengths(|contents|);
    [tag] + Length(|contents|) + contents
  }

  datatype Piece = Piece(tag: Byte, contents: seq<Byte>, next: nat)

  /** One tag, length and contents at `at`. */
  function ReadPiece(b: seq<Byte>, at: nat): (r: Option<Piece>)
    ensures r.Some? ==> at < r.value.next <= |b|
  {
    if at >= |b| then None
    else
      var len := ReadLength(b, at + 1);
      if len.None? || len.value.next + len.value.n > |b| then None
      else Some(Piece(b[at], b[len.value.next..len.value.next + len.value.n], len.value.next + len.value.n))
  }

  /** A piece is read back, and to its own end, wherever it stands. */
  lemma PieceReads(pre: seq<Byte>, tag: Byte, c: seq<Byte>, post: seq<Byte>)
    requires |c| < LENGTH_LIMIT
    ensures ReadPiece(pre + Tagged(tag, c) + post, |pre|) == Some(Piece(tag, c, |pre| + |Tagged(tag, c)|))
  {
    hide ReadLength;
    var b, len := pre + Tagged(tag, c) + post, Length(|c|);
    assert b == (pre + [tag]) + len + (c + post);
    LengthReads(pre + [tag], |c|, c + post);
    assert b[|pre| + 1 + |len|..|pre| + 1 + |len| + |c|] == c;
  }

  /** Pieces are self-delimiting: what is written determines tag, contents and what follows. */
  lemma PiecesInjective(tag: Byte, c: seq<Byte>, post: seq<Byte>, tag': Byte, c': seq<Byte>, post': seq<Byte>)
    requires |c| < LENGTH_LIMIT && |c'| < LENGTH_LIMIT
    requires Tagged(tag, c) + post == Tagged(tag', c') + post'
    ensures tag == tag' && c == c' && post == post'
  {
    hide Tagged;
    hide ReadPiece;
    PieceReads([], tag, c, post);
    PieceReads([], tag', c', post');
    assert [] + Tagged(tag, c) == Tagged(tag, c) && [] + Tagged(tag', c') == Tagged(tag', c');
    assert post == (Tagged(tag, c) + post)[|Tagged(tag, c)|..];
    assert post' == (Tagged(tag', c') + post')[|Tagged(tag', c')|..];
  }

  lemma PieceInjective(tag: Byte, c: seq<Byte>, tag': Byte, c': seq<Byte>)
    requires |c| < LENGTH_LIMIT && |c'| < LENGTH_LIMIT && Tagged(tag, c) == Tagged(tag', c')
    ensures tag == tag' && c == c'
  {
    hide Tagged;
    assert Tagged(tag, c) + [] == Tagged(tag, c) && Tagged(tag', c') + [] == Tagged(tag', c');
    PiecesInjective(tag, c, [], tag', c', []);
  }

  function Integer(b: seq<Byte>): (r: seq<Byte>)
    requires |b| + 1 < LENGTH_LIMIT
    ensures |r| <= |b| + 11
  {
    Tagged(0x02, IntegerContents(b))
  }

  /** _der_unsignedInteger; of an empty string it writes an integer without contents. */
  method DerUnsignedInteger(bytes: seq<Byte>) returns (b: seq<Byte>)
    requires |bytes| + 1 < LENGTH_LIMIT
    ensures b == Integer(bytes)
  {
    var rest, i := bytes, 0;
    while i < |bytes| - 1 && bytes[i] == 0
      invariant 0 <= i && (bytes != [] ==> i < |bytes|) && (bytes == [] ==> i == 0)
      invariant Stripped(bytes) == Stripped(bytes[i..])
    {
      assert bytes[i..][1..] == bytes[i + 1..];
      i := i + 1;
    }
    if i != 0 {
      rest := bytes[i..];
    }
    assert rest == bytes[i..];
    if rest != [] && rest[0] >= 0x80 {
      rest := [0] + rest;
    }
    var len := DerLength(|rest|);
    b := [0x02] + len + rest;
  }

  lemma IntegerInjective(b: seq<Byte>, post: seq<Byte>, b': seq<Byte>, post': seq<Byte>)
    requires 0 < |b| < LENGTH_LIMIT - 1 && 0 < |b'| < LENGTH_LIMIT - 1 && Integer(b) + post == Integer(b') + post'
    ensures Number(b) == Number(b') && post == post'
  {
    hide IntegerContents;
    PiecesInjective(0x02, IntegerContents(b), post, 0x02, IntegerContents(b'), post');
    IntegerDenotes(b);
    IntegerDenotes(b');
  }

  // ----- public keys -----

  const EC_PUBLIC_KEY: seq<Byte> := [0x2a, 0x86, 0x48, 0xce, 0x3d, 0x02, 0x01]
  const PRIME256V1: seq<Byte> := [0x2a, 0x86, 0x48, 0xce, 0x3d, 0x03, 0x01, 0x07]
  const RSA_ENCRYPTION: seq<Byte> := [0x2a, 0x86, 0x48, 0x86, 0xf7, 0x0d, 0x01, 0x01, 0x01]

  function BitString(b: seq<Byte>): seq<Byte>
    requires |b| + 1 < LENGTH_LIMIT
  {
    Tagged(0x03, [0x00] + b)
  }

  /** An algorithm identifier and the key bits, as in every subject public key. */
  function PublicKey(algorithm: seq<Byte>, bits: seq<Byte>): seq<Byte>
    requires |algorithm| < 0x1000 && |bits| < 0x1000_0000
  {
    Tagged(0x30, Tagged(0x30, algorithm) + BitString(bits))
  }

  lemma PublicKeyInjective(a: seq<Byte>, bits: seq<Byte>, a': seq<Byte>, bits': seq<Byte>)
    requires |a| < 0x1000 && |bits| < 0x1000_0000 && |a'| < 0x1000 && |bits'| < 0x1000_0000
    requires PublicKey(a, bits) == PublicKey(a', bits')
    ensures a == a' && bits == bits'
  {
    hide Tagged;
    PieceInjective(0x30, Tagged(0x30, a) + BitString(bits), 0x30, Tagged(0x30, a') + BitString(bits'));
    PiecesInjective(0x30, a, BitString(bits), 0x30, a', BitString(bits'));
    PieceInjective(0x03, [0x00] + bits, 0x03, [0x00] + bits');
    assert bits == ([0x00] + bits)[1..] && bits' == ([0x00] + bits')[1..];
  }

  /** _getEc2Der over getPublicKeyU2F */
  function Ec2(x: seq<Byte>, y: seq<Byte>): seq<Byte>
    requires |x| == |y| == 32
  {
    PublicKey(Tagged(0x06, EC_PUBLIC_KEY) + Tagged(0x06, PRIME256V1), [0x04] + x + y)
  }

  /** _getRsaDer */
  function Rsa(n: seq<Byte>, e: seq<Byte>): seq<Byte>
    requires |n| == 256 && |e| == 3
  {
    PublicKey(Tagged(0x06, RSA_ENCRYPTION) + [0x05, 0x00], Tagged(0x30, Integer(n) + Integer(e)))
  }

  lemma Ec2Injective(x: seq<Byte>, y: seq<Byte>, x': seq<Byte>, y': seq<Byte>)
    requires |x| == |y| == |x'| == |y'| == 32 && Ec2(x, y) == Ec2(x', y')
    ensures x == x' && y == y'
  {
    hide Tagged;
    hide PublicKey;
    var algorithm := Tagged(0x06, EC_PUBLIC_KEY) + Tagged(0x06, PRIME256V1);
    PublicKeyInjective(algorithm, [0x04] + x + y, algorithm, [0x04] + x' + y');
    assert x == ([0x04] + x + y)[1..33] && y == ([0x04] + x + y)[33..];
    assert x' == ([0x04] + x' + y')[1..33] && y' == ([0x04] + x' + y')[33..];
  }

  lemma RsaInjective(n: seq<Byte>, e: seq<Byte>, n': seq<Byte>, e': seq<Byte>)
    requires |n| == |n'| == 256 && |e| == |e'| == 3 && Rsa(n, e) == Rsa(n', e')
    ensures n == n' && e == e'
  {
    hide Tagged;
    hide PublicKey;
    hide Integer;
    var algorithm := Tagged(0x06, RSA_ENCRYPTION) + [0x05, 0x00];
    var body, body' := Integer(n) + Integer(e), Integer(n') + Integer(e');
    PublicKeyInjective(algorithm, Tagged(0x30, body), algorithm, Tagged(0x30, body'));
    PieceInjective(0x30, body, 0x30, body');
    IntegerInjective(n, Integer(e), n', Integer(e'));
    assert Integer(e) + [] == Integer(e) && Integer(e') + [] == Integer(e');
    IntegerInjective(e, [], e', []);
    BigEndianNumber(n);
    BigEndianNumber(n');
    BigEndianNumber(e);
    BigEndianNumber(e');
  }

  lemma Ec2IsNotRsa(x: seq<Byte>, y: seq<Byte>, n: seq<Byte>, e: seq<Byte>)
    requires |x| == |y| == 32 && |n| == 256 && |e| == 3
    ensures Ec2(x, y) != Rsa(n, e)
  {
    hide Tagged;
    hide PublicKey;
    hide Integer;
    var ec, rsa := Tagged(0x06, EC_PUBLIC_KEY) + Tagged(0x06, PRIME256V1), Tagged(0x06, RSA_ENCRYPTION) + [0x05, 0x00];
    if Ec2(x, y) == Rsa(n, e) {
      PublicKeyInjective(ec, [0x04] + x + y, rsa, Tagged(0x30, Integer(n) + Integer(e)));
      PiecesInjective(0x06, EC_PUBLIC_KEY, Tagged(0x06, PRIME256V1), 0x06, RSA_ENCRYPTION, [0x05, 0x00]);
      assert false;
    }
  }

  // ----- what a reader of X.690 finds -----

  datatype Element = Element(tag: Byte, contents: seq<Byte>)

  /** From `at` on the bytes are these elements one after the other, and nothing else. */
  ghost predicate Contains(b: seq<Byte>, at: nat, es: seq<Element>)
    decreases |es|
  {
    if es == [] then at == |b|
    else
      var p := ReadPiece(b, at);
      p.Some? && p.value.tag == es[0].tag && p.value.contents == es[0].contents && Contains(b, p.value.next, es[1..])
  }

  ghost predicate Writable(es: seq<Element>) {
    forall i | 0 <= i < |es| :: |es[i].contents| < LENGTH_LIMIT
  }

  function Written(es: seq<Element>): seq<Byte>
    requires Writable(es)
  {
    if es == [] then [] else Tagged(es[0].tag, es[0].contents) + Written(es[1..])
  }

  lemma {:induction false} WrittenIsRead(pre: seq<Byte>, es: seq<Element>)
    requires Writable(es)
    ensures Contains(pre + Written(es), |pre|, es)
    decreases |es|
  {
    hide Tagged;
    hide ReadPiece;
    if es == [] {
      assert pre + Written(es) == pre;
    } else {
      var first, rest := Tagged(es[0].tag, es[0].contents), Written(es[1..]);
      PieceReads(pre, es[0].tag, es[0].contents, rest);
      WrittenIsRead(pre + first, es[1..]);
      assert pre + Written(es) == pre + first + rest;
    }
  }

  lemma OneRead(tag: Byte, c: seq<Byte>)
    requires |c| < LENGTH_LIMIT
    ensures Contains(Tagged(tag, c), 0, [Element(tag, c)])
  {
    hide Tagged;
    hide ReadPiece;
    var e := Element(tag, c);
    assert [e][1..] == [];
    WrittenIsRead([], [e]);
    assert [] + Written([e]) == Tagged(tag, c);
  }

  lemma TwoRead(a: Element, b: Element)
    requires |a.contents| < LENGTH_LIMIT && |b.contents| < LENGTH_LIMIT
    ensures Contains(Tagged(a.tag, a.contents) + Tagged(b.tag, b.contents), 0, [a, b])
  {
    hide Tagged;
    hide ReadPiece;
    assert [a, b][1..] == [b] && [b][1..] == [];
    WrittenIsRead([], [a, b]);
    assert Written([b]) == Tagged(b.tag, b.contents);
    assert [] + Written([a, b]) == Tagged(a.tag, a.contents) + Tagged(b.tag, b.contents);
  }

  /** Section 8.19 of X.690: arcs in base 128, the first two in one. */
  function ArcsFrom(b: seq<Byte>, high: nat): seq<nat> {
    if b == [] then []
    else if b[0] < 128 then [128 * high + b[0]] + ArcsFrom(b[1..], 0)
    else ArcsFrom(b[1..], 128 * high + b[0] - 128)
  }

  function Arcs(b: seq<Byte>): seq<nat>
    requires b != []
  {
    [b[0] / 40, b[0] % 40] + ArcsFrom(b[1..], 0)
  }

  lemma EcPublicKeyArcs()
    ensures Arcs(EC_PUBLIC_KEY) == [1, 2, 840, 10045, 2, 1]
  {
    Ansi([0x02, 0x01]);
    assert EC_PUBLIC_KEY[1..] == [0x86, 0x48] + [0xce, 0x3d] + [0x02, 0x01];
    assert ArcsFrom([0x02, 0x01], 0) == [2, 1] by {
      assert [0x02, 0x01][1..] == [0x01] && [0x01][1..] == [];
    }
  }

  lemma Prime256v1Arcs()
    ensures Arcs(PRIME256V1) == [1, 2, 840, 10045, 3, 1, 7]
  {
    Ansi([0x03, 0x01, 0x07]);
    assert PRIME256V1[1..] == [0x86, 0x48] + [0xce, 0x3d] + [0x03, 0x01, 0x07];
    assert ArcsFrom([0x03, 0x01, 0x07], 0) == [3, 1, 7] by {
      assert [0x03, 0x01, 0x07][1..] == [0x01, 0x07] && [0x01, 0x07][1..] == [0x07] && [0x07][1..] == [];
    }
  }

  lemma RsaEncryptionArcs()
    ensures Arcs(RSA_ENCRYPTION) == [1, 2, 840, 113549, 1, 1, 1]
  {
    Rsadsi([0x01, 0x01, 0x01]);
    assert RSA_ENCRYPTION[1..] == [0x86, 0x48] + [0x86, 0xf7, 0x0d] + [0x01, 0x01, 0x01];
    assert ArcsFrom([0x01, 0x01, 0x01], 0) == [1, 1, 1] by {
      assert [0x01, 0x01, 0x01][1..] == [0x01, 0x01] && [0x01, 0x01][1..] == [0x01] && [0x01][1..] == [];
    }
  }

  lemma Ansi(rest: seq<Byte>)
    ensures ArcsFrom([0x86, 0x48] + [0xce, 0x3d] + rest, 0) == [840, 10045] + ArcsFrom(rest, 0)
  {
    var b := [0x86, 0x48] + [0xce, 0x3d] + rest;
    assert b[1..][1..] == [0xce, 0x3d] + rest && ([0xce, 0x3d] + rest)[1..][1..] == rest;
    assert ArcsFrom(b, 0) == ArcsFrom(b[1..], 6) == [840] + ArcsFrom([0xce, 0x3d] + rest, 0);
    assert ArcsFrom([0xce, 0x3d] + rest, 0) == ArcsFrom(([0xce, 0x3d] + rest)[1..], 78) == [10045] + ArcsFrom(rest, 0);
  }

  lemma Rsadsi(rest: seq<Byte>)
    ensures ArcsFrom([0x86, 0x48] + [0x86, 0xf7, 0x0d] + rest, 0) == [840, 113549] + ArcsFrom(rest, 0)
  {
    var b, c := [0x86, 0x48] + [0x86, 0xf7, 0x0d] + rest, [0x86, 0xf7, 0x0d] + rest;
    assert b[1..][1..] == c && c[1..][1..][1..] == rest;
    assert ArcsFrom(b, 0) == ArcsFrom(b[1..], 6) == [840] + ArcsFrom(c, 0);
    assert ArcsFrom(c, 0) == ArcsFrom(c[1..], 6) == ArcsFrom(c[1..][1..], 887) == [113549] + ArcsFrom(rest, 0);
  }

  lemma PublicKeyRead(algorithm: seq<Byte>, bits: seq<Byte>) returns (key: seq<Byte>)
    requires |algorithm| < 0x1000 && |bits| < 0x1000_0000
    ensures Contains(PublicKey(algorithm, bits), 0, [Element(0x30, key)])
    ensures Contains(key, 0, [Element(0x30, algorithm), Element(0x03, [0x00] + bits)])
  {
    hide Tagged;
    hide Contains;
    key := Tagged(0x30, algorithm) + BitString(bits);
    TwoRead(Element(0x30, algorithm), Element(0x03, [0x00] + bits));
    OneRead(0x30, key);
  }

  /**
    A reader finds in the encoding of an EC key the two object identifiers, and a bit
    string without unused bits that holds the uncompressed point, x before y.
   */
  lemma Ec2IsRead(x: seq<Byte>, y: seq<Byte>) returns (key: seq<Byte>, algorithm: seq<Byte>)
    requires |x| == |y| == 32
    ensures Contains(Ec2(x, y), 0, [Element(0x30, key)])
    ensures Contains(key, 0, [Element(0x30, algorithm), Element(0x03, [0x00, 0x04] + x + y)])
    ensures Contains(algorithm, 0, [Element(0x06, EC_PUBLIC_KEY), Element(0x06, PRIME256V1)])
    ensures Arcs(EC_PUBLIC_KEY) == [1, 2, 840, 10045, 2, 1] && Arcs(PRIME256V1) == [1, 2, 840, 10045, 3, 1, 7]
  {
    hide Tagged;
    hide Contains;
    hide PublicKey;
    hide Arcs;
    EcPublicKeyArcs();
    Prime256v1Arcs();
    algorithm := Tagged(0x06, EC_PUBLIC_KEY) + Tagged(0x06, PRIME256V1);
    TwoRead(Element(0x06, EC_PUBLIC_KEY), Element(0x06, PRIME256V1));
    key := PublicKeyRead(algorithm, [0x04] + x + y);
    assert [0x00] + ([0x04] + x + y) == [0x00, 0x04] + x + y;
  }

  /** What is nested in an RSA key. */
  datatype RsaParts = RsaParts(key: seq<Byte>, algorithm: seq<Byte>, bits: seq<Byte>, numbers: seq<Byte>,
                               modulus: seq<Byte>, exponent: seq<Byte>)

  /** In the encoding of an RSA key: the identifier with a null, and a bit string around the modulus and the exponent. */
  lemma RsaIsRead(n: seq<Byte>, e: seq<Byte>) returns (p: RsaParts)
    requires |n| == 256 && |e| == 3
    ensures Contains(Rsa(n, e), 0, [Element(0x30, p.key)])
    ensures Contains(p.key, 0, [Element(0x30, p.algorithm), Element(0x03, [0x00] + p.bits)])
    ensures Contains(p.algorithm, 0, [Element(0x06, RSA_ENCRYPTION), Element(0x05, [])])
    ensures Contains(p.bits, 0, [Element(0x30, p.numbers)])
    ensures Contains(p.numbers, 0, [Element(0x02, p.modulus), Element(0x02, p.exponent)])
    ensures p.modulus != [] && TwosComplement(p.modulus) == Number(n)
    ensures p.exponent != [] && TwosComplement(p.exponent) == Number(e)
    ensures Arcs(RSA_ENCRYPTION) == [1, 2, 840, 113549, 1, 1, 1]
  {
    NullIsTagged();
    hide Tagged;
    hide Contains;
    hide PublicKey;
    hide Arcs;
    hide IntegerContents;
    hide TwosComplement;
    RsaEncryptionArcs();
    var algorithm := Tagged(0x06, RSA_ENCRYPTION) + [0x05, 0x00];
    TwoRead(Element(0x06, RSA_ENCRYPTION), Element(0x05, []));
    var modulus, exponent := IntegerContents(n), IntegerContents(e);
    IntegerDenotes(n);
    IntegerDenotes(e);
    var numbers := Integer(n) + Integer(e);
    TwoRead(Element(0x02, modulus), Element(0x02, exponent));
    var bits := Tagged(0x30, numbers);
    OneRead(0x30, numbers);
    var key := PublicKeyRead(algorithm, bits);
    p := RsaParts(key, algorithm, bits, numbers, modulus, exponent);
  }

  lemma NullIsTagged()
    ensures Tagged(0x05, []) == [0x05, 0x00]
  {
  }
}
