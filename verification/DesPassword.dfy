/** makekey of firefox/vncpwd/d3des.c: a password hashed into a key, the registers put back and the password erased. */
module DesPassword {

  import opened Des
  import opened DesKeys
  import opened DesModes
  import opened DesMachine
  import opened DesDevice

  function DefaultKey(): (k: seq<Byte>)
    ensures |k| == 16
  {
    [0x01, 0x23, 0x45, 0x67, 0x89, 0xab, 0xcd, 0xef, 0xfe, 0xdc, 0xba, 0x98, 0x76, 0x54, 0x32, 0x10]
  }

  /** One character folded into one byte of the key. */
  function Folded(k: Byte, c: Byte): Byte {
    k ^ (c & 0x7f)
  }

  /** The key after up to eight characters have been folded in. */
  function Mixed(k: seq<Byte>, chunk: seq<Byte>): (r: seq<Byte>)
    requires |chunk| <= |k|
    ensures |r| == |k|
  {
    seq(|k|, i requires 0 <= i < |k| => if i < |chunk| then Folded(k[i], chunk[i]) else k[i])
  }

  function Chunk(password: seq<Byte>): (n: nat) {
    if |password| < 8 then |password| else 8
  }

  /** The remaining characters hashed on top of the key so far. */
  function Hashed(s: Boxes, regs: Registers, k: seq<Byte>, password: seq<Byte>, first: bool): (r: seq<Byte>)
    requires Loaded(regs) && |k| == 8
    ensures |r| == 8
    decreases |password|, first
  {
    if password == [] && !first then k
    else
      var n := Chunk(password);
      Hashed(s, regs, CryptBytes1(s, regs, Mixed(k, password[..n])), password[n..], false)
  }

  function PasswordKey(s: Boxes, password: seq<Byte>): (r: seq<Byte>)
    ensures |r| == 8
  {
    Hashed(s, DoubleKey(DefaultKey(), EN0), DefaultKey()[..8], password, true)
  }

  /** Only seven bits of each character count. */
  ghost predicate SameLowBits(p: seq<Byte>, q: seq<Byte>) {
    |p| == |q| && forall i | 0 <= i < |p| :: p[i] & 0x7f == q[i] & 0x7f
  }

  lemma {:induction false} HighBitsIgnored(s: Boxes, regs: Registers, k: seq<Byte>, p: seq<Byte>, q: seq<Byte>, first: bool)
    requires Loaded(regs) && |k| == 8 && SameLowBits(p, q)
    ensures Hashed(s, regs, k, p, first) == Hashed(s, regs, k, q, first)
    decreases |p|, first
  {
    hide CryptBytes1;
    if p != [] || first {
      var n := Chunk(p);
      assert Mixed(k, p[..n]) == Mixed(k, q[..n]);
      HighBitsIgnored(s, regs, CryptBytes1(s, regs, Mixed(k, p[..n])), p[n..], q[n..], false);
    }
  }

  lemma PasswordKeyIgnoresHighBits(s: Boxes, p: seq<Byte>, q: seq<Byte>)
    requires SameLowBits(p, q)
    ensures PasswordKey(s, p) == PasswordKey(s, q)
  {
    HighBitsIgnored(s, DoubleKey(DefaultKey(), EN0), DefaultKey()[..8], p, q, true);
  }

  ghost predicate Terminated(chars: seq<Byte>, i: nat, end: nat) {
    i <= end < |chars| && chars[end] == 0 && forall j | i <= j < end :: chars[j] != 0
  }

  function Zeros(n: nat): (z: seq<Byte>)
    ensures |z| == n
  {
    seq(n, _ => 0)
  }

  lemma NoZeros()
    ensures Zeros(0) == []
  {
  }

  /** The inner loop: up to eight characters folded into the key and erased behind. */
  method Absorb(aptr: array<Byte>, at: nat, kptr: array<Byte>, ghost end: nat) returns (next: nat)
    requires aptr != kptr && kptr.Length == 8 && Terminated(aptr[..], at, end)
    modifies aptr, kptr
    ensures next == at + Chunk(old(aptr[at..end]))
    ensures kptr[..] == Mixed(old(kptr[..]), old(aptr[at..next]))
    ensures aptr[..] == old(aptr[..at]) + Zeros(next - at) + old(aptr[next..])
  {
    next := at;
    ghost var chars, key := aptr[..], kptr[..];
    var i := 0;
    while i < 8 && aptr[next] != 0
      invariant i <= 8 && next == at + i <= end
      invariant aptr[..] == chars[..at] + Zeros(i) + chars[next..]
      invariant kptr[..] == Mixed(key, chars[at..next])
    {
      kptr[i] := kptr[i] ^ (aptr[next] & 0x7f);
      aptr[next] := 0;
      next, i := next + 1, i + 1;
    }
  }

  lemma ErasedTail(before: seq<Byte>, now: seq<Byte>, at: nat, next: nat)
    requires at <= next <= |before| && now == before[..at] + Zeros(next - at) + before[next..]
    ensures |now| == |before| && now[next..] == before[next..]
    ensures forall j | next <= j < |now| :: now[j] == before[j]
  {
    assert forall j | next <= j < |now| :: now[j] == now[next..][j - next];
  }

  /** What is left after some characters have been erased. */
  lemma AbsorbedTail(chars: seq<Byte>, before: seq<Byte>, now: seq<Byte>, at: nat, next: nat, end: nat)
    requires Terminated(before, at, end) && at <= next <= end < |chars| && before == Zeros(at) + chars[at..]
    requires now == before[..at] + Zeros(next - at) + before[next..]
    ensures Terminated(now, next, end) && now[next..end] == before[at..end][next - at..]
    ensures before[at..next] == before[at..end][..next - at] && now == Zeros(next) + chars[next..]
  {
    ErasedTail(before, now, at, next);
    AbsorbedStart(chars, before, at, next);
    assert now == Zeros(next) + chars[next..];
    SliceStart(before, at, next, end);
    SameSlice(before, now, at, next, end);
  }

  lemma SliceStart(s: seq<Byte>, at: nat, next: nat, end: nat)
    requires at <= next <= end <= |s|
    ensures s[at..next] == s[at..end][..next - at]
  {
    var a, b := s[at..next], s[at..end][..next - at];
    assert |a| == |b|;
    forall j | 0 <= j < |a| ensures a[j] == b[j] {
      assert a[j] == s[at + j] && b[j] == s[at + j];
    }
  }

  lemma SameSlice(before: seq<Byte>, now: seq<Byte>, at: nat, next: nat, end: nat)
    requires at <= next <= end <= |before| == |now| && forall j | next <= j < |now| :: now[j] == before[j]
    ensures now[next..end] == before[at..end][next - at..]
  {
    var a, b := now[next..end], before[at..end][next - at..];
    assert |a| == |b|;
    forall j | 0 <= j < |a| ensures a[j] == b[j] {
      assert a[j] == now[next + j] && b[j] == before[next + j];
    }
  }

  lemma AbsorbedStart(chars: seq<Byte>, before: seq<Byte>, at: nat, next: nat)
    requires at <= next <= |chars| && before == Zeros(at) + chars[at..]
    ensures before[..at] + Zeros(next - at) == Zeros(next) && before[next..] == chars[next..]
  {
    assert before[next..] == chars[at..][next - at..];
  }

  lemma EndReached(chars: seq<Byte>, at: nat, end: nat)
    requires Terminated(chars, at, end)
    ensures at <= end < |chars| && (chars[at] == 0 <==> at == end)
  {
  }

  /** One turn of the outer loop. */
  method HashChunk(d: Device, aptr: array<Byte>, at: nat, kptr: array<Byte>, first: bool, ghost chars: seq<Byte>, ghost end: nat)
    returns (next: nat)
    requires d.Valid() && aptr != kptr && kptr.Length == 8 && Terminated(aptr[..], at, end) && end < |chars|
    requires aptr[..] == Zeros(at) + chars[at..] && (aptr[at] != 0 || first)
    modifies aptr, kptr
    ensures at <= next <= end && (next > at || first)
    ensures Terminated(aptr[..], next, end) && aptr[..] == Zeros(next) + chars[next..]
    ensures Hashed(d.s, d.Regs(), kptr[..], aptr[next..end], false) ==
            Hashed(d.s, d.Regs(), old(kptr[..]), old(aptr[at..end]), first)
  {
    hide CryptBytes1;
    hide Mixed;
    hide Hashed;
    hide Terminated;
    hide Zeros;
    ghost var before, k := aptr[..], kptr[..];
    EndReached(before, at, end);
    next := Absorb(aptr, at, kptr, end);
    AbsorbedTail(chars, before, aptr[..], at, next, end);
    HashStep(d.s, d.Regs(), k, before[at..end], first);
    d.Ddes(kptr, kptr);
  }

  /** The outer loop: at least once, then as long as characters remain. */
  method HashLoop(d: Device, aptr: array<Byte>, kptr: array<Byte>, ghost end: nat)
    requires d.Valid() && aptr != kptr && kptr.Length == 8 && Terminated(aptr[..], 0, end)
    modifies aptr, kptr
    ensures kptr[..] == Hashed(d.s, d.Regs(), old(kptr[..]), old(aptr[..end]), true)
    ensures aptr[..] == Zeros(end) + old(aptr[end..])
  {
    hide Hashed;
    hide Terminated;
    hide Zeros;
    var at, first := 0, true;
    ghost var chars, key := aptr[..], kptr[..];
    EndReached(chars, 0, end);
    assert aptr[0..end] == chars[..end];
    NoZeros();
    while aptr[at] != 0 || first
      invariant at <= end < aptr.Length && Terminated(aptr[..], at, end)
      invariant aptr[..] == Zeros(at) + chars[at..]
      invariant Hashed(d.s, d.Regs(), kptr[..], aptr[at..end], first) == Hashed(d.s, d.Regs(), key, chars[..end], true)
      decreases end - at, first
    {
      at := HashChunk(d, aptr, at, kptr, first, chars, end);
      first := false;
    }
    EndReached(aptr[..], at, end);
    HashEnd(d.s, d.Regs(), kptr[..]);
    assert aptr[at..end] == [];
  }

  lemma HashStep(s: Boxes, regs: Registers, k: seq<Byte>, password: seq<Byte>, first: bool)
    requires Loaded(regs) && |k| == 8 && (password != [] || first)
    ensures var n := Chunk(password);
            Hashed(s, regs, k, password, first) ==
            Hashed(s, regs, CryptBytes1(s, regs, Mixed(k, password[..n])), password[n..], false)
  {
    hide CryptBytes1;
    hide Mixed;
  }

  lemma HashEnd(s: Boxes, regs: Registers, k: seq<Byte>)
    requires Loaded(regs) && |k| == 8
    ensures Hashed(s, regs, k, [], false) == k
  {
  }

  /** The default key, into the registers and as the key to start from. */
  method StartFromDefault(d: Device, kptr: array<Byte>)
    requires d.Valid() && kptr.Length == 8
    modifies d.knL, d.knR, d.kn3, kptr
    ensures d.Regs() == DoubleKey(DefaultKey(), EN0) && kptr[..] == DefaultKey()[..8]
  {
    hide DoubleKey;
    var dfKey := new Byte[16](i requires 0 <= i < 16 => DefaultKey()[i]);
    assert dfKey[..16] == DefaultKey();
    d.Des2Key(dfKey, EN0);
    for i := 0 to 8
      modifies kptr
      invariant kptr[..i] == DefaultKey()[..i]
    {
      kptr[i] := dfKey[i];
    }
  }

  lemma SameThirds(a: seq<Wide>, b: seq<Wide>, c: seq<Wide>, x: seq<Wide>, y: seq<Wide>, z: seq<Wide>)
    requires |a| == |b| == |c| == |x| == |y| == |z| && a + b + c == x + y + z
    ensures a == x && b == y && c == z
  {
    var n := |a|;
    assert a == (a + b + c)[..n] && b == (a + b + c)[n..2 * n] && c == (a + b + c)[2 * n..];
    assert x == (x + y + z)[..n] && y == (x + y + z)[n..2 * n] && z == (x + y + z)[2 * n..];
  }

  /** makekey */
  method MakeKey(d: Device, aptr: array<Byte>, kptr: array<Byte>, ghost end: nat)
    requires d.Valid() && aptr != kptr && kptr.Length == 8 && Terminated(aptr[..], 0, end)
    modifies d.knL, d.knR, d.kn3, aptr, kptr
    ensures kptr[..] == PasswordKey(d.s, old(aptr[..end]))
    ensures aptr[..] == Zeros(end) + old(aptr[end..])
    ensures d.knL[..] == old(d.knL[..]) && d.knR[..] == old(d.knR[..]) && d.kn3[..] == old(d.kn3[..])
  {
    hide Hashed;
    hide DoubleKey;
    var savek := new Wide[96];
    d.Cp3Key(savek);
    StartFromDefault(d, kptr);
    HashLoop(d, aptr, kptr, end);
    d.Use3Key(savek);
    SameThirds(d.knL[..], d.knR[..], d.kn3[..], old(d.knL[..]), old(d.knR[..]), old(d.kn3[..]));
  }
}
