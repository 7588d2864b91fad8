/** firefox/vncpwd/vncpwd.c: the password file of a VNC server, written and read under a fixed key. */
module VncPassword {

  import opened Des
  import opened DesKeys
  import opened DesModes
  import opened DesDevice
  import opened DesStandard
  import opened DesSchedules
  import opened DesConforms
  import opened DesTriple

  function ObfKey(): (k: Key) {
    [23, 82, 107, 6, 35, 78, 88, 7]
  }

  method LoadKey(d: Device, mode: Mode)
    requires d.Valid()
    modifies d.knL
    ensures d.Regs().left == Schedule(ObfKey(), mode)
  {
    hide Schedule;
    var obfKey := new Byte[8];
    obfKey[0], obfKey[1], obfKey[2], obfKey[3] := 23, 82, 107, 6;
    obfKey[4], obfKey[5], obfKey[6], obfKey[7] := 35, 78, 88, 7;
    d.DesKey(obfKey, 0, mode);
    assert obfKey[0..8] == ObfKey();
  }

  /** encryptPw: the eight bytes that go into the file. */
  method EncryptPw(d: Device, pw: array<Byte>) returns (bytes: array<Byte>)
    requires d.Valid() && pw.Length == 8
    modifies d.knL
    ensures fresh(bytes) && bytes.Length == 8 && bytes[..] == CryptBytes(d.s, Schedule(ObfKey(), EN0), old(pw[..]))
  {
    LoadKey(d, EN0);
    bytes := new Byte[8];
    d.DesBlock(pw, bytes);
  }

  /** decryptPw: the eight bytes shown. */
  method DecryptPw(d: Device, pw: array<Byte>) returns (clear: array<Byte>)
    requires d.Valid() && pw.Length == 8
    modifies d.knL
    ensures fresh(clear) && clear.Length == 8 && clear[..] == CryptBytes(d.s, Schedule(ObfKey(), DE1), old(pw[..]))
  {
    LoadKey(d, DE1);
    clear := new Byte[8];
    d.DesBlock(pw, clear);
  }

  /** What was written is shown again, and what is shown was written. */
  lemma FileRoundTrip(s: Boxes, pw: seq<Byte>)
    requires |pw| == 8
    ensures CryptBytes(s, Schedule(ObfKey(), DE1), CryptBytes(s, Schedule(ObfKey(), EN0), pw)) == pw
    ensures CryptBytes(s, Schedule(ObfKey(), EN0), CryptBytes(s, Schedule(ObfKey(), DE1), pw)) == pw
  {
    hide CryptBytes;
    hide Schedule;
    SingleRoundTrip(s, ObfKey(), EN0, pw);
    SingleRoundTrip(s, ObfKey(), DE1, pw);
  }

  lemma MirroredObfBytes()
    ensures Mirrored(23) == 0xe8 && Mirrored(82) == 0x4a && Mirrored(107) == 0xd6 && Mirrored(6) == 0x60
    ensures Mirrored(35) == 0xc4 && Mirrored(78) == 0x72 && Mirrored(88) == 0x1a && Mirrored(7) == 0xe0
  {
  }

  /** The file holds the password under DES with the key that VNC implementations publish as e84ad660c4721ae0. */
  lemma FileIsDes(s: Boxes, pw: seq<Byte>) returns (b: Pair, c: Pair)
    requires |pw| == 8
    ensures Shows(b, pw) && Shows(c, CryptBytes(s, Schedule(ObfKey(), EN0), pw))
    ensures IsDes(s, BitsOfBytes([0xe8, 0x4a, 0xd6, 0x60, 0xc4, 0x72, 0x1a, 0xe0]), false, b, c)
  {
    hide CryptBytes;
    hide Schedule;
    hide Shows;
    hide IsDes;
    MirroredObfBytes();
    hide Mirrored;
    b, c := BytesConform(s, ObfKey(), EN0, pw);
    assert MirroredKey(ObfKey()) == [0xe8, 0x4a, 0xd6, 0x60, 0xc4, 0x72, 0x1a, 0xe0];
  }
}
