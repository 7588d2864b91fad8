/** The constructor of AuthenticatorData.php reads back exactly what a serialiser of section 6.1 of WebAuthn writes. */
module AuthDataWire {

  import opened Wrappers
  import opened Octets
  import opened Cbor
  import D = CborDecoder
  import opened CborRoundTrip
  import opened AuthData

  /** _readFlags */
  datatype Flags = Flags(bit0: bool, bit1: bool, bit2: bool, bit3: bool, bit4: bool, bit5: bool, bit6: bool, bit7: bool) {
    predicate UserPresent() { bit0 }
    predicate UserVerified() { bit2 }
    predicate AttestedDataIncluded() { bit6 }
    predicate ExtensionDataIncluded() { bit7 }
  }

  function FlagsOf(b: Byte): Flags {
    var b1 := b / 2;
    var b2 := b1 / 2;
    var b3 := b2 / 2;
    var b4 := b3 / 2;
    var b5 := b4 / 2;
    var b6 := b5 / 2;
    var b7 := b6 / 2;
    Flags(Odd(b), Odd(b1), Odd(b2), Odd(b3), Odd(b4), Odd(b5), Odd(b6), Odd(b7))
  }

  predicate Odd(n: nat) {
    n % 2 == 1
  }

  /** A bit below a number. */
  function Below(bit: bool, rest: nat): nat {
    2 * rest + if bit then 1 else 0
  }

  /** The byte with these bits. */
  function FlagByte(f: Flags): nat {
    Below(f.bit0, Below(f.bit1, Below(f.bit2, Below(f.bit3, Below(f.bit4, Below(f.bit5, Below(f.bit6, Below(f.bit7, 0))))))))
  }

  lemma Halved(n: nat)
    ensures Below(Odd(n), n / 2) == n
  {
  }

  /** Every bit of the byte is kept, each under its own name. */
  lemma FlagsAreTheByte(b: Byte)
    ensures FlagByte(FlagsOf(b)) == b
  {
    hide Below;
    hide Odd;
    var b1 := b / 2;
    var b2 := b1 / 2;
    var b3 := b2 / 2;
    var b4 := b3 / 2;
    var b5 := b4 / 2;
    var b6 := b5 / 2;
    var b7 := b6 / 2;
    Halved(b);
    Halved(b1);
    Halved(b2);
    Halved(b3);
    Halved(b4);
    Halved(b5);
    Halved(b6);
    Halved(b7);
    assert b7 / 2 == 0;
  }

  /** Section 6.1 of WebAuthn: bit 0 user present, bit 2 user verified, bit 6 attested data, bit 7 extension data. */
  lemma FlagsMeaning(b: Byte)
    ensures FlagsOf(b).UserPresent() <==> b % 2 == 1
    ensures FlagsOf(b).UserVerified() <==> b / 4 % 2 == 1
    ensures FlagsOf(b).AttestedDataIncluded() <==> b / 64 % 2 == 1
    ensures FlagsOf(b).ExtensionDataIncluded() <==> b / 128 % 2 == 1
  {
    Eighths(b);
    Eighths(b / 8);
  }

  lemma Eighths(b: nat)
    ensures b / 2 / 2 == b / 4 && b / 2 / 2 / 2 == b / 8 && b / 8 / 2 / 2 / 2 == b / 64
    ensures b / 8 / 2 / 2 / 2 / 2 == b / 128
  {
  }

  datatype Attested = Attested(aaguid: seq<Byte>, credentialId: seq<Byte>, key: PublicKey)
  datatype Data = Data(rpIdHash: seq<Byte>, flags: Flags, signCount: nat, attested: Option<Attested>)
  datatype Ended = Ended(attested: Attested, end: nat)

  // ----- what the constructor computes -----

  /** _readAttestData, with the offset behind the key. */
  function AttestedIn(loosely: Loosely, binary: seq<Byte>): (r: Fallible<Ended>)
    ensures r.Ok? ==> r.value.end <= |binary|
  {
    if |binary| <= 55 then Err(AttestedDataMissing)
    else
      var end := 55 + Number(binary[53..55]);
      var enc := D.ItemAt(binary, end);
      if enc.Failed? then Err(BadCbor(enc.error))
      else
        var key := CoseKey(loosely, enc.value);
        if key.Err? then Err(key.error)
        else Ok(Ended(Attested(binary[37..53], binary[55..end], key.value), enc.next))
  }

  /** _readExtensionData; what it decodes is not kept. */
  function ExtensionFault(binary: seq<Byte>): (r: Option<Error>) {
    var ext := D.Decoded(binary);
    if ext.Failed? then Some(BadCbor(ext.error)) else if !ext.value.Arr? then Some(InvalidExtension) else None
  }

  function Parsed(loosely: Loosely, binary: seq<Byte>): (r: Fallible<Data>) {
    if |binary| < 37 then Err(InvalidInput)
    else
      var flags, signCount := FlagsOf(binary[32]), Number(binary[33..37]);
      var attested := if flags.AttestedDataIncluded() then AttestedIn(loosely, binary) else Err(InvalidInput);
      if flags.AttestedDataIncluded() && attested.Err? then Err(attested.error)
      else
        var offset := if attested.Ok? then attested.value.end else 37;
        var fault := if flags.ExtensionDataIncluded() then ExtensionFault(binary[offset..]) else None;
        if fault.Some? then Err(fault.value)
        else Ok(Data(binary[..32], flags, signCount, if attested.Ok? then Some(attested.value.attested) else None))
  }

  // ----- what a serialiser writes -----

  datatype WireKey = WireKey(aaguid: seq<Byte>, credentialId: seq<Byte>, key: Item)

  datatype Wire = Wire(rpIdHash: seq<Byte>, flags: Byte, signCount: nat, attested: Option<WireKey>,
                       extension: Option<Item>, trailing: seq<Byte>)

  ghost predicate ValidKey(k: WireKey) {
    |k.aaguid| == 16 && |k.credentialId| < 0x1_0000 && Wellformed(k.key)
  }

  /** Bytes may follow only where no extension is announced. */
  ghost predicate Valid(w: Wire) {
    && |w.rpIdHash| == 32 && w.signCount < 0x1_0000_0000
    && (w.attested.Some? <==> w.flags / 64 % 2 == 1)
    && (w.extension.Some? <==> w.flags / 128 % 2 == 1)
    && (w.attested.Some? ==> ValidKey(w.attested.value))
    && (w.extension.Some? ==> Wellformed(w.extension.value) && w.trailing == [])
  }

  function KeyBytes(k: Option<WireKey>): seq<Byte>
    requires k.Some? ==> ValidKey(k.value)
  {
    if k.None? then []
    else k.value.aaguid + BigEndian(|k.value.credentialId|, 2) + k.value.credentialId + Encode(k.value.key)
  }

  function ExtensionBytes(e: Option<Item>): seq<Byte>
    requires e.Some? ==> Wellformed(e.value)
  {
    if e.None? then [] else Encode(e.value)
  }

  function FixedBytes(w: Wire): (b: seq<Byte>)
    requires Valid(w)
    ensures |b| == 37
  {
    w.rpIdHash + [w.flags] + BigEndian(w.signCount, 4)
  }

  function Serialised(w: Wire): seq<Byte>
    requires Valid(w)
  {
    FixedBytes(w) + KeyBytes(w.attested) + ExtensionBytes(w.extension) + w.trailing
  }

  /** What reading should give: the fields, or the complaint about the key or the extension. */
  function Meaning(loosely: Loosely, w: Wire): Fallible<Data>
    requires Valid(w)
  {
    if w.attested.Some? && CoseKey(loosely, Denote(w.attested.value.key)).Err? then
      Err(CoseKey(loosely, Denote(w.attested.value.key)).error)
    else if w.extension.Some? && !Denote(w.extension.value).Arr? then Err(InvalidExtension)
    else Ok(Data(w.rpIdHash, FlagsOf(w.flags), w.signCount, AttestedOf(loosely, w.attested)))
  }

  function AttestedOf(loosely: Loosely, k: Option<WireKey>): Option<Attested>
    requires k.Some? ==> CoseKey(loosely, Denote(k.value.key)).Ok?
  {
    if k.None? then None
    else Some(Attested(k.value.aaguid, k.value.credentialId, CoseKey(loosely, Denote(k.value.key)).value))
  }

  // ----- reading inverts writing -----

  lemma KeyPlaces(w: Wire, b: seq<Byte>, k: WireKey)
    requires Valid(w) && b == Serialised(w) && w.attested == Some(k)
    ensures var end := 55 + |k.credentialId|;
            && |b| > 55 && b[37..53] == k.aaguid && Number(b[53..55]) == |k.credentialId|
            && end <= |b| && b[55..end] == k.credentialId && At(b, end, Encode(k.key))
            && end + |Encode(k.key)| == 37 + |KeyBytes(w.attested)|
  {
    hide Encode;
    hide FlagsOf;
    hide Number;
    var len := BigEndian(|k.credentialId|, 2);
    var rest := Encode(k.key) + (ExtensionBytes(w.extension) + w.trailing);
    var end := 55 + |k.credentialId|;
    assert b == FixedBytes(w) + k.aaguid + len + k.credentialId + rest;
    hide Serialised;
    hide FixedBytes;
    assert b[53..55] == len;
    assert b[end..] == rest;
    assert b[end..end + |Encode(k.key)|] == rest[..|Encode(k.key)|];
    SmallPowers();
    NumberBigEndian(|k.credentialId|, 2);
  }

  lemma FixedPlaces(w: Wire, b: seq<Byte>)
    requires Valid(w) && b == Serialised(w)
    ensures |b| >= 37 && b[..32] == w.rpIdHash && b[32] == w.flags && Number(b[33..37]) == w.signCount
    ensures w.extension.Some? ==> 37 + |KeyBytes(w.attested)| <= |b| && b[37 + |KeyBytes(w.attested)|..] == Encode(w.extension.value)
  {
    hide Encode;
    hide FlagsOf;
    assert b[..37] == FixedBytes(w);
    assert b[..32] == b[..37][..32] && b[33..37] == b[..37][33..];
    SmallPowers();
    NumberBigEndian(w.signCount, 4);
  }

  lemma KeyReads(loosely: Loosely, w: Wire, b: seq<Byte>, k: WireKey)
    requires Valid(w) && b == Serialised(w) && w.attested == Some(k)
    ensures var key := CoseKey(loosely, Denote(k.key));
            AttestedIn(loosely, b) ==
            if key.Err? then Err(key.error)
            else Ok(Ended(Attested(k.aaguid, k.credentialId, key.value), 37 + |KeyBytes(w.attested)|))
  {
    hide Encode;
    hide CoseKey;
    hide Denote;
    hide Serialised;
    hide FlagsOf;
    KeyPlaces(w, b, k);
    Complete(k.key, b, 55 + |k.credentialId|);
  }

  lemma ExtensionReads(item: Item)
    requires Wellformed(item)
    ensures ExtensionFault(Encode(item)) == if Denote(item).Arr? then None else Some(InvalidExtension)
  {
    hide Encode;
    hide Denote;
    var b := Encode(item);
    assert b[0..|b|] == b;
    Complete(item, b, 0);
  }

  /** Every field comes back, whatever encodings, tags and extra entries the key and the extension use. */
  lemma ReadingInvertsWriting(loosely: Loosely, w: Wire)
    requires Valid(w)
    ensures Parsed(loosely, Serialised(w)) == Meaning(loosely, w)
  {
    hide Serialised;
    hide AttestedIn;
    hide ExtensionFault;
    hide Encode;
    hide Denote;
    hide CoseKey;
    hide KeyBytes;
    hide FlagsOf;
    var b := Serialised(w);
    FixedPlaces(w, b);
    FlagsMeaning(w.flags);
    if w.attested.Some? {
      KeyReads(loosely, w, b, w.attested.value);
    } else {
      NoKeyBytes(w);
    }
    if w.extension.Some? {
      ExtensionReads(w.extension.value);
    }
  }

  lemma NoKeyBytes(w: Wire)
    requires w.attested.None?
    ensures KeyBytes(w.attested) == []
  {
  }

  // ----- and nothing else is read -----

  lemma KeyFound(loosely: Loosely, binary: seq<Byte>) returns (k: WireKey)
    requires |binary| >= 37 && AttestedIn(loosely, binary).Ok?
    ensures ValidKey(k) && binary[37..AttestedIn(loosely, binary).value.end] == KeyBytes(Some(k))
  {
    hide CoseKey;
    hide Encode;
    hide Denote;
    var at := 55 + Number(binary[53..55]);
    var item := Sound(binary, at);
    var end := D.ItemAt(binary, at).next;
    k := WireKey(binary[37..53], binary[55..at], item);
    SmallPowers();
    BigEndianNumber(binary[53..55]);
    KeySlices(binary, at, end);
  }

  lemma KeySlices(b: seq<Byte>, at: nat, end: nat)
    requires 55 <= at <= end <= |b|
    ensures b[37..end] == b[37..53] + b[53..55] + b[55..at] + b[at..end]
  {
  }

  lemma FixedFound(b: seq<Byte>)
    requires |b| >= 37
    ensures b[..37] == b[..32] + [b[32]] + BigEndian(Number(b[33..37]), 4) && Number(b[33..37]) < 0x1_0000_0000
  {
    SmallPowers();
    BigEndianNumber(b[33..37]);
    assert b[..37] == b[..32] + [b[32]] + b[33..37];
  }

  /** Whatever the constructor accepts is the serialisation of what it stored. */
  lemma OnlyWrittenIsRead(loosely: Loosely, binary: seq<Byte>) returns (w: Wire)
    requires Parsed(loosely, binary).Ok?
    ensures Valid(w) && Serialised(w) == binary
  {
    hide AttestedIn;
    hide Encode;
    hide Denote;
    hide FlagsOf;
    hide Number;
    hide BigEndian;
    var flags := FlagsOf(binary[32]);
    FlagsMeaning(binary[32]);
    var attested, offset := None, 37;
    if flags.AttestedDataIncluded() {
      var k := KeyFound(loosely, binary);
      attested, offset := Some(k), AttestedIn(loosely, binary).value.end;
    }
    KeyEnds(loosely, binary);
    var extension, trailing := None, binary[offset..];
    if flags.ExtensionDataIncluded() {
      var ext := binary[offset..];
      var item := Sound(ext, 0);
      assert ext[0..|ext|] == ext;
      extension, trailing := Some(item), [];
    }
    w := Wire(binary[..32], binary[32], Number(binary[33..37]), attested, extension, trailing);
    FixedFound(binary);
    assert binary == binary[..37] + binary[37..offset] + binary[offset..];
  }

  lemma KeyEnds(loosely: Loosely, binary: seq<Byte>)
    ensures AttestedIn(loosely, binary).Ok? ==> 55 <= AttestedIn(loosely, binary).value.end
  {
  }

  /** The two complaints about the length, and when they are made. */
  lemma TooShortExactly(loosely: Loosely, binary: seq<Byte>)
    ensures Parsed(loosely, binary) == Err(InvalidInput) <==> |binary| < 37
    ensures Parsed(loosely, binary) == Err(AttestedDataMissing) <==> 37 <= |binary| <= 55 && binary[32] / 64 % 2 == 1
  {
    hide CoseKey;
    hide FlagsOf;
    hide D.ItemAt;
    hide D.Decoded;
    if |binary| >= 37 { FlagsMeaning(binary[32]); }
    if |binary| > 55 {
      var enc := D.ItemAt(binary, 55 + Number(binary[53..55]));
      if enc.Ok? { KeyFaults(loosely, enc.value); }
    }
  }

  /** A key that is refused is refused for a reason of its own. */
  lemma KeyFaults(loosely: Loosely, enc: Value)
    ensures CoseKey(loosely, enc).Err? ==> CoseKey(loosely, enc).error != InvalidInput && CoseKey(loosely, enc).error != AttestedDataMissing
  {
    hide Selects;
    FieldFaults(enc, 1);
    FieldFaults(enc, 3);
    FieldFaults(enc, -1);
    FieldFaults(enc, -2);
    FieldFaults(enc, -3);
    hide Field;
    hide Bytes;
  }

  lemma FieldFaults(enc: Value, i: int)
    ensures Field(enc, i).Err? ==> Field(enc, i).error == ObjectAsArray
  {
  }

  // ----- the object -----

  class AuthenticatorData {
    var binary: seq<Byte>
    var rpIdHash: seq<Byte>
    var flags: Flags
    var signCount: nat
    var attestedCredentialData: Option<Attested>

    /** The constructor; the exception it throws, if any, comes back. */
    method Construct(loosely: Loosely, binary: seq<Byte>) returns (fault: Option<Error>)
      modifies this
      ensures var r := Parsed(loosely, binary);
              if r.Err? then fault == Some(r.error)
              else fault == None && this.binary == binary && Data(rpIdHash, flags, signCount, attestedCredentialData) == r.value
    {
      if |binary| < 37 {
        return Some(InvalidInput);
      }
      this.binary := binary;
      rpIdHash := binary[..32];
      flags := FlagsOf(binary[32]);
      signCount := Number(binary[33..37]);
      attestedCredentialData := None;
      var offset := 37;
      if flags.AttestedDataIncluded() {
        var r := ReadAttestData(loosely, binary);
        if r.Err? {
          return Some(r.error);
        }
        attestedCredentialData, offset := Some(r.value.attested), r.value.end;
      }
      if flags.ExtensionDataIncluded() {
        var ext := D.Decode(binary[offset..]);
        if ext.Failed? {
          return Some(BadCbor(ext.error));
        }
        if !ext.value.Arr? {
          return Some(InvalidExtension);
        }
      }
      fault := None;
    }
  }

  /** _readAttestData */
  method ReadAttestData(loosely: Loosely, binary: seq<Byte>) returns (r: Fallible<Ended>)
    ensures r == AttestedIn(loosely, binary)
  {
    if |binary| <= 55 {
      return Err(AttestedDataMissing);
    }
    var length := Number(binary[53..55]);
    var credentialId := if 55 + length <= |binary| then binary[55..55 + length] else binary[55..];
    var enc := D.DecodeInPlace(binary, 55 + length);
    if enc.Failed? {
      return Err(BadCbor(enc.error));
    }
    var key := CoseKey(loosely, enc.value);
    if key.Err? {
      return Err(key.error);
    }
    r := Ok(Ended(Attested(binary[37..53], credentialId, key.value), enc.next));
  }
}
