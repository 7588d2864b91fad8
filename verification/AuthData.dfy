/** webauthn/src/WebAuthn/Attestation/AuthenticatorData.php: reading authenticator data, section 6.1 of WebAuthn Level 2. */
module AuthData {

  import opened Wrappers
  import opened Octets
  import Der
  import opened Cbor
  import D = CborDecoder
  import CborRoundTrip
  import CborValues

  datatype Error =
    | InvalidInput | AttestedDataMissing | BadCbor(cbor: D.Error) | ObjectAsArray
    | NotEc2 | NotEs256 | NotP256 | BadX | BadY | NotRsa | NotRs256 | BadModulus | BadExponent
    | InvalidExtension

  type Fallible<T> = Result<T, Error>
  // ----- COSE keys -----

  /** A key whose algorithm is neither of the two keeps its type and algorithm as they came. */
  datatype PublicKey =
    | Es256(x: seq<Byte>, y: seq<Byte>)
    | Rs256(n: seq<Byte>, e: seq<Byte>)
    | Other(kty: Value, alg: Value)

  /** $enc[$i]: null where there is nothing to find; a ByteBuffer object is no array. */
  function Field(enc: Value, i: int): Fallible<Value> {
    match enc
    case Arr(entries) =>
      var p := Position(entries, IntKey(i));
      Ok(if p < |entries| then entries[p].value else Null)
    case Str(s) =>
      var at := if i < 0 then |s| + i else i;
      Ok(Str(if 0 <= at < |s| then [s[at]] else []))
    case Binary(_) => Err(ObjectAsArray)
    case _ => Ok(Null)
  }

  /** PHP's == between a value and an integer constant, for the values where it is not plain. */
  type Loosely = (Value, int) -> bool

  /** Which case of the switch an algorithm selects. */
  predicate Selects(loosely: Loosely, alg: Value, code: int) {
    match alg
    case Int(i) => i == code
    case Null => false
    case Arr(_) => false
    case _ => loosely(alg, code)
  }

  /** The bytes of a ByteBuffer; anything else counts as empty when its length is taken. */
  function Bytes(v: Value): seq<Byte> {
    if v.Binary? then v.bytes else []
  }

  /** _readCredentialPublicKey on the decoded value */
  function CoseKey(loosely: Loosely, enc: Value): (r: Fallible<PublicKey>) {
    var kty, alg := Field(enc, 1), Field(enc, 3);
    if kty.Err? then Err(kty.error)
    else if alg.Err? then Err(alg.error)
    else if Selects(loosely, alg.value, -7) then Es256Of(kty.value, alg.value, Field(enc, -1), Field(enc, -2), Field(enc, -3))
    else if Selects(loosely, alg.value, -257) then Rs256Of(kty.value, alg.value, Field(enc, -1), Field(enc, -2))
    else Ok(Other(kty.value, alg.value))
  }

  function Es256Of(kty: Value, alg: Value, crv: Fallible<Value>, x: Fallible<Value>, y: Fallible<Value>): Fallible<PublicKey> {
    if crv.Err? then Err(crv.error)
    else if x.Err? then Err(x.error)
    else if y.Err? then Err(y.error)
    else if kty != Int(2) then Err(NotEc2)
    else if alg != Int(-7) then Err(NotEs256)
    else if crv.value != Int(1) then Err(NotP256)
    else if |Bytes(x.value)| != 32 then Err(BadX)
    else if |Bytes(y.value)| != 32 then Err(BadY)
    else Ok(Es256(Bytes(x.value), Bytes(y.value)))
  }

  function Rs256Of(kty: Value, alg: Value, n: Fallible<Value>, e: Fallible<Value>): Fallible<PublicKey> {
    if n.Err? then Err(n.error)
    else if e.Err? then Err(e.error)
    else if kty != Int(3) then Err(NotRsa)
    else if alg != Int(-257) then Err(NotRs256)
    else if |Bytes(n.value)| != 256 then Err(BadModulus)
    else if |Bytes(e.value)| != 3 then Err(BadExponent)
    else Ok(Rs256(Bytes(n.value), Bytes(e.value)))
  }

  /** The entry a COSE map must hold. */
  ghost predicate Holds(enc: Value, i: int, v: Value) {
    enc.Arr? && exists p :: 0 <= p < |enc.entries| && enc.entries[p] == Entry(IntKey(i), v)
  }

  ghost predicate IsEs256(enc: Value, x: seq<Byte>, y: seq<Byte>) {
    && |x| == |y| == 32 && Holds(enc, 1, Int(2)) && Holds(enc, 3, Int(-7)) && Holds(enc, -1, Int(1))
    && Holds(enc, -2, Binary(x)) && Holds(enc, -3, Binary(y))
  }

  ghost predicate IsRs256(enc: Value, n: seq<Byte>, e: seq<Byte>) {
    && |n| == 256 && |e| == 3 && Holds(enc, 1, Int(3)) && Holds(enc, 3, Int(-257))
    && Holds(enc, -1, Binary(n)) && Holds(enc, -2, Binary(e))
  }

  /** Among distinct keys, holding an entry is finding it. */
  lemma HeldIsFound(enc: Value, i: int, v: Value)
    requires enc.Arr? && CborValues.DistinctKeys(enc.entries) && v != Null
    ensures Holds(enc, i, v) <==> Field(enc, i) == Ok(v)
  {
    var p := Position(enc.entries, IntKey(i));
    if p < |enc.entries| {
      assert enc.entries[p] == Entry(IntKey(i), enc.entries[p].value);
      forall q | 0 <= q < |enc.entries| && enc.entries[q] == Entry(IntKey(i), v) ensures q == p {
        assert enc.entries[q].key == enc.entries[p].key;
      }
    }
  }

  lemma Es256InArray(loosely: Loosely, enc: Value, x: seq<Byte>, y: seq<Byte>)
    requires enc.Arr? && CborValues.DistinctKeys(enc.entries)
    ensures CoseKey(loosely, enc) == Ok(Es256(x, y)) <==> IsEs256(enc, x, y)
  {
    hide Field;
    hide Holds;
    HeldIsFound(enc, 1, Int(2));
    HeldIsFound(enc, 3, Int(-7));
    HeldIsFound(enc, -1, Int(1));
    HeldIsFound(enc, -2, Binary(x));
    HeldIsFound(enc, -3, Binary(y));
  }

  lemma Rs256InArray(loosely: Loosely, enc: Value, n: seq<Byte>, e: seq<Byte>)
    requires enc.Arr? && CborValues.DistinctKeys(enc.entries)
    ensures CoseKey(loosely, enc) == Ok(Rs256(n, e)) <==> IsRs256(enc, n, e)
  {
    hide Field;
    hide Holds;
    HeldIsFound(enc, 1, Int(3));
    HeldIsFound(enc, 3, Int(-257));
    HeldIsFound(enc, -1, Binary(n));
    HeldIsFound(enc, -2, Binary(e));
  }

  /** An ES256 key comes out exactly when the decoded map holds one, whatever else it holds. */
  lemma Es256Exactly(loosely: Loosely, item: Item, x: seq<Byte>, y: seq<Byte>)
    requires Wellformed(item)
    ensures CoseKey(loosely, Denote(item)) == Ok(Es256(x, y)) <==> IsEs256(Denote(item), x, y)
  {
    if Denote(item).Arr? {
      CborValues.DecodedKeysDistinct(item);
      Es256InArray(loosely, Denote(item), x, y);
    } else {
      NoKeyOutsideArrays(loosely, Denote(item));
    }
  }

  lemma Rs256Exactly(loosely: Loosely, item: Item, n: seq<Byte>, e: seq<Byte>)
    requires Wellformed(item)
    ensures CoseKey(loosely, Denote(item)) == Ok(Rs256(n, e)) <==> IsRs256(Denote(item), n, e)
  {
    if Denote(item).Arr? {
      CborValues.DecodedKeysDistinct(item);
      Rs256InArray(loosely, Denote(item), n, e);
    } else {
      NoKeyOutsideArrays(loosely, Denote(item));
    }
  }

  lemma NoKeyOutsideArrays(loosely: Loosely, enc: Value)
    requires !enc.Arr?
    ensures CoseKey(loosely, enc).Err? || CoseKey(loosely, enc).value.Other?
  {
  }

  function CoseEs256(x: seq<Byte>, y: seq<Byte>): Value {
    Arr([Entry(IntKey(1), Int(2)), Entry(IntKey(3), Int(-7)), Entry(IntKey(-1), Int(1)),
         Entry(IntKey(-2), Binary(x)), Entry(IntKey(-3), Binary(y))])
  }

  function CoseRs256(n: seq<Byte>, e: seq<Byte>): Value {
    Arr([Entry(IntKey(1), Int(3)), Entry(IntKey(3), Int(-257)), Entry(IntKey(-1), Binary(n)), Entry(IntKey(-2), Binary(e))])
  }

  lemma CoseEs256Fits(x: seq<Byte>, y: seq<Byte>)
    requires |x| == |y| == 32
    ensures CborValues.Held(CoseEs256(x, y)) && IsEs256(CoseEs256(x, y), x, y)
  {
    var es := CoseEs256(x, y).entries;
    assert es[0] == Entry(IntKey(1), Int(2)) && es[1] == Entry(IntKey(3), Int(-7)) && es[2] == Entry(IntKey(-1), Int(1));
    assert es[3] == Entry(IntKey(-2), Binary(x)) && es[4] == Entry(IntKey(-3), Binary(y));
  }

  lemma CoseRs256Fits(n: seq<Byte>, e: seq<Byte>)
    requires |n| == 256 && |e| == 3
    ensures CborValues.Held(CoseRs256(n, e)) && IsRs256(CoseRs256(n, e), n, e)
  {
    var es := CoseRs256(n, e).entries;
    assert es[0] == Entry(IntKey(1), Int(3)) && es[1] == Entry(IntKey(3), Int(-257));
    assert es[2] == Entry(IntKey(-1), Binary(n)) && es[3] == Entry(IntKey(-2), Binary(e));
  }

  /** Every ES256 key and every RS256 key has an encoding that is read back as that key. */
  lemma EveryKeyIsWritten(loosely: Loosely, k: PublicKey) returns (item: Item)
    requires Sized(k)
    ensures Wellformed(item) && CoseKey(loosely, Denote(item)) == Ok(k)
  {
    hide CborValues.ItemOf;
    hide CborValues.Held;
    hide CoseEs256;
    hide CoseRs256;
    hide CoseKey;
    hide Denote;
    hide Wellformed;
    if k.Es256? {
      CoseEs256Fits(k.x, k.y);
      item := CborValues.ItemOf(CoseEs256(k.x, k.y));
      Es256Exactly(loosely, item, k.x, k.y);
    } else {
      CoseRs256Fits(k.n, k.e);
      item := CborValues.ItemOf(CoseRs256(k.n, k.e));
      Rs256Exactly(loosely, item, k.n, k.e);
    }
  }

  // ----- the key as DER -----

  ghost predicate Sized(k: PublicKey) {
    match k
    case Es256(x, y) => |x| == |y| == 32
    case Rs256(n, e) => |n| == 256 && |e| == 3
    case Other(_, _) => false
  }

  function DerOf(k: PublicKey): seq<Byte>
    requires Sized(k)
  {
    if k.Es256? then Der.Ec2(k.x, k.y) else Der.Rsa(k.n, k.e)
  }

  /** The keys accepted have the sizes the DER writer needs. */
  lemma AcceptedKeysAreSized(loosely: Loosely, enc: Value)
    ensures CoseKey(loosely, enc).Ok? ==> CoseKey(loosely, enc).value.Other? || Sized(CoseKey(loosely, enc).value)
  {
    hide Field;
  }

  /** Different keys have different encodings. */
  lemma DerInjective(a: PublicKey, b: PublicKey)
    requires Sized(a) && Sized(b) && DerOf(a) == DerOf(b)
    ensures a == b
  {
    hide Der.Ec2;
    hide Der.Rsa;
    if a.Es256? && b.Es256? {
      Der.Ec2Injective(a.x, a.y, b.x, b.y);
    } else if a.Rs256? && b.Rs256? {
      Der.RsaInjective(a.n, a.e, b.n, b.e);
    } else if a.Es256? {
      Der.Ec2IsNotRsa(a.x, a.y, b.n, b.e);
    } else {
      Der.Ec2IsNotRsa(b.x, b.y, a.n, a.e);
    }
  }

  /** The DER form tells any two accepted keys apart. */
  lemma AcceptedKeysDiffer(loosely: Loosely, a: Value, b: Value)
    requires CoseKey(loosely, a).Ok? && CoseKey(loosely, b).Ok?
    requires !CoseKey(loosely, a).value.Other? && !CoseKey(loosely, b).value.Other?
    ensures Sized(CoseKey(loosely, a).value) && Sized(CoseKey(loosely, b).value)
    ensures DerOf(CoseKey(loosely, a).value) == DerOf(CoseKey(loosely, b).value) <==>
            CoseKey(loosely, a) == CoseKey(loosely, b)
  {
    hide CoseKey;
    hide DerOf;
    AcceptedKeysAreSized(loosely, a);
    AcceptedKeysAreSized(loosely, b);
    if DerOf(CoseKey(loosely, a).value) == DerOf(CoseKey(loosely, b).value) {
      DerInjective(CoseKey(loosely, a).value, CoseKey(loosely, b).value);
    }
  }
}
