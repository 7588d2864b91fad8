/** webauthn/src/WebAuthn/CBOR/CborDecoder.php over the bounds-checked readers of ByteBuffer.php. */
module CborDecoder {

  import opened Octets
  import opened Cbor

  datatype Error =
    | InvalidOffset | OutOfRange | ReservedValue | IndefiniteLength | UnsupportedSimple | BadKey | UnusedBytes

  /** What a parse gives back, with the advanced offset, or the exception it throws. */
  datatype Result<T> = Ok(value: T, next: nat) | Failed(error: Error)

  // ----- what the decoder computes -----

  function Unsigned(buf: seq<Byte>, offset: int, size: nat): (r: Result<nat>)
    ensures r.Ok? ==> 0 <= offset && r.next == offset + size <= |buf|
  {
    if offset < 0 || offset + size > |buf| then Failed(InvalidOffset)
    else
      var n := Number(buf[offset..offset + size]);
      if size == 8 && n >= INT_LIMIT then Failed(OutOfRange) else Ok(n, offset + size)
  }

  function Raw(buf: seq<Byte>, offset: int, length: nat): (r: Result<seq<Byte>>)
    ensures r.Ok? ==> 0 <= offset && r.next == offset + length <= |buf| && r.value == buf[offset..r.next]
  {
    if offset < 0 || offset + length > |buf| then Failed(InvalidOffset)
    else Ok(buf[offset..offset + length], offset + length)
  }

  function Argument(info: nat, buf: seq<Byte>, offset: nat): (r: Result<nat>)
    requires info < 32 && offset <= |buf|
    ensures r.Ok? ==> offset <= r.next <= |buf|
  {
    if info < 24 then Ok(info, offset)
    else if info == 24 then Unsigned(buf, offset, 1)
    else if info == 25 then Unsigned(buf, offset, 2)
    else if info == 26 then Unsigned(buf, offset, 4)
    else if info == 27 then Unsigned(buf, offset, 8)
    else if info == 31 then Failed(IndefiniteLength)
    else Failed(ReservedValue)
  }

  function SimpleValue(code: nat, next: nat): (r: Result<Value>) {
    if code == 20 then Ok(Bool(false), next)
    else if code == 21 then Ok(Bool(true), next)
    else if code == 22 then Ok(Null, next)
    else Failed(UnsupportedSimple)
  }

  function FloatSimple(info: nat, buf: seq<Byte>, offset: nat): (r: Result<Value>)
    requires info < 32 && offset <= |buf|
    ensures r.Ok? ==> offset <= r.next <= |buf|
  {
    if info == 24 then
      var code := Unsigned(buf, offset, 1);
      if code.Failed? then Failed(code.error) else SimpleValue(code.value, code.next)
    else if 25 <= info <= 27 then
      var raw := Raw(buf, offset, if info == 25 then 2 else if info == 26 then 4 else 8);
      if raw.Failed? then Failed(raw.error) else Ok(Float(raw.value), raw.next)
    else if info == 31 then Failed(IndefiniteLength)
    else if info >= 28 then Failed(ReservedValue)
    else SimpleValue(info, offset)
  }

  function ItemAt(buf: seq<Byte>, offset: int): (r: Result<Value>)
    ensures r.Ok? ==> 0 <= offset < r.next <= |buf|
    decreases |buf| - offset, 0
  {
    if offset < 0 || offset >= |buf| then Failed(InvalidOffset)
    else
      var major, info := buf[offset] / 32, buf[offset] % 32;
      if major == 7 then FloatSimple(info, buf, offset + 1)
      else
        var n := Argument(info, buf, offset + 1);
        if n.Failed? then Failed(n.error) else ItemData(major, n.value, buf, n.next)
  }

  function ItemData(major: nat, n: nat, buf: seq<Byte>, offset: nat): (r: Result<Value>)
    requires major < 7 && offset <= |buf|
    ensures r.Ok? ==> offset <= r.next <= |buf|
    decreases |buf| - offset, 2
  {
    match major
    case 0 => Ok(Int(n), offset)
    case 1 => Ok(Int(-1 - n), offset)
    case 2 =>
      var raw := Raw(buf, offset, n);
      if raw.Failed? then Failed(raw.error) else Ok(Binary(raw.value), raw.next)
    case 3 =>
      var raw := Raw(buf, offset, n);
      if raw.Failed? then Failed(raw.error) else Ok(Str(raw.value), raw.next)
    case 4 => Listed(ItemsFrom(buf, offset, n, []))
    case 5 => Listed(PairsFrom(buf, offset, n, []))
    case _ => ItemAt(buf, offset)
  }

  function Listed(r: Result<seq<Entry>>): Result<Value> {
    if r.Failed? then Failed(r.error) else Ok(Arr(r.value), r.next)
  }

  function ItemsFrom(buf: seq<Byte>, offset: nat, count: nat, sofar: seq<Entry>): (r: Result<seq<Entry>>)
    requires offset <= |buf|
    ensures r.Ok? ==> offset + count <= r.next <= |buf|
    decreases |buf| - offset, 1
  {
    if count == 0 then Ok(sofar, offset)
    else
      var v := ItemAt(buf, offset);
      if v.Failed? then Failed(v.error)
      else ItemsFrom(buf, v.next, count - 1, sofar + [Entry(IntKey(|sofar|), v.value)])
  }

  function PairsFrom(buf: seq<Byte>, offset: nat, count: nat, sofar: seq<Entry>): (r: Result<seq<Entry>>)
    requires offset <= |buf|
    ensures r.Ok? ==> offset + count <= r.next <= |buf|
    decreases |buf| - offset, 1
  {
    if count == 0 then Ok(sofar, offset)
    else
      var k := ItemAt(buf, offset);
      if k.Failed? then Failed(k.error)
      else
        var v := ItemAt(buf, k.next);
        if v.Failed? then Failed(v.error)
        else if !CanBeKey(k.value) then Failed(BadKey)
        else PairsFrom(buf, v.next, count - 1, Put(sofar, KeyOf(k.value), v.value))
  }

  function Decoded(buf: seq<Byte>): (r: Result<Value>) {
    var v := ItemAt(buf, 0);
    if v.Ok? && v.next != |buf| then Failed(UnusedBytes) else v
  }

  // ----- the decoder -----

  /** decode */
  method Decode(buf: seq<Byte>) returns (r: Result<Value>)
    ensures r == Decoded(buf)
  {
    r := ParseItem(buf, 0);
    if r.Ok? && r.next != |buf| {
      r := Failed(UnusedBytes);
    }
  }

  /** decodeInPlace: the end offset comes back with the value. */
  method DecodeInPlace(buf: seq<Byte>, startOffset: int) returns (r: Result<Value>)
    ensures r == ItemAt(buf, startOffset)
  {
    r := ParseItem(buf, startOffset);
  }

  method GetUint(buf: seq<Byte>, offset: int, size: nat) returns (r: Result<nat>)
    requires size == 1 || size == 2 || size == 4 || size == 8
    ensures r == Unsigned(buf, offset, size)
  {
    if offset < 0 || offset + size > |buf| {
      return Failed(InvalidOffset);
    }
    var n: nat := 0;
    for i := 0 to size
      invariant n == Number(buf[offset..offset + i])
    {
      assert buf[offset..offset + i + 1][..i] == buf[offset..offset + i];
      n := n * 256 + buf[offset + i];
    }
    if size == 8 && n >= INT_LIMIT {
      return Failed(OutOfRange);
    }
    r := Ok(n, offset + size);
  }

  method ParseExtraLength(info: nat, buf: seq<Byte>, offset: nat) returns (r: Result<nat>)
    requires info < 32 && offset <= |buf|
    ensures r == Argument(info, buf, offset)
  {
    if info == 24 {
      r := GetUint(buf, offset, 1);
    } else if info == 25 {
      r := GetUint(buf, offset, 2);
    } else if info == 26 {
      r := GetUint(buf, offset, 4);
    } else if info == 27 {
      r := GetUint(buf, offset, 8);
    } else if info == 28 || info == 29 || info == 30 {
      r := Failed(ReservedValue);
    } else if info == 31 {
      r := Failed(IndefiniteLength);
    } else {
      r := Ok(info, offset);
    }
  }

  method ParseItem(buf: seq<Byte>, offset: int) returns (r: Result<Value>)
    ensures r == ItemAt(buf, offset)
    decreases |buf| - offset, 0
  {
    if offset < 0 || offset >= |buf| {
      return Failed(InvalidOffset);
    }
    var major, info := buf[offset] / 32, buf[offset] % 32;
    if major == 7 {
      return FloatSimple(info, buf, offset + 1);
    }
    var n := ParseExtraLength(info, buf, offset + 1);
    if n.Failed? {
      return Failed(n.error);
    }
    r := ParseItemData(major, n.value, buf, n.next);
  }

  method ParseItemData(major: nat, n: nat, buf: seq<Byte>, offset: nat) returns (r: Result<Value>)
    requires major < 7 && offset <= |buf|
    ensures r == ItemData(major, n, buf, offset)
    decreases |buf| - offset, 2
  {
    match major
    case 0 => r := Ok(Int(n), offset);
    case 1 => r := Ok(Int(-1 - n), offset);
    case 2 =>
      var raw := Raw(buf, offset, n);
      r := if raw.Failed? then Failed(raw.error) else Ok(Binary(raw.value), raw.next);
    case 3 =>
      var raw := Raw(buf, offset, n);
      r := if raw.Failed? then Failed(raw.error) else Ok(Str(raw.value), raw.next);
    case 4 => r := ParseArray(buf, offset, n);
    case 5 => r := ParseMap(buf, offset, n);
    case _ => r := ParseItem(buf, offset);
  }

  method ParseMap(buf: seq<Byte>, offset: nat, count: nat) returns (r: Result<Value>)
    requires offset <= |buf|
    ensures r == Listed(PairsFrom(buf, offset, count, []))
    decreases |buf| - offset, 1
  {
    hide Put;
    hide KeyOf;
    var map_: seq<Entry>, at := [], offset;
    for i := 0 to count
      invariant offset <= at <= |buf|
      invariant PairsFrom(buf, at, count - i, map_) == PairsFrom(buf, offset, count, [])
    {
      var key := ParseItem(buf, at);
      if key.Failed? {
        return Failed(key.error);
      }
      var val := ParseItem(buf, key.next);
      if val.Failed? {
        return Failed(val.error);
      }
      if !CanBeKey(key.value) {
        return Failed(BadKey);
      }
      map_, at := Put(map_, KeyOf(key.value), val.value), val.next;
    }
    r := Ok(Arr(map_), at);
  }

  method ParseArray(buf: seq<Byte>, offset: nat, count: nat) returns (r: Result<Value>)
    requires offset <= |buf|
    ensures r == Listed(ItemsFrom(buf, offset, count, []))
    decreases |buf| - offset, 1
  {
    var arr: seq<Entry>, at := [], offset;
    for i := 0 to count
      invariant offset <= at <= |buf|
      invariant ItemsFrom(buf, at, count - i, arr) == ItemsFrom(buf, offset, count, [])
    {
      var v := ParseItem(buf, at);
      if v.Failed? {
        return Failed(v.error);
      }
      arr, at := arr + [Entry(IntKey(|arr|), v.value)], v.next;
    }
    r := Ok(Arr(arr), at);
  }
}
