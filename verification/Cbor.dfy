/** The wire grammar of RFC 8949 and the PHP values that webauthn/src/WebAuthn/CBOR/CborDecoder.php makes of it. */
module Cbor {

  import opened Octets

  const INT_LIMIT: nat := 0x8000_0000_0000_0000

  // ----- what PHP holds -----

  datatype Key = IntKey(i: int) | StrKey(s: seq<Byte>)

  datatype Entry = Entry(key: Key, value: Value)

  /** Arrays and maps are both PHP arrays: entries in insertion order. A float keeps its encoded bytes. */
  datatype Value =
    | Int(i: int)
    | Binary(bytes: seq<Byte>)
    | Str(s: seq<Byte>)
    | Bool(b: bool)
    | Null
    | Float(raw: seq<Byte>)
    | Arr(entries: seq<Entry>)

  predicate Digits(s: seq<Byte>) {
    forall i | 0 <= i < |s| :: 0x30 <= s[i] <= 0x39
  }

  function Decimal(s: seq<Byte>): (n: nat)
    requires Digits(s)
  {
    if s == [] then 0
    else
      var last: int := s[|s| - 1];
      10 * Decimal(s[..|s| - 1]) + last - 0x30
  }

  predicate Signed(s: seq<Byte>) {
    s != [] && s[0] == 0x2d
  }

  /** The strings PHP turns into integer keys: decimal, no leading zero, no "-0", within the integer range. */
  predicate Numeric(s: seq<Byte>) {
    var digits := if Signed(s) then s[1..] else s;
    && digits != [] && Digits(digits)
    && (digits[0] != 0x30 || s == [0x30])
    && Decimal(digits) < INT_LIMIT + if Signed(s) then 1 else 0
  }

  function NumericValue(s: seq<Byte>): int
    requires Numeric(s)
  {
    if Signed(s) then 0 - Decimal(s[1..]) else Decimal(s)
  }

  predicate CanBeKey(v: Value) {
    v.Int? || v.Str?
  }

  function KeyOf(v: Value): Key
    requires CanBeKey(v)
  {
    match v
    case Int(i) => IntKey(i)
    case Str(s) => if Numeric(s) then IntKey(NumericValue(s)) else StrKey(s)
  }

  /** The position of a key, or the length when it is absent. */
  function Position(entries: seq<Entry>, key: Key): (p: nat)
    ensures p <= |entries|
    ensures p < |entries| ==> entries[p].key == key
    ensures forall i | 0 <= i < p :: entries[i].key != key
  {
    if entries == [] || entries[0].key == key then 0 else 1 + Position(entries[1..], key)
  }

  /** $map[$key] = $value: a key already present keeps its place. */
  function Put(entries: seq<Entry>, key: Key, value: Value): (r: seq<Entry>) {
    var p := Position(entries, key);
    if p < |entries| then entries[p := Entry(key, value)] else entries + [Entry(key, value)]
  }

  // ----- the wire -----

  /** How many bytes hold the argument: 0 when it sits in the first byte. */
  datatype Width = In0 | In1 | In2 | In4 | In8

  function Size(w: Width): nat {
    match w case In0 => 0 case In1 => 1 case In2 => 2 case In4 => 4 case In8 => 8
  }

  function Info(w: Width, n: nat): nat {
    match w case In0 => n case In1 => 24 case In2 => 25 case In4 => 26 case In8 => 27
  }

  /** The arguments this decoder takes at each width; eight bytes only up to PHP's largest integer. */
  predicate Fits(w: Width, n: nat) {
    match w
    case In0 => n < 24
    case In1 => n < 0x100
    case In2 => n < 0x1_0000
    case In4 => n < 0x1_0000_0000
    case In8 => n < INT_LIMIT
  }

  function Head(major: nat, w: Width, n: nat): (b: seq<Byte>)
    requires major < 8 && Fits(w, n)
    ensures |b| == 1 + Size(w)
  {
    [32 * major + Info(w, n)] + BigEndian(n, Size(w))
  }

  /** Every definite-length encoding, minimal or not, tags included. */
  datatype Item =
    | Unsigned(w: Width, n: nat)
    | Negative(w: Width, n: nat)
    | ByteString(w: Width, bytes: seq<Byte>)
    | TextString(w: Width, bytes: seq<Byte>)
    | Array(w: Width, items: Items)
    | Map(w: Width, pairs: Pairs)
    | Tagged(w: Width, n: nat, item: Item)
    | Simple(long: bool, code: nat)
    | Floating(raw: seq<Byte>)

  datatype Items = NoItems | Items(head: Item, tail: Items)
  datatype Pairs = NoPairs | Pairs(key: Item, value: Item, rest: Pairs)

  function Count(items: Items): nat {
    match items case NoItems => 0 case Items(_, tail) => 1 + Count(tail)
  }

  function PairCount(pairs: Pairs): nat {
    match pairs case NoPairs => 0 case Pairs(_, _, rest) => 1 + PairCount(rest)
  }

  /** The items this decoder accepts: keys must be integers or text. */
  predicate Wellformed(item: Item) {
    match item
    case Unsigned(w, n) => Fits(w, n)
    case Negative(w, n) => Fits(w, n)
    case ByteString(w, b) => Fits(w, |b|)
    case TextString(w, b) => Fits(w, |b|)
    case Array(w, items) => Fits(w, Count(items)) && WellformedItems(items)
    case Map(w, pairs) => Fits(w, PairCount(pairs)) && WellformedPairs(pairs)
    case Tagged(w, n, i) => Fits(w, n) && Wellformed(i)
    case Simple(_, code) => 20 <= code <= 22
    case Floating(raw) => |raw| == 2 || |raw| == 4 || |raw| == 8
  }

  predicate WellformedItems(items: Items) {
    match items case NoItems => true case Items(head, tail) => Wellformed(head) && WellformedItems(tail)
  }

  predicate WellformedPairs(pairs: Pairs) {
    match pairs
    case NoPairs => true
    case Pairs(key, value, rest) =>
      Wellformed(key) && Wellformed(value) && CanBeKey(Denote(key)) && WellformedPairs(rest)
  }

  function Encode(item: Item): (b: seq<Byte>)
    requires Wellformed(item)
    ensures |b| >= 1
  {
    match item
    case Unsigned(w, n) => Head(0, w, n)
    case Negative(w, n) => Head(1, w, n)
    case ByteString(w, b) => Head(2, w, |b|) + b
    case TextString(w, b) => Head(3, w, |b|) + b
    case Array(w, items) => Head(4, w, Count(items)) + EncodeItems(items)
    case Map(w, pairs) => Head(5, w, PairCount(pairs)) + EncodePairs(pairs)
    case Tagged(w, n, i) => Head(6, w, n) + Encode(i)
    case Simple(long, code) => if long then [0xf8, code] else [0xe0 + code]
    case Floating(raw) => [if |raw| == 2 then 0xf9 else if |raw| == 4 then 0xfa else 0xfb] + raw
  }

  function EncodeItems(items: Items): seq<Byte>
    requires WellformedItems(items)
  {
    match items case NoItems => [] case Items(head, tail) => Encode(head) + EncodeItems(tail)
  }

  function EncodePairs(pairs: Pairs): seq<Byte>
    requires WellformedPairs(pairs)
  {
    match pairs
    case NoPairs => []
    case Pairs(key, value, rest) => Encode(key) + Encode(value) + EncodePairs(rest)
  }

  /** The PHP value an item stands for; tags say nothing. */
  function Denote(item: Item): Value {
    match item
    case Unsigned(_, n) => Int(n)
    case Negative(_, n) => Int(-1 - n)
    case ByteString(_, b) => Binary(b)
    case TextString(_, b) => Str(b)
    case Array(_, items) => Arr(DenoteItems(items, []))
    case Map(_, pairs) => Arr(DenotePairs(pairs, []))
    case Tagged(_, _, i) => Denote(i)
    case Simple(_, code) => if code == 22 then Null else Bool(code == 21)
    case Floating(raw) => Float(raw)
  }

  /** The elements appended to what is already there. */
  function DenoteItems(items: Items, sofar: seq<Entry>): seq<Entry> {
    match items
    case NoItems => sofar
    case Items(head, tail) => DenoteItems(tail, sofar + [Entry(IntKey(|sofar|), Denote(head))])
  }

  /** The pairs put on top of what is already there. */
  function DenotePairs(pairs: Pairs, sofar: seq<Entry>): seq<Entry> {
    match pairs
    case NoPairs => sofar
    case Pairs(key, value, rest) =>
      if CanBeKey(Denote(key)) then DenotePairs(rest, Put(sofar, KeyOf(Denote(key)), Denote(value)))
      else DenotePairs(rest, sofar)
  }
}
