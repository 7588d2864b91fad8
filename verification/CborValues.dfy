/** Every PHP value the decoder can hold has an encoding, and reading that encoding gives it back. */
module CborValues {

  import opened Octets
  import opened Cbor
  import opened CborDecoder
  import opened CborRoundTrip

  // ----- arrays and maps, element by element -----

  function Listing(pairs: Pairs): seq<Entry>
    requires WellformedPairs(pairs)
  {
    match pairs
    case NoPairs => []
    case Pairs(key, value, rest) => [Entry(KeyOf(Denote(key)), Denote(value))] + Listing(rest)
  }

  ghost predicate DistinctKeys(entries: seq<Entry>) {
    forall i, j | 0 <= i < j < |entries| :: entries[i].key != entries[j].key
  }

  /** A map with distinct keys is listed in the order written. */
  lemma {:induction false} DistinctKeysInOrder(pairs: Pairs, sofar: seq<Entry>)
    requires WellformedPairs(pairs) && DistinctKeys(sofar + Listing(pairs))
    ensures DenotePairs(pairs, sofar) == sofar + Listing(pairs)
  {
    match pairs
    case NoPairs =>
    case Pairs(key, value, rest) =>
      var e := Entry(KeyOf(Denote(key)), Denote(value));
      var all := sofar + Listing(pairs);
      assert all == sofar + [e] + Listing(rest);
      forall i | 0 <= i < |sofar| ensures sofar[i].key != e.key {
        assert all[i] == sofar[i] && all[|sofar|] == e;
      }
      assert Put(sofar, e.key, e.value) == sofar + [e];
      DistinctKeysInOrder(rest, sofar + [e]);
  }

  function Nth(items: Items, i: nat): Item
    requires i < Count(items)
  {
    match items case Items(head, tail) => if i == 0 then head else Nth(tail, i - 1)
  }

  /** An array is listed under 0, 1, 2 and so on, in the order written. */
  lemma {:induction false} ArraysInOrder(items: Items, sofar: seq<Entry>, i: nat)
    requires i < |sofar| + Count(items)
    ensures |DenoteItems(items, sofar)| == |sofar| + Count(items)
    ensures DenoteItems(items, sofar)[i] ==
            if i < |sofar| then sofar[i] else Entry(IntKey(i), Denote(Nth(items, i - |sofar|)))
  {
    match items
    case NoItems =>
    case Items(head, tail) => ArraysInOrder(tail, sofar + [Entry(IntKey(|sofar|), Denote(head))], i);
  }

  /** The value a key has in the end. */
  function Final(entries: seq<Entry>, key: Key, before: seq<Entry>): seq<Entry> {
    if entries == [] then before
    else Final(entries[1..], key, if entries[0].key == key then [entries[0]] else before)
  }

  function Found(entries: seq<Entry>, key: Key): seq<Entry> {
    var p := Position(entries, key);
    if p < |entries| then [entries[p]] else []
  }

  lemma {:induction false} PutFound(entries: seq<Entry>, key: Key, value: Value, other: Key)
    requires DistinctKeys(entries)
    ensures DistinctKeys(Put(entries, key, value))
    ensures Found(Put(entries, key, value), other) == if other == key then [Entry(key, value)] else Found(entries, other)
  {
    var after, p := Put(entries, key, value), Position(entries, key);
    var q, r := Position(after, other), Position(entries, other);
    assert forall i | 0 <= i < |entries| :: after[i].key == entries[i].key;
    assert after[p] == Entry(key, value);
    if other == key {
      assert q == p;
    } else if r < |entries| {
      assert after[r] == entries[r] && q == r;
    } else {
      assert q == |after|;
    }
  }

  /** Of several values written for one key the last counts. */
  lemma {:induction false} LastWins(pairs: Pairs, sofar: seq<Entry>, key: Key)
    requires WellformedPairs(pairs) && DistinctKeys(sofar)
    ensures DistinctKeys(DenotePairs(pairs, sofar))
    ensures Found(DenotePairs(pairs, sofar), key) == Final(Listing(pairs), key, Found(sofar, key))
  {
    match pairs
    case NoPairs =>
    case Pairs(k, value, rest) =>
      var e := Entry(KeyOf(Denote(k)), Denote(value));
      PutFound(sofar, e.key, e.value, key);
      LastWins(rest, Put(sofar, e.key, e.value), key);
      assert Listing(pairs)[1..] == Listing(rest);
  }

  /** Whatever is decoded, an array lists each key once. */
  lemma {:induction false} DecodedKeysDistinct(item: Item)
    requires Wellformed(item) && Denote(item).Arr?
    ensures DistinctKeys(Denote(item).entries)
  {
    match item
    case Array(_, items) =>
      forall i | 0 <= i < Count(items) ensures i < |DenoteItems(items, [])| && DenoteItems(items, [])[i].key == IntKey(i) {
        ArraysInOrder(items, [], i);
      }
      if Count(items) > 0 {
        ArraysInOrder(items, [], 0);
      }
    case Map(_, pairs) => LastWins(pairs, [], IntKey(0));
    case Tagged(_, _, inner) => DecodedKeysDistinct(inner);
  }

  // ----- values to items -----

  function Shortest(n: nat): (w: Width)
    requires n < INT_LIMIT
    ensures Fits(w, n)
  {
    if n < 24 then In0 else if n < 0x100 then In1 else if n < 0x1_0000 then In2
    else if n < 0x1_0000_0000 then In4 else In8
  }

  predicate KeyHeld(key: Key) {
    match key
    case IntKey(i) => 0 - INT_LIMIT <= i < INT_LIMIT
    case StrKey(s) => |s| < INT_LIMIT && !Numeric(s)
  }

  /** The values a PHP program can hold, floats as their encoded bytes. */
  ghost predicate Held(v: Value) {
    match v
    case Int(i) => 0 - INT_LIMIT <= i < INT_LIMIT
    case Binary(b) => |b| < INT_LIMIT
    case Str(s) => |s| < INT_LIMIT
    case Float(raw) => |raw| == 2 || |raw| == 4 || |raw| == 8
    case Arr(entries) =>
      && |entries| < INT_LIMIT && DistinctKeys(entries)
      && forall i | 0 <= i < |entries| :: KeyHeld(entries[i].key) && Held(entries[i].value)
    case _ => true
  }

  function IntItem(i: int): (item: Item)
    requires 0 - INT_LIMIT <= i < INT_LIMIT
    ensures Wellformed(item) && Denote(item) == Int(i)
  {
    if i >= 0 then Item.Unsigned(Shortest(i), i) else Negative(Shortest(-1 - i), -1 - i)
  }

  function KeyItem(key: Key): (item: Item)
    requires KeyHeld(key)
    ensures Wellformed(item) && CanBeKey(Denote(item)) && KeyOf(Denote(item)) == key
  {
    match key case IntKey(i) => IntItem(i) case StrKey(s) => TextString(Shortest(|s|), s)
  }

  function LeafItem(v: Value): (item: Item)
    requires !v.Arr? && Held(v)
    ensures Wellformed(item) && Denote(item) == v
  {
    match v
    case Int(i) => IntItem(i)
    case Binary(b) => ByteString(Shortest(|b|), b)
    case Str(s) => TextString(Shortest(|s|), s)
    case Bool(b) => Simple(false, if b then 21 else 20)
    case Null => Simple(false, 22)
    case Float(raw) => Floating(raw)
  }

  lemma MapDenotes(pairs: Pairs)
    requires WellformedPairs(pairs) && PairCount(pairs) < INT_LIMIT && DistinctKeys(Listing(pairs))
    ensures var item := Map(Shortest(PairCount(pairs)), pairs); Wellformed(item) && Denote(item) == Arr(Listing(pairs))
  {
    assert [] + Listing(pairs) == Listing(pairs);
    DistinctKeysInOrder(pairs, []);
  }

  /** An encoding of a value, every PHP array as a map. */
  ghost function ItemOf(v: Value): (item: Item)
    requires Held(v)
    ensures Wellformed(item) && Denote(item) == v
    decreases v, |if v.Arr? then v.entries else []| + 1
  {
    if v.Arr? then
      var pairs := PairsOf(v, 0);
      MapDenotes(pairs);
      Map(Shortest(PairCount(pairs)), pairs)
    else LeafItem(v)
  }

  /** The entries of an array from the `n`-th on. */
  ghost function PairsOf(v: Value, n: nat): (pairs: Pairs)
    requires Held(v) && v.Arr? && n <= |v.entries|
    ensures WellformedPairs(pairs) && PairCount(pairs) == |v.entries| - n && Listing(pairs) == v.entries[n..]
    decreases v, |v.entries| - n
  {
    if n == |v.entries| then NoPairs
    else Pairs(KeyItem(v.entries[n].key), ItemOf(v.entries[n].value), PairsOf(v, n + 1))
  }

  /** Every value PHP can hold is encoded by some item and read back from it, with nothing left over. */
  lemma ValueRoundTrip(v: Value)
    requires Held(v)
    ensures Wellformed(ItemOf(v)) && Decoded(Encode(ItemOf(v))) == Ok(v, |Encode(ItemOf(v))|)
  {
    var item := ItemOf(v);
    DecodesExactlyTheEncodings(Encode(item), v);
  }

  // ----- keys -----

  /** A number as PHP prints it. */
  function PrintedNat(n: nat): (s: seq<Byte>)
    ensures s != [] && Digits(s)
  {
    if n < 10 then [0x30 + n] else PrintedNat(n / 10) + [0x30 + n % 10]
  }

  function Printed(i: int): (s: seq<Byte>)
    ensures s != []
  {
    if i < 0 then [0x2d] + PrintedNat(-i) else PrintedNat(i)
  }

  lemma {:induction false} PrintedIsDecimal(n: nat)
    ensures Decimal(PrintedNat(n)) == n && (PrintedNat(n)[0] == 0x30 ==> n == 0)
  {
    var s := PrintedNat(n);
    if n < 10 {
      assert s[..0] == [];
    } else {
      PrintedIsDecimal(n / 10);
      assert s[..|s| - 1] == PrintedNat(n / 10);
    }
  }

  /** Digits without a leading zero are what their value prints as. */
  lemma {:induction false} DecimalIsPrinted(s: seq<Byte>)
    requires s != [] && Digits(s) && (s[0] != 0x30 || |s| == 1)
    ensures PrintedNat(Decimal(s)) == s
    ensures s[0] != 0x30 ==> Decimal(s) > 0
  {
    var last: int := s[|s| - 1];
    var init := s[..|s| - 1];
    assert s == init + [s[|s| - 1]];
    if init != [] {
      DecimalIsPrinted(init);
      assert Decimal(s) == 10 * Decimal(init) + (last - 0x30);
      assert Decimal(s) / 10 == Decimal(init) && Decimal(s) % 10 == last - 0x30;
    }
  }

  /** A text key becomes an integer key exactly when it is how PHP prints that integer; any other stays as it is. */
  lemma KeysExactly(s: seq<Byte>, i: int)
    ensures KeyOf(Str(s)) == IntKey(i) <==> s == Printed(i) && 0 - INT_LIMIT <= i < INT_LIMIT
    ensures KeyOf(Str(s)).StrKey? ==> KeyOf(Str(s)) == StrKey(s)
    ensures KeyOf(Int(i)) == IntKey(i)
  {
    hide Numeric;
    hide NumericValue;
    hide Printed;
    if Numeric(s) {
      NumericIsPrinted(s);
      if s == Printed(i) { PrintedInjective(i, NumericValue(s)); }
    } else if 0 - INT_LIMIT <= i < INT_LIMIT {
      PrintedIsNumeric(i);
    }
  }

  lemma PrintedInjective(i: int, j: int)
    requires Printed(i) == Printed(j)
    ensures i == j
  {
    hide PrintedNat;
    PrintedIsDecimal(if i < 0 then -i else i);
    PrintedIsDecimal(if j < 0 then -j else j);
    if i < 0 {
      assert Printed(i)[0] == 0x2d && Printed(i)[1..] == PrintedNat(-i);
    }
    if j < 0 {
      assert Printed(j)[0] == 0x2d && Printed(j)[1..] == PrintedNat(-j);
    }
  }

  lemma NumericIsPrinted(s: seq<Byte>)
    requires Numeric(s)
    ensures s == Printed(NumericValue(s)) && 0 - INT_LIMIT <= NumericValue(s) < INT_LIMIT
  {
    if Signed(s) {
      DecimalIsPrinted(s[1..]);
      assert s == [0x2d] + s[1..];
    } else {
      DecimalIsPrinted(s);
    }
  }

  lemma PrintedIsNumeric(i: int)
    requires 0 - INT_LIMIT <= i < INT_LIMIT
    ensures Numeric(Printed(i)) && NumericValue(Printed(i)) == i
  {
    var s := Printed(i);
    if i < 0 {
      PrintedIsDecimal(-i);
      assert s[1..] == PrintedNat(-i);
    } else {
      PrintedIsDecimal(i);
      assert s[0] != 0x2d;
      if i < 10 { assert s == [0x30 + i]; }
    }
  }
}
