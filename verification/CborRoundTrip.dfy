/** The decoder accepts exactly the well-formed encodings and gives each the value it stands for. */
module CborRoundTrip {

  import opened Octets
  import opened Cbor
  import opened CborDecoder

  // ----- every encoding is decoded -----

  lemma HeadDecodes(buf: seq<Byte>, offset: nat, major: nat, w: Width, n: nat)
    requires major < 8 && Fits(w, n) && At(buf, offset, Head(major, w, n))
    ensures offset < |buf| && buf[offset] / 32 == major && buf[offset] % 32 == Info(w, n)
    ensures Argument(Info(w, n), buf, offset + 1) == Ok(n, offset + 1 + Size(w))
    ensures major < 7 ==> ItemAt(buf, offset) == ItemData(major, n, buf, offset + 1 + Size(w))
  {
    var first := 32 * major + Info(w, n);
    AtSplit(buf, offset, [first], BigEndian(n, Size(w)));
    assert buf[offset] == buf[offset..offset + 1][0] == first;
    assert first / 32 == major && first % 32 == Info(w, n);
    ArgumentDecodes(buf, offset + 1, w, n);
    hide Argument;
    hide ItemData;
    hide Head;
    hide At;
  }

  lemma ArgumentDecodes(buf: seq<Byte>, offset: nat, w: Width, n: nat)
    requires Fits(w, n) && At(buf, offset, BigEndian(n, Size(w)))
    ensures Argument(Info(w, n), buf, offset) == Ok(n, offset + Size(w))
  {
    hide Number;
    hide BigEndian;
    SmallPowers();
    if w != In0 {
      NumberBigEndian(n, Size(w));
    }
  }

  /** Whatever surrounds it, an encoding is decoded to its value, and to its end. */
  lemma {:induction false} Complete(item: Item, buf: seq<Byte>, offset: nat)
    requires Wellformed(item) && At(buf, offset, Encode(item))
    ensures ItemAt(buf, offset) == Ok(Denote(item), offset + |Encode(item)|)
    decreases item
  {
    hide Head;
    hide Argument;
    hide ItemAt;
    hide Raw;
    match item
    case Unsigned(w, n) => HeadDecodes(buf, offset, 0, w, n);
    case Negative(w, n) => HeadDecodes(buf, offset, 1, w, n);
    case ByteString(w, b) => StringDecodes(2, w, b, buf, offset);
    case TextString(w, b) => StringDecodes(3, w, b, buf, offset);
    case Array(w, items) => CompleteArray(w, items, buf, offset);
    case Map(w, pairs) => CompleteMap(w, pairs, buf, offset);
    case Tagged(w, n, i) =>
      AtSplit(buf, offset, Head(6, w, n), Encode(i));
      HeadDecodes(buf, offset, 6, w, n);
      Complete(i, buf, offset + 1 + Size(w));
    case Simple(long, code) => SimpleDecodes(long, code, buf, offset);
    case Floating(raw) => FloatDecodes(raw, buf, offset);
  }

  lemma {:induction false} CompleteArray(w: Width, items: Items, buf: seq<Byte>, offset: nat)
    requires Wellformed(Array(w, items)) && At(buf, offset, Encode(Array(w, items)))
    ensures ItemAt(buf, offset) == Ok(Denote(Array(w, items)), offset + |Encode(Array(w, items))|)
    decreases items, 1
  {
    hide Head;
    hide Argument;
    AtSplit(buf, offset, Head(4, w, Count(items)), EncodeItems(items));
    HeadDecodes(buf, offset, 4, w, Count(items));
    CompleteItems(items, buf, offset + 1 + Size(w), []);
  }

  lemma {:induction false} CompleteMap(w: Width, pairs: Pairs, buf: seq<Byte>, offset: nat)
    requires Wellformed(Map(w, pairs)) && At(buf, offset, Encode(Map(w, pairs)))
    ensures ItemAt(buf, offset) == Ok(Denote(Map(w, pairs)), offset + |Encode(Map(w, pairs))|)
    decreases pairs, 1
  {
    hide Head;
    hide Argument;
    AtSplit(buf, offset, Head(5, w, PairCount(pairs)), EncodePairs(pairs));
    HeadDecodes(buf, offset, 5, w, PairCount(pairs));
    CompletePairs(pairs, buf, offset + 1 + Size(w), []);
  }

  lemma StringDecodes(major: nat, w: Width, b: seq<Byte>, buf: seq<Byte>, offset: nat)
    requires 2 <= major <= 3 && Fits(w, |b|) && At(buf, offset, Head(major, w, |b|) + b)
    ensures ItemAt(buf, offset) == Ok(if major == 2 then Binary(b) else Str(b), offset + |Head(major, w, |b|) + b|)
  {
    hide Head;
    hide Argument;
    AtSplit(buf, offset, Head(major, w, |b|), b);
    HeadDecodes(buf, offset, major, w, |b|);
  }

  lemma SimpleDecodes(long: bool, code: nat, buf: seq<Byte>, offset: nat)
    requires Wellformed(Simple(long, code)) && At(buf, offset, Encode(Simple(long, code)))
    ensures ItemAt(buf, offset) == Ok(Denote(Simple(long, code)), offset + if long then 2 else 1)
  {
    var b := Encode(Simple(long, code));
    assert buf[offset] == buf[offset..offset + |b|][0] == b[0];
    if long {
      AtSplit(buf, offset, [0xf8], [code]);
      assert buf[offset + 1..offset + 2] == [code];
      Number1(code);
    }
  }

  lemma FloatDecodes(raw: seq<Byte>, buf: seq<Byte>, offset: nat)
    requires Wellformed(Floating(raw)) && At(buf, offset, Encode(Floating(raw)))
    ensures ItemAt(buf, offset) == Ok(Float(raw), offset + 1 + |raw|)
  {
    var b := Encode(Floating(raw));
    AtSplit(buf, offset, [b[0]], raw);
    assert buf[offset] == buf[offset..offset + |b|][0] == b[0];
  }

  lemma {:induction false} CompleteItems(items: Items, buf: seq<Byte>, offset: nat, sofar: seq<Entry>)
    requires WellformedItems(items) && At(buf, offset, EncodeItems(items))
    ensures ItemsFrom(buf, offset, Count(items), sofar) ==
            Ok(DenoteItems(items, sofar), offset + |EncodeItems(items)|)
    decreases items, 0
  {
    hide At;
    hide Encode;
    hide Denote;
    hide ItemAt;
    match items
    case NoItems =>
    case Items(head, tail) =>
      AtSplit(buf, offset, Encode(head), EncodeItems(tail));
      Complete(head, buf, offset);
      CompleteItems(tail, buf, offset + |Encode(head)|, sofar + [Entry(IntKey(|sofar|), Denote(head))]);
  }

  lemma {:induction false} CompletePairs(pairs: Pairs, buf: seq<Byte>, offset: nat, sofar: seq<Entry>)
    requires WellformedPairs(pairs) && At(buf, offset, EncodePairs(pairs))
    ensures PairsFrom(buf, offset, PairCount(pairs), sofar) ==
            Ok(DenotePairs(pairs, sofar), offset + |EncodePairs(pairs)|)
    decreases pairs, 0
  {
    hide At;
    hide Encode;
    hide Denote;
    hide ItemAt;
    hide KeyOf;
    hide Put;
    match pairs
    case NoPairs =>
    case Pairs(key, value, rest) =>
      var k, v := Encode(key), Encode(value);
      AtSplit(buf, offset, k + v, EncodePairs(rest));
      AtSplit(buf, offset, k, v);
      Complete(key, buf, offset);
      Complete(value, buf, offset + |k|);
      CompletePairs(rest, buf, offset + |k + v|, Put(sofar, KeyOf(Denote(key)), Denote(value)));
  }

  // ----- nothing else is -----

  lemma HeadFound(buf: seq<Byte>, offset: nat) returns (w: Width)
    requires offset < |buf| && Argument(buf[offset] % 32, buf, offset + 1).Ok?
    ensures var n := Argument(buf[offset] % 32, buf, offset + 1);
            Fits(w, n.value) && buf[offset..n.next] == Head(buf[offset] / 32, w, n.value)
  {
    var info := buf[offset] % 32;
    w := if info < 24 then In0 else if info == 24 then In1 else if info == 25 then In2 else if info == 26 then In4 else In8;
    hide Number;
    hide BigEndian;
    SmallPowers();
    BigEndianNumber(buf[offset + 1..offset + 1 + Size(w)]);
    assert buf[offset..offset + 1 + Size(w)] == [buf[offset]] + buf[offset + 1..offset + 1 + Size(w)];
    assert buf[offset] == 32 * (buf[offset] / 32) + info;
  }

  /** A successful parse has read exactly one well-formed item, and its value is the one returned. */
  lemma {:induction false} Sound(buf: seq<Byte>, offset: int) returns (item: Item)
    requires ItemAt(buf, offset).Ok?
    ensures Wellformed(item) && Denote(item) == ItemAt(buf, offset).value
    ensures buf[offset..ItemAt(buf, offset).next] == Encode(item)
    decreases |buf| - offset, 0
  {
    hide Head;
    hide Argument;
    hide FloatSimple;
    hide ItemData;
    hide Encode;
    hide Denote;
    if buf[offset] / 32 == 7 {
      item := FloatSimpleSound(buf, offset);
    } else {
      var n := Argument(buf[offset] % 32, buf, offset + 1);
      var w := HeadFound(buf, offset);
      item := DataSound(buf, n.next, buf[offset] / 32, n.value, w);
      var end := ItemAt(buf, offset).next;
      assert buf[offset..end] == buf[offset..n.next] + buf[n.next..end];
    }
  }

  /** What follows a head: the rest of one well-formed item. */
  lemma {:induction false} DataSound(buf: seq<Byte>, offset: nat, major: nat, n: nat, w: Width) returns (item: Item)
    requires major < 7 && offset <= |buf| && Fits(w, n) && ItemData(major, n, buf, offset).Ok?
    ensures Wellformed(item) && Denote(item) == ItemData(major, n, buf, offset).value
    ensures Encode(item) == Head(major, w, n) + buf[offset..ItemData(major, n, buf, offset).next]
    decreases |buf| - offset, 2
  {
    hide Head;
    hide ItemAt;
    hide ItemsFrom;
    hide PairsFrom;
    if major < 4 {
      item := LeafSound(buf, offset, major, n, w);
    } else if major == 4 {
      var items := ItemsSound(buf, offset, n, []);
      item := Array(w, items);
    } else if major == 5 {
      var pairs := PairsSound(buf, offset, n, []);
      item := Map(w, pairs);
    } else {
      var inner := Sound(buf, offset);
      item := Tagged(w, n, inner);
    }
  }

  /** An integer or a string. */
  lemma LeafSound(buf: seq<Byte>, offset: nat, major: nat, n: nat, w: Width) returns (item: Item)
    requires major < 4 && offset <= |buf| && Fits(w, n) && ItemData(major, n, buf, offset).Ok?
    ensures Wellformed(item) && Denote(item) == ItemData(major, n, buf, offset).value
    ensures Encode(item) == Head(major, w, n) + buf[offset..ItemData(major, n, buf, offset).next]
  {
    hide Head;
    var end := ItemData(major, n, buf, offset).next;
    item := match major
      case 0 => Item.Unsigned(w, n)
      case 1 => Negative(w, n)
      case 2 => ByteString(w, buf[offset..end])
      case _ => TextString(w, buf[offset..end]);
  }

  lemma FloatSimpleSound(buf: seq<Byte>, offset: nat) returns (item: Item)
    requires offset < |buf| && buf[offset] / 32 == 7 && ItemAt(buf, offset).Ok?
    ensures Wellformed(item) && Denote(item) == ItemAt(buf, offset).value
    ensures buf[offset..ItemAt(buf, offset).next] == Encode(item)
  {
    var info, end := buf[offset] % 32, ItemAt(buf, offset).next;
    assert buf[offset] == 0xe0 + info;
    assert buf[offset..end] == [buf[offset]] + buf[offset + 1..end];
    if info < 24 {
      item := Simple(false, info);
    } else if info == 24 {
      assert buf[offset + 1..offset + 2] == [buf[offset + 1]];
      Number1(buf[offset + 1]);
      item := Simple(true, buf[offset + 1]);
    } else {
      item := Floating(buf[offset + 1..end]);
    }
  }

  lemma {:induction false} ItemsSound(buf: seq<Byte>, offset: nat, count: nat, sofar: seq<Entry>) returns (items: Items)
    requires offset <= |buf| && ItemsFrom(buf, offset, count, sofar).Ok?
    ensures WellformedItems(items) && Count(items) == count
    ensures DenoteItems(items, sofar) == ItemsFrom(buf, offset, count, sofar).value
    ensures buf[offset..ItemsFrom(buf, offset, count, sofar).next] == EncodeItems(items)
    decreases |buf| - offset, 1
  {
    hide Encode;
    hide Denote;
    hide ItemAt;
    if count == 0 {
      items := NoItems;
    } else {
      var v, end := ItemAt(buf, offset), ItemsFrom(buf, offset, count, sofar).next;
      var head := Sound(buf, offset);
      var tail := ItemsSound(buf, v.next, count - 1, sofar + [Entry(IntKey(|sofar|), v.value)]);
      items := Items(head, tail);
      assert buf[offset..end] == buf[offset..v.next] + buf[v.next..end];
    }
  }

  lemma {:induction false} PairsSound(buf: seq<Byte>, offset: nat, count: nat, sofar: seq<Entry>) returns (pairs: Pairs)
    requires offset <= |buf| && PairsFrom(buf, offset, count, sofar).Ok?
    ensures WellformedPairs(pairs) && PairCount(pairs) == count
    ensures DenotePairs(pairs, sofar) == PairsFrom(buf, offset, count, sofar).value
    ensures buf[offset..PairsFrom(buf, offset, count, sofar).next] == EncodePairs(pairs)
    decreases |buf| - offset, 1
  {
    hide Encode;
    hide Denote;
    hide Put;
    hide KeyOf;
    hide ItemAt;
    if count == 0 {
      pairs := NoPairs;
    } else {
      var k, end := ItemAt(buf, offset), PairsFrom(buf, offset, count, sofar).next;
      var v := ItemAt(buf, k.next);
      var key := Sound(buf, offset);
      var value := Sound(buf, k.next);
      var rest := PairsSound(buf, v.next, count - 1, Put(sofar, KeyOf(k.value), v.value));
      pairs := Pairs(key, value, rest);
      assert buf[offset..v.next] == buf[offset..k.next] + buf[k.next..v.next];
      assert buf[offset..end] == buf[offset..v.next] + buf[v.next..end];
    }
  }

  // ----- what follows -----

  /** decode succeeds on exactly the encodings, with exactly their values. */
  lemma DecodesExactlyTheEncodings(buf: seq<Byte>, v: Value)
    ensures Decoded(buf) == Ok(v, |buf|) <==> exists item :: Wellformed(item) && Encode(item) == buf && Denote(item) == v
  {
    if Decoded(buf) == Ok(v, |buf|) {
      var item := Sound(buf, 0);
      assert buf[0..|buf|] == buf;
    }
    forall item | Wellformed(item) && Encode(item) == buf && Denote(item) == v ensures Decoded(buf) == Ok(v, |buf|) {
      assert buf[0..|buf|] == buf;
      Complete(item, buf, 0);
    }
  }

  /** The result depends on the consumed bytes alone, wherever they stand. */
  lemma OnlyTheConsumedBytesMatter(buf: seq<Byte>, offset: int, other: seq<Byte>, at: nat)
    requires ItemAt(buf, offset).Ok? && At(other, at, buf[offset..ItemAt(buf, offset).next])
    ensures ItemAt(other, at) == Ok(ItemAt(buf, offset).value, at + (ItemAt(buf, offset).next - offset))
  {
    var item := Sound(buf, offset);
    Complete(item, other, at);
  }

  /** No encoding is a proper prefix of another. */
  lemma PrefixFree(a: Item, b: Item)
    requires Wellformed(a) && Wellformed(b) && Encode(a) <= Encode(b)
    ensures Encode(a) == Encode(b) && Denote(a) == Denote(b)
  {
    var whole := Encode(b);
    Complete(a, whole, 0);
    assert whole[0..|whole|] == whole;
    Complete(b, whole, 0);
  }
}
