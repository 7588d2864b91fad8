/** Names in DNS packets: parseLabels, parseName and encodeName of minimdnsd/cmd/minimdnsd/main.go. */
module DnsNames {

  import opened Wrappers
  import opened Octets

  const MAX_NAME_LENGTH: nat := 255

  datatype Error =
    | TooManyPointers | OffsetOutOfRange | TruncatedName | LabelOutOfBounds | TruncatedPointer | InvalidEncoding
    | NameTooLong | InvalidLabelLength | EncodedNameTooLong
    | PacketTooShort | TruncatedQuestion | ResponseTooLarge

  type Fallible<T> = Result<T, Error>

  datatype Labels = Labels(labels: seq<Text>, next: nat)
  datatype Name = Name(name: Text, next: nat)

  // ----- what a name is: RFC 1035, section 4.1.4 -----

  /** The steps that spell a name out. */
  datatype Spelling = End | Label(text: Text, rest: Spelling) | Pointer(target: nat, rest: Spelling)

  /** `s` can be read off the packet at `at`. */
  ghost predicate Reads(packet: seq<Byte>, at: nat, s: Spelling)
    decreases s
  {
    match s
    case End => at < |packet| && packet[at] == 0
    case Label(text, rest) =>
      && 1 <= |text| <= 63 && at + 1 + |text| <= |packet| && packet[at] == |text|
      && packet[at + 1..at + 1 + |text|] == text && Reads(packet, at + 1 + |text|, rest)
    case Pointer(target, rest) =>
      && at + 1 < |packet| && Number(packet[at..at + 2]) == 0xC000 + target
      && Reads(packet, target, rest)
  }

  function PointerTarget(high: Byte, low: Byte): nat {
    high % 64 * 256 + low
  }

  /** The low fourteen bits of the two bytes: section 4.1.4 of RFC 1035. */
  lemma PointerTargetMeaning(high: Byte, low: Byte)
    requires high >= 0xC0
    ensures Number([high, low]) == 0xC000 + PointerTarget(high, low) && PointerTarget(high, low) < 0x4000
  {
    Number1(high);
    assert [high, low][..1] == [high];
  }

  /** What a packet says at `at` is a pointer exactly if the byte there has its two top bits set. */
  lemma PointerAt(packet: seq<Byte>, at: nat, target: nat)
    requires at + 1 < |packet|
    ensures Number(packet[at..at + 2]) == 0xC000 + target <==>
            packet[at] >= 0xC0 && target == PointerTarget(packet[at], packet[at + 1])
  {
    var high, low := packet[at], packet[at + 1];
    assert packet[at..at + 2] == [high, low];
    Number1(high);
    assert [high, low][..1] == [high];
  }

  function Hops(s: Spelling): nat {
    match s case End => 0 case Label(_, rest) => Hops(rest) case Pointer(_, rest) => 1 + Hops(rest)
  }

  function LabelsOf(s: Spelling): seq<Text> {
    match s case End => [] case Label(text, rest) => [text] + LabelsOf(rest) case Pointer(_, rest) => LabelsOf(rest)
  }

  /** The first byte behind the name where it is written. */
  function EndOf(s: Spelling, at: nat): nat {
    match s case End => at + 1 case Label(text, rest) => EndOf(rest, at + 1 + |text|) case Pointer(_, _) => at + 2
  }

  // ----- what parseLabels computes -----

  function LabelsAt(packet: seq<Byte>, start: int, depth: nat): (r: Fallible<Labels>)
    ensures r.Ok? ==> start < r.value.next <= |packet|
    decreases 11 - depth, |packet| + 1
  {
    if depth > 10 then Err(TooManyPointers)
    else if start < 0 || start >= |packet| then Err(OffsetOutOfRange)
    else LabelsFrom(packet, start, depth, [])
  }

  function LabelsFrom(packet: seq<Byte>, i: nat, depth: nat, sofar: seq<Text>): (r: Fallible<Labels>)
    requires depth <= 10 && i <= |packet|
    ensures r.Ok? ==> i < r.value.next <= |packet|
    decreases 11 - depth, |packet| - i
  {
    if i == |packet| then Err(TruncatedName)
    else
      var l := packet[i];
      if l == 0 then Ok(Labels(sofar, i + 1))
      else if l < 0x40 then
        if i + 1 + l > |packet| then Err(LabelOutOfBounds)
        else LabelsFrom(packet, i + 1 + l, depth, sofar + [packet[i + 1..i + 1 + l]])
      else if l < 0xC0 then Err(InvalidEncoding)
      else if i + 1 >= |packet| then Err(TruncatedPointer)
      else
        var there := LabelsAt(packet, PointerTarget(l, packet[i + 1]), depth + 1);
        if there.Err? then Err(there.error) else Ok(Labels(sofar + there.value.labels, i + 2))
  }

  // ----- it finds exactly the names with at most ten hops -----

  lemma {:induction false} SpellingIsRead(packet: seq<Byte>, i: nat, depth: nat, sofar: seq<Text>, s: Spelling)
    requires Reads(packet, i, s) && depth + Hops(s) <= 10
    ensures i < |packet|
    ensures LabelsFrom(packet, i, depth, sofar) == Ok(Labels(sofar + LabelsOf(s), EndOf(s, i)))
    decreases s
  {
    match s
    case End => assert sofar + [] == sofar;
    case Label(text, rest) =>
      SpellingIsRead(packet, i + 1 + |text|, depth, sofar + [text], rest);
      assert sofar + [text] + LabelsOf(rest) == sofar + LabelsOf(s);
    case Pointer(target, rest) =>
      PointerAt(packet, i, target);
      SpellingIsRead(packet, target, depth + 1, [], rest);
      assert [] + LabelsOf(rest) == LabelsOf(rest);
  }

  lemma {:induction false} ReadIsSpelling(packet: seq<Byte>, i: nat, depth: nat, sofar: seq<Text>) returns (s: Spelling)
    requires depth <= 10 && i <= |packet| && LabelsFrom(packet, i, depth, sofar).Ok?
    ensures Reads(packet, i, s) && depth + Hops(s) <= 10
    ensures LabelsFrom(packet, i, depth, sofar) == Ok(Labels(sofar + LabelsOf(s), EndOf(s, i)))
    decreases 11 - depth, |packet| - i
  {
    var l := packet[i];
    if l == 0 {
      s := End;
      assert sofar + [] == sofar;
    } else if l < 0x40 {
      var text := packet[i + 1..i + 1 + l];
      var rest := ReadIsSpelling(packet, i + 1 + l, depth, sofar + [text]);
      s := Label(text, rest);
      assert sofar + [text] + LabelsOf(rest) == sofar + LabelsOf(s);
    } else {
      var target := PointerTarget(l, packet[i + 1]);
      PointerAt(packet, i, target);
      var rest := ReadIsSpelling(packet, target, depth + 1, []);
      s := Pointer(target, rest);
      assert [] + LabelsOf(rest) == LabelsOf(rest);
    }
  }

  ghost predicate Spells(packet: seq<Byte>, at: nat, s: Spelling, r: Labels) {
    Reads(packet, at, s) && Hops(s) <= 10 && r == Labels(LabelsOf(s), EndOf(s, at))
  }

  /** Sound and complete: a result exactly when some spelling with at most ten hops gives it. */
  lemma LabelsExactly(packet: seq<Byte>, at: nat, r: Labels)
    ensures LabelsAt(packet, at, 0) == Ok(r) <==> exists s :: Spells(packet, at, s, r)
  {
    if LabelsAt(packet, at, 0) == Ok(r) {
      var s := ReadIsSpelling(packet, at, 0, []);
      assert [] + LabelsOf(s) == LabelsOf(s);
      assert Spells(packet, at, s, r);
    }
    forall s | Spells(packet, at, s, r) ensures LabelsAt(packet, at, 0) == Ok(r) {
      SpellingIsRead(packet, at, 0, [], s);
      assert [] + LabelsOf(s) == LabelsOf(s);
    }
  }

  /** parseLabels */
  method ParseLabels(packet: seq<Byte>, start: int, depth: nat) returns (r: Fallible<Labels>)
    ensures r == LabelsAt(packet, start, depth)
    decreases 11 - depth
  {
    if depth > 10 {
      return Err(TooManyPointers);
    }
    if start < 0 || start >= |packet| {
      return Err(OffsetOutOfRange);
    }
    var labels: seq<Text>, i := [], start;
    while true
      invariant start <= i <= |packet|
      invariant LabelsFrom(packet, start, depth, []) == LabelsFrom(packet, i, depth, labels)
      decreases |packet| - i
    {
      if i >= |packet| {
        return Err(TruncatedName);
      }
      var l := packet[i];
      if l < 0x40 {
        if l == 0 {
          return Ok(Labels(labels, i + 1));
        }
        i := i + 1;
        var end := i + l;
        if end > |packet| {
          return Err(LabelOutOfBounds);
        }
        labels := labels + [packet[i..end]];
        i := end;
      } else if l >= 0xC0 {
        if i + 1 >= |packet| {
          return Err(TruncatedPointer);
        }
        var there := ParseLabels(packet, PointerTarget(l, packet[i + 1]), depth + 1);
        if there.Err? {
          return Err(there.error);
        }
        return Ok(Labels(labels + there.value.labels, i + 2));
      } else {
        return Err(InvalidEncoding);
      }
    }
  }

  // ----- whole names -----

  const DOT: Byte := 0x2e

  /** strings.Join(labels, ".") */
  function Join(labels: seq<Text>): Text {
    if labels == [] then [] else if |labels| == 1 then labels[0] else labels[0] + [DOT] + Join(labels[1..])
  }

  /** strings.Split(name, ".") */
  function Split(name: Text): (parts: seq<Text>)
    ensures parts != []
  {
    if name == [] then [[]]
    else
      var rest := Split(name[1..]);
      if name[0] == DOT then [[]] + rest else [[name[0]] + rest[0]] + rest[1..]
  }

  lemma {:induction false} JoinSplit(name: Text)
    ensures Join(Split(name)) == name
  {
    if name != [] {
      var rest := Split(name[1..]);
      JoinSplit(name[1..]);
      if name[0] == DOT {
        assert ([[]] + rest)[1..] == rest;
      } else {
        var parts := [[name[0]] + rest[0]] + rest[1..];
        assert |rest| > 1 ==> parts[1..] == rest[1..];
        assert |rest| > 1 ==> Join(parts) == [name[0]] + Join(rest);
      }
    }
  }

  /** The parts are what stands between the dots: joined they give the name, and none of them holds a dot. */
  lemma {:induction false} SplitParts(name: Text)
    ensures Join(Split(name)) == name
    ensures forall i | 0 <= i < |Split(name)| :: DOT !in Split(name)[i]
  {
    JoinSplit(name);
    if name != [] {
      SplitParts(name[1..]);
      var rest := Split(name[1..]);
      assert name[0] != DOT ==> DOT !in [name[0]] + rest[0];
    }
  }

  /** So splitting undoes joining. */
  lemma {:induction false} SplitJoin(parts: seq<Text>)
    requires parts != [] && forall i | 0 <= i < |parts| :: DOT !in parts[i]
    ensures Split(Join(parts)) == parts
    decreases |parts|, |parts[0]|
  {
    var name := Join(parts);
    if parts[0] == [] {
      if |parts| > 1 {
        assert name[1..] == Join(parts[1..]);
        SplitJoin(parts[1..]);
        assert parts == [[]] + parts[1..];
      } else {
        assert parts == [[]];
      }
    } else {
      var shorter := [parts[0][1..]] + parts[1..];
      assert shorter[1..] == parts[1..];
      assert name[0] == parts[0][0] && name[1..] == Join(shorter);
      SplitJoin(shorter);
      assert [name[0]] + shorter[0] == parts[0];
      assert parts == [parts[0]] + parts[1..];
    }
  }

  function NameAt(fold: Text -> Text, packet: seq<Byte>, off: int): (r: Fallible<Name>)
    ensures r.Ok? ==> off < r.value.next <= |packet|
  {
    var l := LabelsAt(packet, off, 0);
    if l.Err? then Err(l.error)
    else
      var name := Join(l.value.labels);
      if |name| > MAX_NAME_LENGTH then Err(NameTooLong) else Ok(Name(Lower(fold, name), l.value.next))
  }

  /** A name is read exactly when some spelling with at most ten hops gives labels that join to at most 255 bytes. */
  lemma NameAtExactly(fold: Text -> Text, packet: seq<Byte>, off: nat, name: Name)
    ensures NameAt(fold, packet, off) == Ok(name) <==>
            exists labels :: LabelsAt(packet, off, 0) == Ok(Labels(labels, name.next)) &&
                             |Join(labels)| <= 255 && name.name == Lower(fold, Join(labels))
  {
    hide LabelsAt;
    hide Lower;
    hide Join;
    if NameAt(fold, packet, off) == Ok(name) {
      var l := LabelsAt(packet, off, 0).value;
      assert LabelsAt(packet, off, 0) == Ok(Labels(l.labels, name.next));
    }
  }

  /** parseName, with the advanced offset. */
  method ParseName(fold: Text -> Text, packet: seq<Byte>, off: int) returns (r: Fallible<Name>)
    ensures r == NameAt(fold, packet, off)
  {
    var l := ParseLabels(packet, off, 0);
    if l.Err? {
      return Err(l.error);
    }
    var name := Join(l.value.labels);
    if |name| > MAX_NAME_LENGTH {
      return Err(NameTooLong);
    }
    r := Ok(Name(Lower(fold, name), l.value.next));
  }

  predicate GoodLabel(text: Text) {
    1 <= |text| <= 63
  }

  predicate GoodLabels(parts: seq<Text>) {
    forall i | 0 <= i < |parts| :: GoodLabel(parts[i])
  }

  function LabelBytes(parts: seq<Text>): seq<Byte>
    requires GoodLabels(parts)
  {
    if parts == [] then [] else [|parts[0]|] + parts[0] + LabelBytes(parts[1..])
  }

  function Encoded(name: Text): (r: Fallible<seq<Byte>>) {
    if !GoodLabels(Split(name)) then Err(InvalidLabelLength)
    else
      var out := LabelBytes(Split(name)) + [0];
      if |out| > MAX_NAME_LENGTH + 1 then Err(EncodedNameTooLong) else Ok(out)
  }

  /** encodeName */
  method EncodeName(name: Text) returns (r: Fallible<seq<Byte>>)
    ensures r == Encoded(name)
  {
    var parts, out: seq<Byte> := Split(name), [];
    for i := 0 to |parts|
      invariant GoodLabels(parts[..i]) && out == LabelBytes(parts[..i])
    {
      var p := parts[i];
      if |p| == 0 || |p| > 63 {
        assert !GoodLabel(parts[i]);
        return Err(InvalidLabelLength);
      }
      out := out + [|p|];
      out := out + p;
      LabelBytesAppend(parts[..i], p);
      assert parts[..i + 1] == parts[..i] + [p];
    }
    assert parts[..|parts|] == parts;
    out := out + [0];
    if |out| > MAX_NAME_LENGTH + 1 {
      return Err(EncodedNameTooLong);
    }
    r := Ok(out);
  }

  lemma {:induction false} LabelBytesAppend(parts: seq<Text>, p: Text)
    requires GoodLabels(parts) && GoodLabel(p)
    ensures GoodLabels(parts + [p]) && LabelBytes(parts + [p]) == LabelBytes(parts) + [|p|] + p
  {
    if parts == [] {
      assert parts + [p] == [p] && [p][1..] == [];
    } else {
      LabelBytesAppend(parts[1..], p);
      assert (parts + [p])[1..] == parts[1..] + [p];
    }
  }

  lemma {:induction false} LabelBytesLength(parts: seq<Text>)
    requires GoodLabels(parts) && parts != []
    ensures |LabelBytes(parts)| == |Join(parts)| + 1
  {
    if |parts| > 1 {
      LabelBytesLength(parts[1..]);
    } else {
      assert parts[1..] == [];
    }
  }

  /** A name can be encoded exactly when its labels have 1 to 63 bytes and it has at most 254; it takes two more. */
  lemma EncodableExactly(name: Text)
    ensures Encoded(name).Ok? <==> GoodLabels(Split(name)) && |name| <= 254
    ensures Encoded(name).Ok? ==> |Encoded(name).value| == |name| + 2
  {
    JoinSplit(name);
    if GoodLabels(Split(name)) {
      LabelBytesLength(Split(name));
    }
  }

  function SpellingOf(parts: seq<Text>): Spelling {
    if parts == [] then End else Label(parts[0], SpellingOf(parts[1..]))
  }

  lemma {:induction false} WrittenIsSpelled(packet: seq<Byte>, off: nat, parts: seq<Text>)
    requires GoodLabels(parts) && At(packet, off, LabelBytes(parts) + [0])
    ensures var s := SpellingOf(parts);
            && Reads(packet, off, s) && Hops(s) == 0 && LabelsOf(s) == parts
            && EndOf(s, off) == off + |LabelBytes(parts)| + 1
    decreases |parts|
  {
    hide At;
    if parts == [] {
      assert LabelBytes(parts) + [0] == [0];
      AtByte(packet, off, 0);
    } else {
      var p, rest := parts[0], LabelBytes(parts[1..]) + [0];
      assert LabelBytes(parts) + [0] == [|p|] + (p + rest);
      AtSplit(packet, off, [|p|], p + rest);
      AtByte(packet, off, |p|);
      AtSplit(packet, off + 1, p, rest);
      AtSlice(packet, off + 1, p);
      WrittenIsSpelled(packet, off + 1 + |p|, parts[1..]);
      assert [p] + parts[1..] == parts;
    }
  }

  /** Wherever it stands in whatever packet, an encoded name is read back, lower-cased, to its end. */
  lemma NameRoundTrip(fold: Text -> Text, name: Text, packet: seq<Byte>, off: nat)
    requires Encoded(name).Ok? && At(packet, off, Encoded(name).value)
    ensures NameAt(fold, packet, off) == Ok(Name(Lower(fold, name), off + |Encoded(name).value|))
  {
    hide LabelsAt;
    var parts := Split(name);
    WrittenIsSpelled(packet, off, parts);
    var r := Labels(parts, off + |Encoded(name).value|);
    assert Spells(packet, off, SpellingOf(parts), r);
    LabelsExactly(packet, off, r);
    JoinSplit(name);
    EncodableExactly(name);
  }
}
