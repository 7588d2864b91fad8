/** A server name is found exactly in the messages that carry one, section 4.1.2 of RFC 8446 and section 3 of RFC 6066. */
module SniWire {

  import opened Wrappers
  import opened Octets
  import opened Sni

  /** The message up to the length of its extensions. */
  datatype Preamble = Preamble(recordVersion: seq<Byte>, recordLength: nat, handshakeLength: seq<Byte>,
                               versionAndRandom: seq<Byte>, sessionId: seq<Byte>, ciphers: seq<Byte>, compression: seq<Byte>)

  ghost predicate ValidPreamble(p: Preamble) {
    && |p.recordVersion| == 2 && p.recordLength < 0x1_0000 && |p.handshakeLength| == 3 && |p.versionAndRandom| == 34
    && |p.sessionId| < 256 && |p.ciphers| < 0x1_0000 && |p.compression| < 256
  }

  function FixedBytes(p: Preamble): (b: seq<Byte>)
    requires ValidPreamble(p)
    ensures |b| == 43
  {
    [0x16] + p.recordVersion + Bytes16(p.recordLength) + [0x01] + p.handshakeLength + p.versionAndRandom
  }

  function PreambleBytes(p: Preamble): (b: seq<Byte>)
    requires ValidPreamble(p)
  {
    FixedBytes(p) + ([|p.sessionId|] + p.sessionId)
    + (Bytes16(|p.ciphers|) + p.ciphers) + ([|p.compression|] + p.compression)
  }

  /** A type, a length and that many bytes: an extension (16-bit type) or an entry of the name list (8-bit type). */
  datatype Element = Element(kind: nat, data: seq<Byte>)

  /** Extensions of other types. */
  ghost predicate ValidExtensions(es: seq<Element>) {
    forall i | 0 <= i < |es| :: 0 < es[i].kind < 0x1_0000 && |es[i].data| < 0x1_0000
  }

  /** Entries that are not host names. */
  ghost predicate ValidEntries(es: seq<Element>) {
    forall i | 0 <= i < |es| :: 0 < es[i].kind < 256 && |es[i].data| < 0x1_0000
  }

  function ExtensionBytes(es: seq<Element>): seq<Byte> {
    if es == [] then [] else Bytes16(es[0].kind) + Bytes16(|es[0].data|) + es[0].data + ExtensionBytes(es[1..])
  }

  function EntryBytes(es: seq<Element>): seq<Byte>
    requires ValidEntries(es)
  {
    if es == [] then [] else [es[0].kind] + Bytes16(|es[0].data|) + es[0].data + EntryBytes(es[1..])
  }

  // ----- walking forward over what was written -----

  lemma {:induction false} ExtensionsWalked(b: seq<Byte>, offset: nat, end: nat, es: seq<Element>)
    requires ValidExtensions(es) && At(b, offset, ExtensionBytes(es) + Bytes16(0))
    requires offset + |ExtensionBytes(es)| + 4 <= end <= |b|
    ensures NameExtension(b, offset, end) == Some(offset + |ExtensionBytes(es)| + 4)
    decreases |es|
  {
    hide At;
    hide Uint16;
    if es == [] {
      assert ExtensionBytes(es) + Bytes16(0) == Bytes16(0);
      Uint16At(b, offset, 0);
    } else {
      var e, rest := es[0], ExtensionBytes(es[1..]) + Bytes16(0);
      assert ExtensionBytes(es) + Bytes16(0) == Bytes16(e.kind) + (Bytes16(|e.data|) + (e.data + rest));
      AtSplit(b, offset, Bytes16(e.kind), Bytes16(|e.data|) + (e.data + rest));
      AtSplit(b, offset + 2, Bytes16(|e.data|), e.data + rest);
      AtSplit(b, offset + 4, e.data, rest);
      Uint16At(b, offset, e.kind);
      Uint16At(b, offset + 2, |e.data|);
      ExtensionsWalked(b, offset + 4 + |e.data|, end, es[1..]);
    }
  }

  lemma {:induction false} EntriesWalked(b: seq<Byte>, cur: nat, stop: nat, es: seq<Element>, host: Text)
    requires ValidEntries(es) && |host| < 0x1_0000 && At(b, cur, EntryBytes(es) + ([0] + Bytes16(|host|) + host))
    requires cur + |EntryBytes(es)| + 3 <= stop <= |b|
    ensures HostEntry(b, cur, stop) == Some(host)
    decreases |es|
  {
    hide At;
    hide Uint16;
    hide HostEntry;
    EntryStep(b, cur, stop);
    var last := [0] + Bytes16(|host|) + host;
    if es == [] {
      assert EntryBytes(es) + last == [0] + (Bytes16(|host|) + host);
      AtSplit(b, cur, [0], Bytes16(|host|) + host);
      AtSplit(b, cur + 1, Bytes16(|host|), host);
      AtByte(b, cur, 0);
      Uint16At(b, cur + 1, |host|);
      AtSlice(b, cur + 3, host);
    } else {
      var e, rest := es[0], EntryBytes(es[1..]) + last;
      assert EntryBytes(es) + last == [e.kind] + (Bytes16(|e.data|) + (e.data + rest));
      AtSplit(b, cur, [e.kind], Bytes16(|e.data|) + (e.data + rest));
      AtSplit(b, cur + 1, Bytes16(|e.data|), e.data + rest);
      AtSplit(b, cur + 3, e.data, rest);
      AtByte(b, cur, e.kind);
      Uint16At(b, cur + 1, |e.data|);
      EntriesWalked(b, cur + 3 + |e.data|, stop, es[1..], host);
    }
  }

  lemma FixedWalked(b: seq<Byte>, p: Preamble)
    requires ValidPreamble(p) && At(b, 0, FixedBytes(p))
    ensures |b| >= 43 && b[0] == 0x16 && Uint16(b, 3) == p.recordLength && b[5] == 0x01
  {
    var f := FixedBytes(p);
    AtSlice(b, 0, f);
    assert forall i | 0 <= i < 43 :: b[i] == f[i];
  }

  lemma PreambleWalked(b: seq<Byte>, p: Preamble)
    requires ValidPreamble(p) && At(b, 0, PreambleBytes(p)) && |PreambleBytes(p)| + 2 <= |b|
    requires 5 + p.recordLength <= |b|
    ensures ExtensionsPlace(b) == There(|PreambleBytes(p)|)
  {
    hide At;
    hide FixedBytes;
    hide Uint16;
    var f, sid, cs, cm := FixedBytes(p), |p.sessionId|, Bytes16(|p.ciphers|), |p.compression|;
    AtSplit(b, 0, f + ([sid] + p.sessionId) + (cs + p.ciphers), [cm] + p.compression);
    AtSplit(b, 0, f + ([sid] + p.sessionId), cs + p.ciphers);
    AtSplit(b, 0, f, [sid] + p.sessionId);
    FixedWalked(b, p);
    AtSplit(b, 43, [sid], p.sessionId);
    AtByte(b, 43, sid);
    AtSplit(b, 44 + sid, cs, p.ciphers);
    Uint16At(b, 44 + sid, |p.ciphers|);
    AtSplit(b, 46 + sid + |p.ciphers|, [cm], p.compression);
    AtByte(b, 46 + sid + |p.ciphers|, cm);
  }

  // ----- recognising what was walked over -----

  lemma Bytes16Found(b: seq<Byte>, off: nat)
    requires off + 2 <= |b|
    ensures Bytes16(Uint16(b, off)) == b[off..off + 2] && Uint16(b, off) < 0x1_0000
  {
    var n := Uint16(b, off);
    assert n / 256 == b[off] && n % 256 == b[off + 1];
  }

  lemma {:induction false} ExtensionsFound(b: seq<Byte>, offset: nat, end: nat) returns (es: seq<Element>)
    requires NameExtension(b, offset, end).Some?
    ensures ValidExtensions(es) && NameExtension(b, offset, end) == Some(offset + |ExtensionBytes(es)| + 4)
    ensures At(b, offset, ExtensionBytes(es) + Bytes16(0))
    decreases end - offset
  {
    hide Uint16;
    hide Bytes16;
    hide At;
    Bytes16Found(b, offset);
    if Uint16(b, offset) == 0 {
      es := [];
      assert ExtensionBytes(es) + Bytes16(0) == Bytes16(0);
      SliceAt(b, offset, offset + 2);
    } else {
      var l := Uint16(b, offset + 2);
      var next := offset + 4 + l;
      Bytes16Found(b, offset + 2);
      var rest := ExtensionsFound(b, next, end);
      var e := Element(Uint16(b, offset), b[offset + 4..next]);
      es := [e] + rest;
      assert es[1..] == rest;
      var all := ExtensionBytes(rest) + Bytes16(0);
      assert ExtensionBytes(es) + Bytes16(0) == Bytes16(e.kind) + Bytes16(l) + e.data + all;
      SliceAt(b, offset, offset + 2);
      SliceAt(b, offset + 2, offset + 4);
      SliceAt(b, offset + 4, next);
      AtPrepend(b, offset, Bytes16(e.kind), Bytes16(l), e.data, all);
    }
  }

  lemma Glued(b: seq<Byte>, i: nat, j: nat, k: nat, l: nat, m: nat)
    requires i <= j <= k <= l <= m <= |b|
    ensures b[i..m] == b[i..j] + b[j..k] + b[k..l] + b[l..m]
  {
    assert b[i..k] == b[i..j] + b[j..k];
    assert b[i..l] == b[i..k] + b[k..l];
    assert b[i..m] == b[i..l] + b[l..m];
  }

  /** An element in front of what is already recognised. */
  lemma AtPrepend(b: seq<Byte>, offset: nat, kind: seq<Byte>, length: seq<Byte>, data: seq<Byte>, all: seq<Byte>)
    requires At(b, offset, kind) && At(b, offset + |kind|, length) && At(b, offset + |kind + length|, data)
    requires At(b, offset + |kind + length + data|, all)
    ensures At(b, offset, kind + length + data + all)
  {
    var i := offset + |kind|;
    Glued(b, offset, i, i + |length|, i + |length| + |data|, i + |length| + |data| + |all|);
  }

  lemma SliceAt(b: seq<Byte>, from: nat, to: nat)
    requires from <= to <= |b|
    ensures At(b, from, b[from..to])
  {
  }

  lemma {:induction false} EntriesFound(b: seq<Byte>, cur: nat, stop: nat) returns (es: seq<Element>)
    requires stop <= |b| && HostEntry(b, cur, stop).Some?
    ensures ValidEntries(es) && cur + |EntryBytes(es)| + 3 <= stop
    ensures var host := HostEntry(b, cur, stop).value;
            |host| < 0x1_0000 && At(b, cur, EntryBytes(es) + ([0] + Bytes16(|host|) + host))
    decreases stop - cur
  {
    hide Uint16;
    hide Bytes16;
    hide At;
    Bytes16Found(b, cur + 1);
    var host := HostEntry(b, cur, stop).value;
    var next := cur + 3 + Uint16(b, cur + 1);
    assert b[cur..cur + 1] == [b[cur]];
    if b[cur] == 0 {
      es := [];
      assert EntryBytes(es) + ([0] + Bytes16(|host|) + host) == [0] + Bytes16(|host|) + host + [];
      SliceAt(b, cur, cur + 1);
      SliceAt(b, cur + 1, cur + 3);
      SliceAt(b, cur + 3, next);
      SliceAt(b, next, next);
      AtPrepend(b, cur, [0], Bytes16(|host|), host, []);
    } else {
      var rest := EntriesFound(b, next, stop);
      var e := Element(b[cur], b[cur + 3..next]);
      es := [e] + rest;
      assert es[1..] == rest;
      var all := EntryBytes(rest) + ([0] + Bytes16(|host|) + host);
      assert EntryBytes(es) + ([0] + Bytes16(|host|) + host) == [e.kind] + Bytes16(|e.data|) + e.data + all;
      SliceAt(b, cur, cur + 1);
      SliceAt(b, cur + 1, cur + 3);
      SliceAt(b, cur + 3, next);
      AtPrepend(b, cur, [e.kind], Bytes16(|e.data|), e.data, all);
    }
  }

  lemma FixedFound(b: seq<Byte>, p: Preamble)
    requires |b| >= 43 && ValidPreamble(p) && b[0] == 0x16 && b[5] == 0x01 && p.recordLength == Uint16(b, 3)
    requires p.recordVersion == b[1..3] && p.handshakeLength == b[6..9] && p.versionAndRandom == b[9..43]
    ensures b[..43] == FixedBytes(p)
  {
    Bytes16Found(b, 3);
    Glued(b, 0, 1, 3, 5, 43);
    Glued(b, 5, 6, 9, 43, 43);
  }

  lemma PreambleFound(b: seq<Byte>) returns (p: Preamble)
    requires ExtensionsPlace(b).There?
    ensures ValidPreamble(p) && 5 + p.recordLength <= |b| && At(b, 0, PreambleBytes(p))
    ensures |PreambleBytes(p)| == ExtensionsPlace(b).offset
  {
    Bytes16Found(b, 3);
    var sid: nat := b[43];
    var cs := 44 + sid;
    Bytes16Found(b, cs);
    var cm := cs + 2 + Uint16(b, cs);
    var end := ExtensionsPlace(b).offset;
    p := Preamble(b[1..3], Uint16(b, 3), b[6..9], b[9..43], b[44..cs], b[cs + 2..cm], b[cm + 1..end]);
    FixedFound(b, p);
    hide Uint16;
    hide FixedBytes;
    assert b[43..cs] == [sid] + p.sessionId && b[cs..cm] == Bytes16(|p.ciphers|) + p.ciphers;
    assert b[cm..end] == [|p.compression|] + p.compression;
    Glued(b, 0, 43, cs, cm, end);
    assert b[0..43] == b[..43];
  }

  // ----- messages -----

  /** A ClientHello with its first host name; the declared lengths are free where the parser does not compare them. */
  datatype Hello = Hello(preamble: Preamble, extensionsLength: nat, before: seq<Element>, extensionLength: nat,
                         listLength: nat, entries: seq<Element>, host: Text, rest: seq<Byte>)

  ghost predicate Sized(h: Hello) {
    && ValidPreamble(h.preamble) && ValidExtensions(h.before) && ValidEntries(h.entries) && |h.host| < 0x1_0000
    && h.extensionsLength < 0x1_0000 && h.extensionLength < 0x1_0000 && h.listLength < 0x1_0000
  }

  function ListBytes(h: Hello): seq<Byte>
    requires Sized(h)
  {
    EntryBytes(h.entries) + ([0] + Bytes16(|h.host|) + h.host)
  }

  function NameBytes(h: Hello): seq<Byte>
    requires Sized(h)
  {
    ExtensionBytes(h.before) + Bytes16(0) + (Bytes16(h.extensionLength) + Bytes16(h.listLength)) + ListBytes(h)
  }

  function HelloBytes(h: Hello): seq<Byte>
    requires Sized(h)
  {
    PreambleBytes(h.preamble) + Bytes16(h.extensionsLength) + NameBytes(h) + h.rest
  }

  function ExtensionsStart(h: Hello): nat
    requires Sized(h)
  {
    |PreambleBytes(h.preamble)| + 2
  }

  function ListStart(h: Hello): nat
    requires Sized(h)
  {
    ExtensionsStart(h) + |ExtensionBytes(h.before)| + 6
  }

  /** Everything the parser insists on. */
  ghost predicate Valid(h: Hello) {
    && Sized(h)
    && 5 + h.preamble.recordLength <= |HelloBytes(h)|
    && |ExtensionBytes(h.before)| + 4 <= h.extensionsLength
    && ExtensionsStart(h) + h.extensionsLength <= |HelloBytes(h)|
    && |EntryBytes(h.entries)| + 3 <= h.listLength
    && ListStart(h) + h.listLength <= |HelloBytes(h)|
  }

  lemma NameIsFound(h: Hello)
    requires Valid(h)
    ensures RawName(HelloBytes(h)) == Some(h.host)
  {
    hide At;
    hide Uint16;
    hide PreambleBytes;
    hide ExtensionsPlace;
    hide NameExtension;
    hide HostEntry;
    hide ValidEntries;
    hide ValidExtensions;
    hide ValidPreamble;
    hide Bytes16;
    hide ExtensionBytes;
    hide EntryBytes;
    var b, pre, start := HelloBytes(h), PreambleBytes(h.preamble), ExtensionsStart(h);
    var exts, lens := ExtensionBytes(h.before) + Bytes16(0), Bytes16(h.extensionLength) + Bytes16(h.listLength);
    WholeAt(b);
    AtSplit(b, 0, pre + Bytes16(h.extensionsLength) + NameBytes(h), h.rest);
    AtSplit(b, 0, pre + Bytes16(h.extensionsLength), NameBytes(h));
    AtSplit(b, 0, pre, Bytes16(h.extensionsLength));
    PreambleWalked(b, h.preamble);
    Uint16At(b, |pre|, h.extensionsLength);
    AtSplit(b, start, exts + lens, ListBytes(h));
    AtSplit(b, start, exts, lens);
    ExtensionsWalked(b, start, start + h.extensionsLength, h.before);
    AtSplit(b, start + |exts|, Bytes16(h.extensionLength), Bytes16(h.listLength));
    Uint16At(b, start + |exts| + 2, h.listLength);
    EntriesWalked(b, ListStart(h), ListStart(h) + h.listLength, h.entries, h.host);
  }

  lemma WholeAt(b: seq<Byte>)
    ensures At(b, 0, b)
  {
  }

  lemma NamePlaced(b: seq<Byte>, h: Hello, start: nat, ext: nat, end: nat)
    requires Sized(h) && start + 2 <= ext - 2 && ext + 2 <= end <= |b|
    requires b[start..ext - 2] == ExtensionBytes(h.before) + Bytes16(0)
    requires b[ext - 2..ext] == Bytes16(h.extensionLength) && b[ext..ext + 2] == Bytes16(h.listLength)
    requires b[ext + 2..end] == ListBytes(h)
    ensures NameBytes(h) == b[start..end]
  {
    hide Bytes16;
    hide ListBytes;
    hide ExtensionBytes;
    Glued(b, start, ext - 2, ext, ext + 2, end);
    var x, y, z, l := b[start..ext - 2], b[ext - 2..ext], b[ext..ext + 2], b[ext + 2..end];
    assert x + y + z + l == x + (y + z) + l;
  }

  lemma FoundIsName(b: seq<Byte>) returns (h: Hello)
    requires RawName(b).Some?
    ensures Valid(h) && HelloBytes(h) == b && RawName(b) == Some(h.host)
  {
    hide Uint16;
    hide Bytes16;
    hide PreambleBytes;
    hide ExtensionsPlace;
    hide NameExtension;
    hide HostEntry;
    hide ValidPreamble;
    hide ValidEntries;
    hide ValidExtensions;
    hide ExtensionBytes;
    hide EntryBytes;
    var p := PreambleFound(b);
    var at := ExtensionsPlace(b).offset;
    var start, len := at + 2, Uint16(b, at);
    var before := ExtensionsFound(b, start, start + len);
    var ext := NameExtension(b, start, start + len).value;
    var stop := ext + 2 + Uint16(b, ext);
    var entries := EntriesFound(b, ext + 2, stop);
    var host := RawName(b).value;
    Bytes16Found(b, at);
    Bytes16Found(b, ext - 2);
    Bytes16Found(b, ext);
    var end := ext + 2 + |EntryBytes(entries) + ([0] + Bytes16(|host|) + host)|;
    h := Hello(p, len, before, Uint16(b, ext - 2), Uint16(b, ext), entries, host, b[end..]);
    NamePlaced(b, h, start, ext, end);
    Glued(b, 0, at, start, end, |b|);
  }

  ghost predicate Carries(b: seq<Byte>, h: Hello, host: Text) {
    Valid(h) && HelloBytes(h) == b && h.host == host
  }

  /** A name is found exactly when the message carries it. */
  lemma FoundExactly(b: seq<Byte>, host: Text)
    ensures RawName(b) == Some(host) <==> exists h :: Carries(b, h, host)
  {
    hide HelloBytes;
    hide Valid;
    hide RawName;
    if RawName(b) == Some(host) {
      var h := FoundIsName(b);
      assert Carries(b, h, host);
    }
    forall h | Carries(b, h, host) ensures RawName(b) == Some(host) {
      NameIsFound(h);
    }
  }

  /** The lengths as RFC 8446 and RFC 6066 fill them in: each counts exactly what it encloses. */
  ghost predicate Nested(h: Hello, moreNames: seq<Byte>, moreExtensions: seq<Byte>, trailing: seq<Byte>) {
    && Sized(h) && h.rest == moreNames + moreExtensions + trailing
    && h.listLength == |ListBytes(h)| + |moreNames|
    && h.extensionLength == 2 + h.listLength
    && h.extensionsLength == |ExtensionBytes(h.before)| + 4 + h.extensionLength + |moreExtensions|
    && 5 + h.preamble.recordLength == ExtensionsStart(h) + h.extensionsLength
  }

  /** Every ClientHello with a host name gives that name, lower-cased, whatever else it holds and whatever follows it. */
  lemma ClientHelloGivesItsName(fold: Text -> Text, h: Hello, moreNames: seq<Byte>, moreExtensions: seq<Byte>, trailing: seq<Byte>)
    requires Nested(h, moreNames, moreExtensions, trailing)
    ensures ServerName(fold, HelloBytes(h)) == Host(Lower(fold, h.host))
  {
    hide PreambleBytes;
    hide RawName;
    hide ExtensionsPlace;
    hide ExtensionBytes;
    hide EntryBytes;
    hide Lower;
    assert Valid(h);
    NameIsFound(h);
    PanicsExactly(fold, HelloBytes(h));
  }
}
