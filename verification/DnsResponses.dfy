/** buildResponse of minimdnsd/cmd/minimdnsd/main.go, read back by a resolver, and a network of such responders. */
module DnsResponses {

  import opened Wrappers
  import opened Octets
  import opened DnsNames
  import opened DnsMessages

  // ----- addresses, as net.IP holds them -----

  type Ip = seq<Byte>

  predicate Mapped(ip: Ip) {
    |ip| == 16 && (forall i | 0 <= i < 10 :: ip[i] == 0) && ip[10] == 0xff && ip[11] == 0xff
  }

  function To4(ip: Ip): (r: Option<Ip>)
    ensures r.Some? ==> |r.value| == 4
  {
    if |ip| == 4 then Some(ip) else if Mapped(ip) then Some(ip[12..]) else None
  }

  function To16(ip: Ip): (r: Option<Ip>)
    ensures r.Some? ==> |r.value| == 16
  {
    if |ip| == 4 then Some([0, 0, 0, 0, 0, 0, 0, 0, 0, 0, 0xff, 0xff] + ip) else if |ip| == 16 then Some(ip) else None
  }

  /** The address as it goes into a record of the type, if it belongs there. */
  function AnswerOf(ip: Ip, rrType: nat): (r: Option<Ip>)
    ensures r.Some? ==> (rrType == 1 && |r.value| == 4) || (rrType == 28 && |r.value| == 16)
  {
    if rrType == 1 then To4(ip) else if rrType == 28 && To4(ip).None? then To16(ip) else None
  }

  function AnswersOf(addrs: seq<Ip>, rrType: nat): (r: seq<Ip>)
    ensures forall i | 0 <= i < |r| :: |r[i]| == if rrType == 1 then 4 else 16
    ensures |r| > 0 ==> rrType == 1 || rrType == 28
  {
    if addrs == [] then []
    else
      var a := AnswerOf(addrs[0], rrType);
      (if a.Some? then [a.value] else []) + AnswersOf(addrs[1..], rrType)
  }

  // ----- which address goes where -----

  /** Four-byte addresses answer type 1 as they are, and nothing else. */
  lemma {:induction false} AnswersOfFours(addrs: seq<Ip>)
    requires forall i | 0 <= i < |addrs| :: |addrs[i]| == 4
    ensures AnswersOf(addrs, 1) == addrs && AnswersOf(addrs, 28) == []
  {
    if addrs != [] {
      AnswersOfFours(addrs[1..]);
      assert addrs == [addrs[0]] + addrs[1..];
    }
  }

  /** Sixteen-byte addresses that stand for no IPv4 address answer type 28 as they are, and nothing else. */
  lemma {:induction false} AnswersOfSixteens(addrs: seq<Ip>)
    requires forall i | 0 <= i < |addrs| :: |addrs[i]| == 16 && addrs[i][..12] != V4_PREFIX
    ensures AnswersOf(addrs, 28) == addrs && AnswersOf(addrs, 1) == []
  {
    if addrs != [] {
      MappedIsPrefixed(addrs[0]);
      AnswersOfSixteens(addrs[1..]);
      assert addrs == [addrs[0]] + addrs[1..];
    }
  }

  /** An IPv4 address in sixteen bytes answers type 1 with its last four; other lengths answer nothing. */
  lemma AnswersOfOthers(ip: Ip, rrType: nat)
    ensures |ip| == 16 && ip[..12] == V4_PREFIX ==> AnswersOf([ip], 1) == [ip[12..]] && AnswersOf([ip], 28) == []
    ensures (|ip| != 4 && |ip| != 16) || (rrType != 1 && rrType != 28) ==> AnswersOf([ip], rrType) == []
  {
    assert [ip][1..] == [];
    if |ip| == 16 { MappedIsPrefixed(ip); }
  }

  /** The twelve bytes before an IPv4 address: section 2.5.5.2 of RFC 4291. */
  const V4_PREFIX: seq<Byte> := [0, 0, 0, 0, 0, 0, 0, 0, 0, 0, 0xff, 0xff]

  lemma MappedIsPrefixed(ip: Ip)
    requires |ip| == 16
    ensures Mapped(ip) <==> ip[..12] == V4_PREFIX
  {
    if Mapped(ip) {
      forall i | 0 <= i < 12 ensures ip[..12][i] == V4_PREFIX[i] { }
    }
    if ip[..12] == V4_PREFIX {
      forall i | 0 <= i < 12 ensures ip[i] == V4_PREFIX[i] { assert ip[i] == ip[..12][i]; }
    }
  }

  // ----- which addresses an interface offers -----

  predicate AllZero(ip: Ip) {
    forall i | 0 <= i < |ip| :: ip[i] == 0
  }

  /** net.IP.IsUnspecified */
  predicate IsUnspecified(ip: Ip) {
    (|ip| == 16 && AllZero(ip)) || (To4(ip).Some? && AllZero(To4(ip).value))
  }

  /** net.IP.IsMulticast */
  predicate IsMulticast(ip: Ip) {
    if To4(ip).Some? then To4(ip).value[0] / 16 == 0xe else |ip| == 16 && ip[0] == 0xff
  }

  /** net.IP.IsLoopback */
  predicate IsLoopback(ip: Ip) {
    if To4(ip).Some? then To4(ip).value[0] == 127 else |ip| == 16 && AllZero(ip[..15]) && ip[15] == 1
  }

  /** net.IP.IsLinkLocalUnicast */
  predicate IsLinkLocal(ip: Ip) {
    if To4(ip).Some? then To4(ip).value[0] == 169 && To4(ip).value[1] == 254
    else |ip| == 16 && ip[0] == 0xfe && ip[1] / 64 == 2
  }

  /** isUsableIPv6 */
  predicate IsUsableIPv6(ip: Ip) {
    To16(ip).Some? && To4(ip).None? && !IsLoopback(ip) && !IsLinkLocal(ip)
  }

  /** One turn of ifaceUsableIPs; an empty sequence is the nil address. */
  function Offered(ip: Ip, wantV6: bool): (r: Option<Ip>) {
    if ip == [] || IsUnspecified(ip) || IsMulticast(ip) then None
    else if wantV6 then (if To4(ip).Some? || !IsUsableIPv6(ip) then None else Some(ip))
    else if To4(ip).None? || To4(ip).value[0] == 127 then None
    else To4(ip)
  }

  function AllOffered(addrs: seq<Ip>, wantV6: bool): (r: seq<Ip>) {
    if addrs == [] then []
    else (if Offered(addrs[0], wantV6).Some? then [Offered(addrs[0], wantV6).value] else []) + AllOffered(addrs[1..], wantV6)
  }

  /** ifaceUsableIPs: the first three. */
  function UsableOf(addrs: seq<Ip>, wantV6: bool): (r: seq<Ip>)
    ensures |r| <= 3
  {
    var all := AllOffered(addrs, wantV6);
    if |all| > 3 then all[..3] else all
  }

  lemma {:induction false} OfferedAppend(addrs: seq<Ip>, more: seq<Ip>, wantV6: bool)
    ensures AllOffered(addrs + more, wantV6) == AllOffered(addrs, wantV6) + AllOffered(more, wantV6)
  {
    hide Offered;
    if addrs == [] {
      assert addrs + more == more;
    } else {
      OfferedAppend(addrs[1..], more, wantV6);
      assert (addrs + more)[1..] == addrs[1..] + more;
    }
  }

  method UsableIps(addrs: seq<Ip>, wantV6: bool) returns (out: seq<Ip>)
    ensures out == UsableOf(addrs, wantV6)
  {
    hide IsMulticast;
    hide IsUnspecified;
    hide IsUsableIPv6;
    out := [];
    for i := 0 to |addrs|
      invariant out == AllOffered(addrs[..i], wantV6) && |out| < 3
    {
      var ip := addrs[i];
      var one: seq<Ip> := [ip];
      OfferedAppend(addrs[..i], one, wantV6);
      OfferedAppend(addrs[..i + 1], addrs[i + 1..], wantV6);
      assert one[1..] == [] && addrs[..i + 1] == addrs[..i] + one && addrs[..i + 1] + addrs[i + 1..] == addrs;
      if ip == [] || IsUnspecified(ip) || IsMulticast(ip) {
        continue;
      }
      if wantV6 {
        if To4(ip).Some? || !IsUsableIPv6(ip) {
          continue;
        }
      } else {
        var v4 := To4(ip);
        if v4.None? || v4.value[0] == 127 {
          continue;
        }
        ip := v4.value;
      }
      out := out + [ip];
      if |out| >= 3 {
        return;
      }
    }
    assert addrs[..|addrs|] == addrs;
  }

  /** What may be announced over IPv4: no 0.0.0.0, no 127.0.0.0/8, no 224.0.0.0/4. */
  ghost predicate Announced4(v4: Ip) {
    |v4| == 4 && v4 != [0, 0, 0, 0] && v4[0] != 127 && !(224 <= v4[0] <= 239)
  }

  const ZEROS15: seq<Byte> := [0, 0, 0, 0, 0, 0, 0, 0, 0, 0, 0, 0, 0, 0, 0]

  /** What may be announced over IPv6: nothing mapped, no ::, no ::1, no ff00::/8, no fe80::/10. */
  ghost predicate Announced6(v6: Ip) {
    && |v6| == 16 && v6[..12] != V4_PREFIX && v6 != ZEROS15 + [0] && v6 != ZEROS15 + [1]
    && v6[0] != 0xff && !(v6[0] == 0xfe && 0x80 <= v6[1] <= 0xbf)
  }

  lemma OfferedExactly4(ip: Ip, v4: Ip)
    ensures Offered(ip, false) == Some(v4) <==> Announced4(v4) && (ip == v4 || ip == V4_PREFIX + v4)
  {
    if |ip| == 16 {
      MappedIsPrefixed(ip);
      assert ip == ip[..12] + ip[12..];
    }
    if |v4| == 4 { MappedFour(v4); }
    if To4(ip).Some? { FourZeros(To4(ip).value); }
  }

  lemma MappedFour(v4: Ip)
    requires |v4| == 4
    ensures To4(V4_PREFIX + v4) == Some(v4) && To4(v4) == Some(v4)
  {
    var ip := V4_PREFIX + v4;
    assert ip[..12] == V4_PREFIX && ip[12..] == v4;
    MappedIsPrefixed(ip);
  }

  lemma FourZeros(v4: Ip)
    requires |v4| == 4
    ensures AllZero(v4) <==> v4 == [0, 0, 0, 0]
  {
  }

  lemma OfferedExactly6(ip: Ip, v6: Ip)
    ensures Offered(ip, true) == Some(v6) <==> ip == v6 && Announced6(v6)
  {
    if |ip| == 16 {
      MappedIsPrefixed(ip);
      SixteenZeros(ip);
    }
  }

  lemma SixteenZeros(ip: Ip)
    requires |ip| == 16
    ensures AllZero(ip) <==> ip == ZEROS15 + [0]
    ensures AllZero(ip[..15]) && ip[15] == 1 <==> ip == ZEROS15 + [1]
  {
    assert ip == ip[..15] + [ip[15]];
    if AllZero(ip[..15]) { assert ip[..15] == ZEROS15; }
    if AllZero(ip) { assert AllZero(ip[..15]); }
    assert ip == ZEROS15 + [ip[15]] ==> ip[..15] == ZEROS15;
  }

  /** An address is offered exactly if some address of the interface stands for it and it may be announced. */
  lemma {:induction false} OffersExactly(addrs: seq<Ip>, wantV6: bool, a: Ip)
    ensures a in AllOffered(addrs, wantV6) <==> exists i :: 0 <= i < |addrs| && Offered(addrs[i], wantV6) == Some(a)
  {
    hide Offered;
    if addrs != [] {
      OffersExactly(addrs[1..], wantV6, a);
      if exists i :: 0 <= i < |addrs| && Offered(addrs[i], wantV6) == Some(a) {
        var i :| 0 <= i < |addrs| && Offered(addrs[i], wantV6) == Some(a);
        if i > 0 { assert addrs[1..][i - 1] == addrs[i]; }
      }
      if exists i :: 0 <= i < |addrs[1..]| && Offered(addrs[1..][i], wantV6) == Some(a) {
        var i :| 0 <= i < |addrs[1..]| && Offered(addrs[1..][i], wantV6) == Some(a);
        assert addrs[i + 1] == addrs[1..][i];
      }
      assert Offered(addrs[0], wantV6) == Some(a) ==> exists i :: 0 <= i < |addrs| && Offered(addrs[i], wantV6) == Some(a);
    }
  }

  /** The addresses offered belong to the family, so they are announced as they are. */
  lemma UsableAreAnnounced(addrs: seq<Ip>, wantV6: bool)
    ensures forall i | 0 <= i < |UsableOf(addrs, wantV6)| ::
              if wantV6 then Announced6(UsableOf(addrs, wantV6)[i]) else Announced4(UsableOf(addrs, wantV6)[i])
    ensures AnswersOf(UsableOf(addrs, wantV6), if wantV6 then 28 else 1) == UsableOf(addrs, wantV6)
    ensures UsableOf(addrs, wantV6) <= AllOffered(addrs, wantV6)
    ensures |UsableOf(addrs, wantV6)| == 3 || UsableOf(addrs, wantV6) == AllOffered(addrs, wantV6)
  {
    hide Offered;
    hide AllOffered;
    hide AnswersOf;
    var us := UsableOf(addrs, wantV6);
    forall i | 0 <= i < |us| ensures if wantV6 then Announced6(us[i]) else Announced4(us[i]) {
      assert us[i] in AllOffered(addrs, wantV6);
      OffersExactly(addrs, wantV6, us[i]);
      var k :| 0 <= k < |addrs| && Offered(addrs[k], wantV6) == Some(us[i]);
      if wantV6 { OfferedExactly6(addrs[k], us[i]); } else { OfferedExactly4(addrs[k], us[i]); }
    }
    if wantV6 { AnswersOfSixteens(us); } else { AnswersOfFours(us); }
  }

  // ----- what buildResponse computes -----

  const CLASS_IN_FLUSH: nat := 0x8001
  const TTL: nat := 240

  predicate Short(ips: seq<Ip>) {
    forall i | 0 <= i < |ips| :: |ips[i]| < 0x1_0000
  }

  function RecordTail(rrType: nat, ip: Ip): (b: seq<Byte>)
    requires |ip| < 0x1_0000
    ensures |b| == 10 + |ip|
  {
    Bytes16(rrType) + Bytes16(CLASS_IN_FLUSH) + BigEndian(TTL, 4) + Bytes16(|ip|) + ip
  }

  function RecordBytes(enc: seq<Byte>, rrType: nat, ips: seq<Ip>): (b: seq<Byte>)
    requires Short(ips)
    ensures |b| >= 10 * |ips|
  {
    if ips == [] then [] else enc + RecordTail(rrType, ips[0]) + RecordBytes(enc, rrType, ips[1..])
  }

  /** The answer count goes through a 16-bit field. */
  function ResponseHeader(id: nat, answers: nat): Header {
    Header(id, 0x8400, 0, answers % 0x1_0000, 0, 0)
  }

  function ResponseBytes(id: nat, enc: seq<Byte>, rrType: nat, ips: seq<Ip>): seq<Byte>
    requires Short(ips)
  {
    HeaderBytes(ResponseHeader(id, |ips|)) + RecordBytes(enc, rrType, ips)
  }

  /** An empty packet means that nothing is sent. */
  function Response(id: nat, name: Text, addrs: seq<Ip>, rrType: nat): (r: Fallible<seq<Byte>>) {
    if addrs == [] then Ok([])
    else
      var enc := Encoded(name);
      if enc.Err? then Err(enc.error)
      else
        var answers := AnswersOf(addrs, rrType);
        if answers == [] then Ok([])
        else
          var packet := ResponseBytes(id, enc.value, rrType, answers);
          if |packet| > MAX_PACKET_SIZE then Err(ResponseTooLarge) else Ok(packet)
  }

  lemma {:induction false} AnswersAppend(addrs: seq<Ip>, ip: Ip, rrType: nat)
    ensures AnswersOf(addrs + [ip], rrType) ==
            AnswersOf(addrs, rrType) + if AnswerOf(ip, rrType).Some? then [AnswerOf(ip, rrType).value] else []
  {
    if addrs == [] {
      assert addrs + [ip] == [ip] && [ip][1..] == [];
    } else {
      AnswersAppend(addrs[1..], ip, rrType);
      assert (addrs + [ip])[1..] == addrs[1..] + [ip];
    }
  }

  lemma {:induction false} RecordsAppend(enc: seq<Byte>, rrType: nat, ips: seq<Ip>, more: seq<Ip>)
    requires Short(ips) && Short(more)
    ensures Short(ips + more)
    ensures RecordBytes(enc, rrType, ips + more) == RecordBytes(enc, rrType, ips) + RecordBytes(enc, rrType, more)
  {
    hide RecordTail;
    if ips == [] {
      assert ips + more == more;
    } else {
      assert (ips + more)[1..] == ips[1..] + more;
      RecordsAppend(enc, rrType, ips[1..], more);
    }
  }

  // ----- buildResponse -----

  method Answers(addrs: seq<Ip>, rrType: nat) returns (answers: seq<Ip>)
    ensures answers == AnswersOf(addrs, rrType)
  {
    answers := [];
    for i := 0 to |addrs|
      invariant answers == AnswersOf(addrs[..i], rrType)
    {
      var ip := addrs[i];
      AnswersAppend(addrs[..i], ip, rrType);
      assert addrs[..i + 1] == addrs[..i] + [ip];
      if rrType == 1 && To4(ip).Some? {
        answers := answers + [To4(ip).value];
      }
      if rrType == 28 && To4(ip).None? && To16(ip).Some? {
        answers := answers + [To16(ip).value];
      }
    }
    assert addrs[..|addrs|] == addrs;
  }

  method BuildResponse(id: nat, name: Text, addrs: seq<Ip>, rrType: nat) returns (r: Fallible<seq<Byte>>)
    ensures r == Response(id, name, addrs, rrType)
  {
    if |addrs| == 0 {
      return Ok([]);
    }
    var enc := EncodeName(name);
    if enc.Err? {
      return Err(enc.error);
    }
    var answers := Answers(addrs, rrType);
    if |answers| == 0 {
      return Ok([]);
    }
    r := Assemble(id, enc.value, rrType, answers);
  }

  /** The packet, given up as soon as it has grown too large. */
  method Assemble(id: nat, enc: seq<Byte>, rrType: nat, ips: seq<Ip>) returns (r: Fallible<seq<Byte>>)
    requires Short(ips) && ips != []
    ensures var packet := ResponseBytes(id, enc, rrType, ips);
            r == if |packet| > MAX_PACKET_SIZE then Err(ResponseTooLarge) else Ok(packet)
  {
    hide RecordTail;
    hide HeaderBytes;
    hide RecordBytes;
    var header := HeaderBytes(ResponseHeader(id, |ips|));
    var packet := header;
    NoRecords(enc, rrType);
    for i := 0 to |ips|
      invariant packet == header + RecordBytes(enc, rrType, ips[..i])
      invariant i > 0 ==> |packet| <= MAX_PACKET_SIZE
    {
      ghost var before := packet;
      packet := packet + enc + RecordTail(rrType, ips[i]);
      assert packet == before + (enc + RecordTail(rrType, ips[i]));
      OneMore(enc, rrType, ips, i);
      if |packet| > MAX_PACKET_SIZE {
        return Err(ResponseTooLarge);
      }
    }
    assert ips[..|ips|] == ips;
    r := Ok(packet);
  }

  lemma NoRecords(enc: seq<Byte>, rrType: nat)
    ensures RecordBytes(enc, rrType, []) == []
  {
  }

  lemma OneMore(enc: seq<Byte>, rrType: nat, ips: seq<Ip>, i: nat)
    requires Short(ips) && i < |ips|
    ensures RecordBytes(enc, rrType, ips[..i + 1]) == RecordBytes(enc, rrType, ips[..i]) + (enc + RecordTail(rrType, ips[i]))
    ensures |RecordBytes(enc, rrType, ips[..i + 1])| <= |RecordBytes(enc, rrType, ips)|
  {
    hide RecordTail;
    var one: seq<Ip> := [ips[i]];
    assert ips[..i + 1] == ips[..i] + one && |one[1..]| == 0;
    RecordsAppend(enc, rrType, ips[..i], one);
    assert ips == ips[..i + 1] + ips[i + 1..];
    RecordsAppend(enc, rrType, ips[..i + 1], ips[i + 1..]);
  }

  // ----- what a resolver reads: RFC 1035, section 4.1.3 -----

  datatype Record = Record(name: Text, rrType: nat, rrClass: nat, ttl: nat, data: seq<Byte>)
  datatype Read = Read(records: seq<Record>, next: nat)

  function RecordsFrom(fold: Text -> Text, packet: seq<Byte>, off: nat, count: nat): (r: Option<Read>)
    decreases count
  {
    if count == 0 then Some(Read([], off))
    else
      var name := NameAt(fold, packet, off);
      if name.Err? || name.value.next + 10 > |packet| then None
      else
        var at := name.value.next;
        var end := at + 10 + Uint16(packet, at + 8);
        if end > |packet| then None
        else
          var rest := RecordsFrom(fold, packet, end, count - 1);
          if rest.None? then None
          else
            var first := Record(name.value.name, Uint16(packet, at), Uint16(packet, at + 2),
                                Number(packet[at + 4..at + 8]), packet[at + 10..end]);
            Some(Read([first] + rest.value.records, rest.value.next))
  }

  /** Class IN with the cache-flush bit of RFC 6762, section 10.2, and four minutes to live. */
  function AddressRecords(fold: Text -> Text, name: Text, rrType: nat, ips: seq<Ip>): seq<Record> {
    if ips == [] then []
    else [Record(Lower(fold, name), rrType, 0x8001, 240, ips[0])] + AddressRecords(fold, name, rrType, ips[1..])
  }

  lemma TailReads(packet: seq<Byte>, at: nat, rrType: nat, ip: Ip)
    requires rrType < 0x1_0000 && |ip| < 0x1_0000 && At(packet, at, RecordTail(rrType, ip))
    ensures at + 10 + |ip| <= |packet| && Uint16(packet, at) == rrType && Uint16(packet, at + 2) == CLASS_IN_FLUSH
    ensures Number(packet[at + 4..at + 8]) == TTL
    ensures Uint16(packet, at + 8) == |ip| && packet[at + 10..at + 10 + |ip|] == ip
  {
    hide At;
    var a, b, c, d := Bytes16(rrType), Bytes16(CLASS_IN_FLUSH), BigEndian(TTL, 4), Bytes16(|ip|);
    AtSplit(packet, at, a + b + c + d, ip);
    AtSplit(packet, at, a + b + c, d);
    AtSplit(packet, at, a + b, c);
    AtSplit(packet, at, a, b);
    Uint16At(packet, at, rrType);
    Uint16At(packet, at + 2, CLASS_IN_FLUSH);
    AtSlice(packet, at + 4, c);
    SmallPowers();
    NumberBigEndian(TTL, 4);
    Uint16At(packet, at + 8, |ip|);
    AtSlice(packet, at + 10, ip);
  }

  lemma {:induction false} RecordsRead(fold: Text -> Text, packet: seq<Byte>, off: nat, name: Text, rrType: nat, ips: seq<Ip>)
    requires Encoded(name).Ok? && rrType < 0x1_0000 && Short(ips)
    requires At(packet, off, RecordBytes(Encoded(name).value, rrType, ips))
    ensures RecordsFrom(fold, packet, off, |ips|) ==
            Some(Read(AddressRecords(fold, name, rrType, ips), off + |RecordBytes(Encoded(name).value, rrType, ips)|))
    decreases |ips|
  {
    hide At;
    hide Encoded;
    hide NameAt;
    hide RecordTail;
    hide Uint16;
    hide Lower;
    if ips != [] {
      var enc := Encoded(name).value;
      var tail, rest := RecordTail(rrType, ips[0]), RecordBytes(enc, rrType, ips[1..]);
      AtSplit(packet, off, enc + tail, rest);
      AtSplit(packet, off, enc, tail);
      NameRoundTrip(fold, name, packet, off);
      TailReads(packet, off + |enc|, rrType, ips[0]);
      RecordsRead(fold, packet, off + |enc| + |tail|, name, rrType, ips[1..]);
    }
  }

  /** Every packet sent fits, counts its answers exactly and is read as those addresses, in order, to its end. */
  lemma ResponsesAreRead(fold: Text -> Text, id: nat, name: Text, addrs: seq<Ip>, rrType: nat)
    requires id < 0x1_0000 && Response(id, name, addrs, rrType).Ok? && Response(id, name, addrs, rrType).value != []
    ensures var packet, ips := Response(id, name, addrs, rrType).value, AnswersOf(addrs, rrType);
            && 12 <= |packet| <= 9036
            && HeaderOf(packet) == Header(id, 0x8400, 0, |ips|, 0, 0)
            && RecordsFrom(fold, packet, 12, |ips|) == Some(Read(AddressRecords(fold, name, rrType, ips), |packet|))
  {
    hide Encoded;
    hide HeaderBytes;
    hide HeaderOf;
    hide RecordsFrom;
    hide AddressRecords;
    hide RecordBytes;
    hide AnswersOf;
    var packet, ips, enc := Response(id, name, addrs, rrType).value, AnswersOf(addrs, rrType), Encoded(name).value;
    var header := ResponseHeader(id, |ips|);
    assert packet == HeaderBytes(header) + RecordBytes(enc, rrType, ips);
    assert packet[0..12] == HeaderBytes(header) && packet[12..|packet|] == RecordBytes(enc, rrType, ips);
    HeaderRoundTrip(packet, header);
    RecordsRead(fold, packet, 12, name, rrType, ips);
  }

  // ----- a network of responders -----

  /** A listener of one family on an interface with these addresses. */
  datatype Responder = Responder(host: Text, ipv6: bool, addrs: seq<Ip>)

  /** One turn of serveUDP: what is sent for a packet that comes from the interface's subnet. */
  function Replies(fold: Text -> Text, r: Responder, packet: seq<Byte>): seq<seq<Byte>> {
    var p := IntentOf(fold, packet, r.host);
    if p.Err? then []
    else
      Twice(if p.value.intent.wantA && !r.ipv6 then Response(p.value.header.id, r.host, UsableOf(r.addrs, false), 1) else Ok([]))
      + Twice(if p.value.intent.wantAAAA && r.ipv6 then Response(p.value.header.id, r.host, UsableOf(r.addrs, true), 28) else Ok([]))
  }

  /** To the sender and to the group; an error or an empty packet sends nothing. */
  function Twice(r: Fallible<seq<Byte>>): seq<seq<Byte>> {
    if r.Ok? && r.value != [] then [r.value, r.value] else []
  }

  lemma {:induction false} RecordsSize(enc: seq<Byte>, rrType: nat, ips: seq<Ip>)
    requires |enc| <= MAX_NAME_LENGTH + 1 && forall i | 0 <= i < |ips| :: |ips[i]| <= 16
    ensures |RecordBytes(enc, rrType, ips)| <= 282 * |ips|
  {
    hide RecordTail;
    if ips != [] {
      RecordsSize(enc, rrType, ips[1..]);
    }
  }

  lemma {:induction false} AnswersCount(addrs: seq<Ip>, rrType: nat)
    ensures |AnswersOf(addrs, rrType)| <= |addrs|
  {
    if addrs != [] {
      AnswersCount(addrs[1..], rrType);
    }
  }

  /** With at most thirty addresses (an interface offers three) a response always fits. */
  lemma ResponseFits(id: nat, name: Text, addrs: seq<Ip>, rrType: nat)
    requires Encoded(name).Ok? && |addrs| <= 30 && AnswersOf(addrs, rrType) != []
    ensures Response(id, name, addrs, rrType) == Ok(ResponseBytes(id, Encoded(name).value, rrType, AnswersOf(addrs, rrType)))
  {
    hide RecordBytes;
    AnswersCount(addrs, rrType);
    EncodableExactly(name);
    RecordsSize(Encoded(name).value, rrType, AnswersOf(addrs, rrType));
  }

  /** The record type a responder answers for, and the addresses it has for it. */
  function Family(r: Responder): nat {
    if r.ipv6 then 28 else 1
  }

  function Usable(r: Responder): seq<Ip> {
    UsableOf(r.addrs, r.ipv6)
  }

  /** The reply, sent twice, carries the query's id and is read as exactly these addresses of the host. */
  ghost predicate IsAnswer(fold: Text -> Text, r: Responder, id: nat, p: seq<Byte>) {
    && |p| >= 12 && HeaderOf(p).id == id && HeaderOf(p).anCount == |Usable(r)|
    && RecordsFrom(fold, p, 12, |Usable(r)|) == Some(Read(AddressRecords(fold, r.host, Family(r), Usable(r)), |p|))
  }

  /**
    From question to answer: a query is answered exactly when it asks this host for the
    listener's family and the interface offers an address; the answer is the offered addresses.
   */
  lemma QueryIsAnswered(fold: Text -> Text, r: Responder, h: Header, qs: seq<Question>, trailing: seq<Byte>) returns (p: seq<Byte>)
    requires Sendable(h) && h.flags < 0x8000 && AllAskable(qs) && h.qdCount == |qs| && Encoded(r.host).Ok?
    ensures Replies(fold, r, HeaderBytes(h) + QuestionBytes(qs) + trailing) ==
            if Wanted(fold, qs, r.host, Family(r)) && Usable(r) != [] then [p, p] else []
    ensures Wanted(fold, qs, r.host, Family(r)) && Usable(r) != [] ==> IsAnswer(fold, r, h.id, p)
  {
    hide Encoded;
    hide HeaderBytes;
    hide QuestionBytes;
    hide HeaderOf;
    hide IntentOf;
    hide RecordsFrom;
    hide AddressRecords;
    hide AnswersOf;
    hide Response;
    hide Wanted;
    hide UsableOf;
    QueryIsUnderstood(fold, h, qs, trailing, r.host);
    UsableAreAnnounced(r.addrs, r.ipv6);
    p := [];
    if Usable(r) == [] {
      NothingToSay(h.id, r.host, Family(r));
    } else {
      ResponseFits(h.id, r.host, Usable(r), Family(r));
      p := Response(h.id, r.host, Usable(r), Family(r)).value;
      SomethingSent(h.id, r.host, Usable(r), Family(r));
      ResponsesAreRead(fold, h.id, r.host, Usable(r), Family(r));
    }
  }

  lemma NothingToSay(id: nat, name: Text, rrType: nat)
    ensures Response(id, name, [], rrType) == Ok([])
  {
  }

  lemma SomethingSent(id: nat, name: Text, addrs: seq<Ip>, rrType: nat)
    requires Encoded(name).Ok? && |addrs| <= 30 && AnswersOf(addrs, rrType) != []
    ensures Response(id, name, addrs, rrType).Ok? && Response(id, name, addrs, rrType).value != []
  {
    ResponseFits(id, name, addrs, rrType);
  }

  /** A packet in the network, and how many replies led to it. */
  datatype Message = Message(packet: seq<Byte>, generation: nat)

  datatype Event = Inject(packet: seq<Byte>) | Deliver(message: Message, to: Responder)

  type Network = set<Message>

  /** Multicast packets stay there for every other responder to receive. */
  ghost predicate Step(fold: Text -> Text, before: Network, e: Event, after: Network) {
    match e
    case Inject(packet) => after == before + {Message(packet, 0)}
    case Deliver(m, to) =>
      && m in before
      && after == before + set p | p in Replies(fold, to, m.packet) :: Message(p, m.generation + 1)
  }

  ghost predicate Reachable(fold: Text -> Text, events: seq<Event>, net: Network) {
    if events == [] then net == {}
    else
      var past, last := events[..|events| - 1], events[|events| - 1];
      exists before :: Reachable(fold, past, before) && Step(fold, before, last, net)
  }

  ghost predicate Quiet(m: Message) {
    m.generation == 0 || (m.generation == 1 && |m.packet| >= 12 && IsResponse(HeaderOf(m.packet)))
  }

  /** What a responder sends, every responder understands as a response. */
  lemma RepliesAreResponses(fold: Text -> Text, r: Responder, packet: seq<Byte>, p: seq<Byte>)
    requires p in Replies(fold, r, packet)
    ensures |p| >= 12 && IsResponse(HeaderOf(p))
  {
    hide Response;
    hide IntentOf;
    hide RecordsFrom;
    var q := IntentOf(fold, packet, r.host).value;
    IntentId(fold, packet, r.host);
    if p in Twice(if q.intent.wantA && !r.ipv6 then Response(q.header.id, r.host, UsableOf(r.addrs, false), 1) else Ok([])) {
      ResponsesAreRead(fold, q.header.id, r.host, UsableOf(r.addrs, false), 1);
    } else {
      ResponsesAreRead(fold, q.header.id, r.host, UsableOf(r.addrs, true), 28);
    }
  }

  lemma IntentId(fold: Text -> Text, packet: seq<Byte>, host: Text)
    ensures IntentOf(fold, packet, host).Ok? ==> IntentOf(fold, packet, host).value.header.id < 0x1_0000
  {
    hide QuestionsFrom;
  }

  /** A response has no intent, so it is never answered. */
  lemma ResponsesAreNotAnswered(fold: Text -> Text, r: Responder, packet: seq<Byte>)
    requires |packet| >= 12 && IsResponse(HeaderOf(packet))
    ensures IntentOf(fold, packet, r.host) == Ok(Parsed(HeaderOf(packet), Intent(false, false)))
    ensures Replies(fold, r, packet) == []
  {
    hide HeaderOf;
  }

  /** In every run every packet was injected or answers an injected one: the responders never answer each other. */
  lemma {:induction false} NoConversation(fold: Text -> Text, events: seq<Event>, net: Network)
    requires Reachable(fold, events, net)
    ensures forall m | m in net :: Quiet(m)
  {
    hide Replies;
    hide HeaderOf;
    if events != [] {
      var e := events[|events| - 1];
      var before :| Reachable(fold, events[..|events| - 1], before) && Step(fold, before, e, net);
      NoConversation(fold, events[..|events| - 1], before);
      forall m | m in net && m !in before ensures Quiet(m) {
        if e.Deliver? {
          RepliesAreResponses(fold, e.to, e.message.packet, m.packet);
          assert Quiet(e.message);
          if e.message.generation == 1 {
            ResponsesAreNotAnswered(fold, e.to, e.message.packet);
            assert false;
          }
        }
      }
    }
  }
}
