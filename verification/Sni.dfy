/** parseSNI of geo-sni-proxy/internal/proxy/proxy.go: the server name in a TLS ClientHello. */
module Sni {

  import opened Wrappers
  import opened Octets

  /** `Panics` is an index out of range; an empty host means that none was found. */
  datatype Outcome = Panics | Host(host: Text)

  datatype Place = Crash | Nowhere | There(offset: nat)

  // ----- what the parser computes -----

  /** Where the length of the extensions stands. */
  function ExtensionsPlace(b: seq<Byte>): (p: Place)
    ensures p.There? ==> p.offset + 2 <= |b|
  {
    if |b| < 5 || b[0] != 0x16 || |b| < 5 + Uint16(b, 3) then Nowhere
    else if |b| == 5 then Crash
    else if b[5] != 0x01 || |b| <= 43 then Nowhere
    else
      var sessionId: nat := b[43];
      var ciphers := 44 + sessionId;
      if ciphers + 2 > |b| then Nowhere
      else
        var compression := ciphers + 2 + Uint16(b, ciphers);
        if compression + 1 > |b| then Nowhere
        else
          var extensions := compression + 1 + b[compression];
          if extensions + 2 > |b| then Nowhere else There(extensions)
  }

  /** The first extension of type server_name, if the walk reaches one. */
  function NameExtension(b: seq<Byte>, offset: nat, end: nat): (r: Option<nat>)
    ensures r.Some? ==> r.value <= end <= |b|
    decreases end - offset
  {
    if offset + 4 > end || end > |b| then None
    else if Uint16(b, offset) == 0 then Some(offset + 4)
    else NameExtension(b, offset + 4 + Uint16(b, offset + 2), end)
  }

  /** The first entry of type host_name before `stop`. */
  function HostEntry(b: seq<Byte>, cur: nat, stop: nat): (r: Option<Text>)
    requires stop <= |b|
    decreases stop - cur
  {
    if cur + 3 > stop then None
    else
      var next := cur + 3 + Uint16(b, cur + 1);
      if b[cur] != 0 then HostEntry(b, next, stop)
      else if next > |b| then None
      else Some(b[cur + 3..next])
  }

  function NameList(b: seq<Byte>, offset: nat): Option<Text> {
    if offset + 2 > |b| || offset + 2 + Uint16(b, offset) > |b| then None
    else HostEntry(b, offset + 2, offset + 2 + Uint16(b, offset))
  }

  /** The name as written, if there is one. */
  function RawName(b: seq<Byte>): (r: Option<Text>) {
    var p := ExtensionsPlace(b);
    if !p.There? then None
    else
      var at := NameExtension(b, p.offset + 2, p.offset + 2 + Uint16(b, p.offset));
      if at.None? then None else NameList(b, at.value)
  }

  function ServerName(fold: Text -> Text, b: seq<Byte>): Outcome {
    if ExtensionsPlace(b).Crash? then Panics
    else if RawName(b).None? then Host([])
    else Host(Lower(fold, RawName(b).value))
  }

  /** The one input family that is read out of bounds: a bare record header of a handshake of length zero. */
  lemma PanicsExactly(fold: Text -> Text, b: seq<Byte>)
    ensures ServerName(fold, b).Panics? <==> |b| == 5 && b[0] == 0x16 && b[3] == 0 && b[4] == 0
  {
  }

  /** parseSNI; every read but the first of the body is in bounds. */
  method ParseSni(fold: Text -> Text, b: seq<Byte>) returns (o: Outcome)
    ensures o == ServerName(fold, b)
  {
    hide NameList;
    hide Lower;
    if |b| < 5 || b[0] != 0x16 {
      return Host([]);
    }
    var handshakeLen := Uint16(b, 3);
    if |b| < 5 + handshakeLen {
      return Host([]);
    }
    var offset: nat := 5;
    if offset >= |b| {
      return Panics;
    }
    if b[offset] != 0x01 {
      return Host([]);
    }
    offset := offset + 1;
    if offset + 3 > |b| {
      return Host([]);
    }
    offset := offset + 3 + 2 + 32;
    if offset >= |b| {
      return Host([]);
    }
    offset := offset + 1 + b[offset];
    if offset + 2 > |b| {
      return Host([]);
    }
    offset := offset + 2 + Uint16(b, offset);
    if offset + 1 > |b| {
      return Host([]);
    }
    offset := offset + 1 + b[offset];
    if offset + 2 > |b| {
      return Host([]);
    }
    var end := offset + 2 + Uint16(b, offset);
    offset := offset + 2;
    ghost var start := offset;
    assert RawName(b) == var at := NameExtension(b, start, end); if at.None? then None else NameList(b, at.value);
    while offset + 4 <= end && end <= |b|
      invariant NameExtension(b, start, end) == NameExtension(b, offset, end)
      decreases end - offset
    {
      var typ, l := Uint16(b, offset), Uint16(b, offset + 2);
      offset := offset + 4;
      if typ == 0x00 {
        o := ParseNameList(fold, b, offset);
        return;
      }
      offset := offset + l;
    }
    o := Host([]);
  }

  method ParseNameList(fold: Text -> Text, b: seq<Byte>, start: nat) returns (o: Outcome)
    ensures o == Host(if NameList(b, start).Some? then Lower(fold, NameList(b, start).value) else [])
  {
    hide Lower;
    hide Uint16;
    hide HostEntry;
    var offset := start;
    if offset + 2 > |b| {
      return Host([]);
    }
    var listLen := Uint16(b, offset);
    offset := offset + 2;
    if offset + listLen > |b| {
      return Host([]);
    }
    var cur := offset;
    ghost var found, end := NameList(b, start), offset + listLen;
    assert found == HostEntry(b, cur, end);
    hide NameList;
    while cur + 3 <= offset + listLen
      invariant found == HostEntry(b, cur, end)
    {
      EntryStep(b, cur, end);
      var nameType, nameLen := b[cur], Uint16(b, cur + 1);
      cur := cur + 3;
      if nameType == 0 {
        if cur + nameLen > |b| {
          return Host([]);
        }
        return Host(Lower(fold, b[cur..cur + nameLen]));
      }
      cur := cur + nameLen;
    }
    EntryStep(b, cur, end);
    o := Host([]);
  }

  /** One turn of the loop over the entries of the list. */
  lemma EntryStep(b: seq<Byte>, cur: nat, stop: nat)
    requires stop <= |b|
    ensures HostEntry(b, cur, stop) ==
            if cur + 3 > stop then None
            else if b[cur] != 0 then HostEntry(b, cur + 3 + Uint16(b, cur + 1), stop)
            else if cur + 3 + Uint16(b, cur + 1) > |b| then None
            else Some(b[cur + 3..cur + 3 + Uint16(b, cur + 1)])
  {
  }
}
