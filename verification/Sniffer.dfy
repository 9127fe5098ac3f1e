/**
 * The TLS server-name sniffer, working on peeked bytes of a connection.
 *
 * Its independent partner is a builder of well-formed ClientHello records (section 4.1.2 of
 * RFC 8446, with the server_name extension of section 3 of RFC 6066).
 */
module Sniffer {
  import opened Bytes

  /** The size of a `bufio.Reader`: no Peek can see further. */
  const BUF_SIZE := 4096

  /** `stop` is the position right after the server_name extension that gave the name. */
  datatype Sniffed = NoName | Found(name: seq<byte>, stop: nat)

  function Extensions(d: seq<byte>, pos: nat, end: nat): (r: Sniffed)
    requires end <= |d|
    ensures r.Found? ==> pos + 9 <= r.stop <= end
    decreases end - pos
  {
    if pos + 4 > end then NoName
    else
      var kind, len, body := GetU16(d, pos), GetU16(d, pos + 2), pos + 4;
      if kind != 0 then Extensions(d, body + len, end)
      else if body + len > end || len < 5 then NoName
      else
        var nameLen := GetU16(d, body + 3);
        if 5 + nameLen > len then NoName
        else Found(d[body + 5..body + 5 + nameLen], body + len)
  }

  /** The position of the extension list's length field, if the bytes before it are there. */
  function ExtensionsAt(d: seq<byte>): (p: nat)
    ensures p == 0 || 42 <= p <= |d| - 2
  {
    if |d| < 39 || d[0] != 1 then 0
    else
      var p1 := 39 + (d[38] as int);
      if |d| < p1 + 2 then 0
      else
        var p2 := p1 + 2 + GetU16(d, p1);
        if |d| < p2 + 1 then 0
        else
          var p3 := p2 + 1 + d[p2];
          if |d| < p3 + 2 then 0 else p3
  }

  function ParseHello(d: seq<byte>): (r: Sniffed)
    ensures r.Found? ==> r.stop <= |d|
  {
    var p := ExtensionsAt(d);
    if p == 0 then NoName else Extensions(d, p + 2, Min(p + 2 + GetU16(d, p), |d|))
  }

  /** What the sniffer gets to look at of the bytes `s` that arrive in time. */
  function Visible(s: seq<byte>): (v: seq<byte>)
    requires |s| >= 5
    ensures v <= s && 5 <= |v|
  {
    var total := 5 + Min(GetU16(s, 3), 4096);
    if total <= Min(|s|, BUF_SIZE) then s[..total] else s[..Min(|s|, BUF_SIZE)]
  }

  function SniffTLS(s: seq<byte>): Sniffed {
    if |s| < 5 then NoName else ParseHello(Visible(s)[5..])
  }

  // ----- cutting the input short -----

  lemma {:induction false} ExtensionsCut(f: seq<byte>, m: nat, pos: nat, lim: nat)
    requires m <= |f|
    ensures var r := Extensions(f, pos, Min(lim, |f|));
            Extensions(f[..m], pos, Min(lim, m)) == if r.Found? && r.stop <= m then r else NoName
    decreases |f| - pos
  {
    hide GetU16;
    var end := Min(lim, m);
    if pos + 4 <= end {
      U16Prefix(f, m, pos);
      U16Prefix(f, m, pos + 2);
      var len := GetU16(f, pos + 2);
      if GetU16(f, pos) != 0 {
        ExtensionsCut(f, m, pos + 4 + len, lim);
      } else if pos + 4 + len <= end && len >= 5 {
        U16Prefix(f, m, pos + 7);
      }
    }
  }

  lemma U16Prefix(f: seq<byte>, m: nat, pos: nat)
    requires pos + 2 <= m <= |f|
    ensures GetU16(f[..m], pos) == GetU16(f, pos)
  {
  }

  lemma ExtensionsAtCut(f: seq<byte>, m: nat)
    requires m <= |f|
    ensures var p := ExtensionsAt(f);
            ExtensionsAt(f[..m]) == if p + 2 <= m then p else 0
  {
    var d := f[..m];
    if |d| >= 39 && d[0] == 1 {
      var p1 := 39 + (d[38] as int);
      if |d| >= p1 + 2 {
        assert GetU16(d, p1) == GetU16(f, p1);
      }
    }
  }

  /** On a prefix the result is the same if the extension is wholly there, and nothing otherwise. */
  lemma HelloCut(f: seq<byte>, m: nat)
    requires m <= |f|
    ensures var r := ParseHello(f);
            ParseHello(f[..m]) == if r.Found? && r.stop <= m then r else NoName
  {
    hide ExtensionsAt, Extensions;
    var p := ExtensionsAt(f);
    ExtensionsAtCut(f, m);
    if p != 0 {
      var lim := p + 2 + GetU16(f, p);
      if p + 2 <= m {
        assert GetU16(f[..m], p) == GetU16(f, p);
        ExtensionsCut(f, m, p + 2, lim);
      }
    }
  }

  /** Once a name has been found, more bytes never change it. */
  lemma SniffMonotone(s: seq<byte>, s': seq<byte>)
    requires s <= s' && SniffTLS(s).Found?
    ensures SniffTLS(s') == SniffTLS(s)
  {
    hide ParseHello;
    assert GetU16(s', 3) == GetU16(s, 3);
    var v, v' := Visible(s), Visible(s');
    assert v <= v';
    HelloCut(v'[5..], |v| - 5);
    assert v'[5..][..|v| - 5] == v[5..];
  }

  // ----- well-formed ClientHello records -----

  datatype Ext = Ext(kind: nat, body: seq<byte>)

  /** The contents of a server_name extension; `extra` is whatever follows the first name. */
  datatype NameList = NameList(length: seq<byte>, kind: byte, name: seq<byte>, extra: seq<byte>)

  /**
   * A ClientHello up to its server name, as loosely as it may be made: `announced` is the length
   * it gives for its extensions, and `tail` is anything that comes after the server name.
   */
  datatype Message = Message(
    fixed: seq<byte>,       // length, version and random
    sessionId: seq<byte>,
    ciphers: seq<byte>,
    compressions: seq<byte>,
    announced: nat,
    before: seq<Ext>,
    names: NameList,
    tail: seq<byte>)

  function ExtBytes(e: Ext, rest: seq<byte>): seq<byte> {
    U16(e.kind) + (U16(|e.body|) + (e.body + rest))
  }

  /** The extensions `es` followed by `rest`. */
  function ExtList(es: seq<Ext>, rest: seq<byte>): seq<byte> {
    if es == [] then rest else ExtBytes(es[0], ExtList(es[1..], rest))
  }

  function ListLength(es: seq<Ext>): nat {
    if es == [] then 0 else 4 + |es[0].body| + ListLength(es[1..])
  }

  function ServerName(n: NameList): Ext {
    Ext(0, n.length + ([n.kind] + (U16(|n.name|) + (n.name + n.extra))))
  }

  /** Extensions of other kinds, then the server name, then anything. */
  function NamedExts(before: seq<Ext>, names: NameList, tail: seq<byte>): seq<byte> {
    ExtList(before, ExtBytes(ServerName(names), tail))
  }

  /** The variable-length fields of the message, in order. */
  function Vectors(sid: seq<byte>, ciphers: seq<byte>, comps: seq<byte>, announced: nat, exts: seq<byte>): seq<byte> {
    [|sid| % 256] + (sid + (U16(|ciphers|) + (ciphers + ([|comps| % 256] + (comps + (U16(announced) + exts))))))
  }

  function MessageBytes(m: Message): seq<byte> {
    [1] + m.fixed + Vectors(m.sessionId, m.ciphers, m.compressions, m.announced, NamedExts(m.before, m.names, m.tail))
  }

  /** Extensions other than server_name that fit their length fields. */
  ghost predicate Others(es: seq<Ext>) {
    forall i :: 0 <= i < |es| ==> 0 < es[i].kind < 0x1_0000 && |es[i].body| < 0x1_0000
  }

  ghost predicate FitNames(n: NameList) {
    |n.length| == 2 && 5 + |n.name| + |n.extra| < 0x1_0000
  }

  /** Every length fits its field, and the server name lies within the announced extensions. */
  ghost predicate WellMade(m: Message) {
    && |m.fixed| == 37
    && |m.sessionId| < 256 && |m.ciphers| < 0x1_0000 && |m.compressions| < 256
    && Others(m.before) && FitNames(m.names)
    && ListLength(m.before) + 4 + |ServerName(m.names).body| <= m.announced < 0x1_0000
  }

  /** A handshake record around a message. */
  function RecordOf(minor: byte, hs: seq<byte>): seq<byte> {
    [0x16, 0x03, minor] + (U16(|hs|) + hs)
  }

  /** Where the extension list starts, counted from the start of the handshake message. */
  function ExtStart(m: Message): nat {
    38 + 1 + |m.sessionId| + 2 + |m.ciphers| + 1 + |m.compressions| + 2
  }

  /** Where the server_name extension ends. */
  function NameEnd(m: Message): nat {
    ExtStart(m) + ListLength(m.before) + 4 + |ServerName(m.names).body|
  }

  // ----- reading a record back -----

  /** Reading one field off the front of what is left. */
  lemma Peel<T>(d: seq<T>, pos: nat, field: seq<T>, rest: seq<T>)
    requires pos <= |d| && d[pos..] == field + rest
    ensures pos + |field| <= |d|
    ensures d[pos..pos + |field|] == field && d[pos + |field|..] == rest
  {
    assert d[pos..][..|field|] == field && d[pos..][|field|..] == rest;
  }

  lemma PeelU16(d: seq<byte>, pos: nat, n: nat, rest: seq<byte>)
    requires pos <= |d| && n < 0x1_0000 && d[pos..] == U16(n) + rest
    ensures pos + 2 <= |d| && GetU16(d, pos) == n && d[pos + 2..] == rest
  {
    Peel(d, pos, U16(n), rest);
    assert d[pos] == d[pos..pos + 2][0] && d[pos + 1] == d[pos..pos + 2][1];
    assert GetU16(d, pos) == GetU16(U16(n), 0);
  }

  lemma PeelByte(d: seq<byte>, pos: nat, n: nat, rest: seq<byte>)
    requires pos <= |d| && n < 256 && d[pos..] == [n % 256] + rest
    ensures pos + 1 <= |d| && d[pos] == n && d[pos + 1..] == rest
  {
    Peel(d, pos, [n % 256], rest);
    assert d[pos] == d[pos..pos + 1][0];
  }

  lemma PeelExt(d: seq<byte>, pos: nat, e: Ext, rest: seq<byte>)
    requires pos <= |d| && d[pos..] == ExtBytes(e, rest) && e.kind < 0x1_0000 && |e.body| < 0x1_0000
    ensures pos + 4 + |e.body| <= |d| && GetU16(d, pos) == e.kind && GetU16(d, pos + 2) == |e.body|
    ensures d[pos + 4..] == e.body + rest && d[pos + 4 + |e.body|..] == rest
  {
    hide U16, GetU16;
    PeelU16(d, pos, e.kind, U16(|e.body|) + (e.body + rest));
    PeelU16(d, pos + 2, |e.body|, e.body + rest);
    Peel(d, pos + 4, e.body, rest);
  }

  lemma NameInside(n: NameList, d: seq<byte>, body: nat, rest: seq<byte>)
    requires FitNames(n) && body <= |d| && d[body..] == ServerName(n).body + rest
    ensures |ServerName(n).body| == 5 + |n.name| + |n.extra| && body + 5 + |n.name| + |n.extra| <= |d|
    ensures GetU16(d, body + 3) == |n.name|
    ensures d[body + 5..body + 5 + |n.name|] == n.name
  {
    hide U16, GetU16;
    var size := U16(|n.name|);
    assert ServerName(n).body + rest == n.length + ([n.kind] + (size + (n.name + (n.extra + rest))));
    Peel(d, body, n.length, [n.kind] + (size + (n.name + (n.extra + rest))));
    Peel(d, body + 2, [n.kind], size + (n.name + (n.extra + rest)));
    PeelU16(d, body + 3, |n.name|, n.name + (n.extra + rest));
    Peel(d, body + 5, n.name, n.extra + rest);
  }

  lemma {:induction false} Walk(before: seq<Ext>, n: NameList, tail: seq<byte>, d: seq<byte>, pos: nat, end: nat)
    requires Others(before) && FitNames(n) && pos <= |d| && d[pos..] == NamedExts(before, n, tail)
    requires pos + ListLength(before) + 4 + |ServerName(n).body| <= end <= |d|
    ensures Extensions(d, pos, end) == Found(n.name, pos + ListLength(before) + 4 + |ServerName(n).body|)
    decreases |before|
  {
    hide ExtBytes, U16, GetU16;
    if before == [] {
      PeelExt(d, pos, ServerName(n), tail);
      NameInside(n, d, pos + 4, tail);
    } else {
      hide ServerName;
      PeelExt(d, pos, before[0], NamedExts(before[1..], n, tail));
      Walk(before[1..], n, tail, d, pos + 4 + |before[0].body|, end);
    }
  }

  lemma VectorsWalk(f: seq<byte>, sid: seq<byte>, ciphers: seq<byte>, comps: seq<byte>, announced: nat, exts: seq<byte>)
    requires |sid| < 256 && |ciphers| < 0x1_0000 && |comps| < 256 && announced < 0x1_0000
    requires |f| >= 38 && f[0] == 1 && f[38..] == Vectors(sid, ciphers, comps, announced, exts)
    ensures var p := 39 + |sid| + 2 + |ciphers| + 1 + |comps|;
            ExtensionsAt(f) == p && p + 2 <= |f| && GetU16(f, p) == announced && f[p + 2..] == exts
  {
    hide U16, GetU16, ExtensionsAt;
    var x := U16(announced) + exts;
    var g := [|comps| % 256] + (comps + x);
    var p1 := 39 + |sid|;
    var p2 := p1 + 2 + |ciphers|;
    var p3 := p2 + 1 + |comps|;
    PeelShort(f, 38, sid, U16(|ciphers|) + (ciphers + g));
    PeelLong(f, p1, ciphers, g);
    PeelShort(f, p2, comps, x);
    PeelU16(f, p3, announced, exts);
    AtFields(f, p1, p2, p3);
  }

  lemma FixedPart(fixed: seq<byte>, rest: seq<byte>)
    requires |fixed| == 37
    ensures var hs := [1] + fixed + rest;
            |hs| >= 38 && hs[0] == 1 && hs[38..] == rest
  {
  }

  lemma PeelShort(d: seq<byte>, pos: nat, v: seq<byte>, rest: seq<byte>)
    requires pos <= |d| && |v| < 256 && d[pos..] == [|v| % 256] + (v + rest)
    ensures pos + 1 + |v| <= |d| && d[pos] == |v| && d[pos + 1 + |v|..] == rest
  {
    PeelByte(d, pos, |v|, v + rest);
    Peel(d, pos + 1, v, rest);
  }

  lemma PeelLong(d: seq<byte>, pos: nat, v: seq<byte>, rest: seq<byte>)
    requires pos <= |d| && |v| < 0x1_0000 && d[pos..] == U16(|v|) + (v + rest)
    ensures pos + 2 + |v| <= |d| && GetU16(d, pos) == |v| && d[pos + 2 + |v|..] == rest
  {
    hide U16, GetU16;
    PeelU16(d, pos, |v|, v + rest);
    Peel(d, pos + 2, v, rest);
  }

  lemma AtFields(d: seq<byte>, p1: nat, p2: nat, p3: nat)
    requires 39 <= p1 && p1 + 2 <= p2 < p3 && p3 + 2 <= |d|
    requires d[0] == 1 && p1 == 39 + (d[38] as int)
    requires p2 == p1 + 2 + GetU16(d, p1) && p3 == p2 + 1 + (d[p2] as int)
    ensures ExtensionsAt(d) == p3
  {
    hide GetU16;
  }

  lemma {:induction false} ExtListLength(es: seq<Ext>, rest: seq<byte>)
    ensures |ExtList(es, rest)| == ListLength(es) + |rest|
  {
    if es != [] {
      ExtListLength(es[1..], rest);
    }
  }

  /** A message parses to its own server name, whatever extensions precede it. */
  lemma HelloParses(m: Message)
    requires WellMade(m)
    ensures ParseHello(MessageBytes(m)) == Found(m.names.name, NameEnd(m))
    ensures |MessageBytes(m)| == NameEnd(m) + |m.tail|
  {
    hide ExtensionsAt, Extensions, U16, GetU16, ServerName, ExtBytes, ExtList, ListLength, Vectors;
    var f, exts := MessageBytes(m), NamedExts(m.before, m.names, m.tail);
    FixedPart(m.fixed, Vectors(m.sessionId, m.ciphers, m.compressions, m.announced, exts));
    VectorsWalk(f, m.sessionId, m.ciphers, m.compressions, m.announced, exts);
    NamedLength(m.before, m.names, m.tail);
    assert |f| == ExtStart(m) + |exts|;
    Walk(m.before, m.names, m.tail, f, ExtStart(m), Min(ExtStart(m) + m.announced, |f|));
  }

  lemma NamedLength(before: seq<Ext>, n: NameList, tail: seq<byte>)
    ensures |NamedExts(before, n, tail)| == ListLength(before) + 4 + |ServerName(n).body| + |tail|
  {
    hide ServerName;
    ExtListLength(before, ExtBytes(ServerName(n), tail));
  }

  // ----- no name from anything else -----

  /** What the extension loop has gone through when it finds a name. */
  lemma {:induction false} WalkedThrough(d: seq<byte>, pos: nat, end: nat) returns (before: seq<Ext>, n: NameList)
    requires end <= |d| && Extensions(d, pos, end).Found?
    ensures var r := Extensions(d, pos, end);
            && Others(before) && FitNames(n) && n.name == r.name
            && d[pos..] == NamedExts(before, n, d[r.stop..])
            && pos + ListLength(before) + 4 + |ServerName(n).body| == r.stop
    decreases end - pos
  {
    hide U16, GetU16;
    var kind, len, body := GetU16(d, pos), GetU16(d, pos + 2), pos + 4;
    U16Again(d, pos);
    U16Again(d, pos + 2);
    if kind != 0 {
      hide ServerName;
      before, n := WalkedThrough(d, body + len, end);
      var e := Ext(kind, d[body..body + len]);
      OneMore(d, pos, e, ExtList(before, ExtBytes(ServerName(n), d[Extensions(d, pos, end).stop..])));
      before := [e] + before;
    } else {
      before, n := [], NameAt(d, body, len);
      OneMore(d, pos, ServerName(n), d[body + len..]);
    }
  }

  function NameAt(d: seq<byte>, body: nat, len: nat): (n: NameList)
    requires 5 <= len < 0x1_0000 && body + len <= |d| && 5 + GetU16(d, body + 3) <= len
    ensures FitNames(n) && n.name == d[body + 5..body + 5 + GetU16(d, body + 3)]
    ensures ServerName(n).body == d[body..body + len]
  {
    var k := GetU16(d, body + 3);
    U16Again(d, body + 3);
    var n := NameList(d[body..body + 2], d[body + 2], d[body + 5..body + 5 + k], d[body + 5 + k..body + len]);
    assert ServerName(n).body == d[body..body + len];
    n
  }

  lemma OneMore(d: seq<byte>, pos: nat, e: Ext, rest: seq<byte>)
    requires pos + 4 + |e.body| <= |d| && d[pos..pos + 2] == U16(e.kind) && d[pos + 2..pos + 4] == U16(|e.body|)
    requires d[pos + 4..pos + 4 + |e.body|] == e.body && d[pos + 4 + |e.body|..] == rest
    ensures d[pos..] == ExtBytes(e, rest)
  {
    hide U16;
    var b := pos + 4 + |e.body|;
    assert d[pos..] == d[pos..pos + 2] + (d[pos + 2..pos + 4] + (d[pos + 4..b] + d[b..]));
  }

  /** The message a name was found in. */
  lemma MessageOf(d: seq<byte>) returns (m: Message)
    requires ParseHello(d).Found?
    ensures WellMade(m) && d == MessageBytes(m)
    ensures m.names.name == ParseHello(d).name && |d| - |m.tail| == ParseHello(d).stop
  {
    hide GetU16, Extensions, ExtensionsAt, NamedExts, ListLength, ServerName, Others, FitNames, WellMade, MessageBytes;
    var p := ExtensionsAt(d) + 2;
    var before, n := WalkedThrough(d, p, Min(p + GetU16(d, p - 2), |d|));
    m := Assembled(d, before, n, ParseHello(d).stop);
  }

  lemma Assembled(d: seq<byte>, before: seq<Ext>, n: NameList, stop: nat) returns (m: Message)
    requires ExtensionsAt(d) != 0 && Others(before) && FitNames(n) && stop <= |d|
    requires var p := ExtensionsAt(d) + 2;
             && d[p..] == NamedExts(before, n, d[stop..])
             && p + ListLength(before) + 4 + |ServerName(n).body| == stop <= p + GetU16(d, p - 2)
    ensures WellMade(m) && d == MessageBytes(m) && m.names == n && |d| - |m.tail| == stop
  {
    var p1, p2 := FieldsAt(d);
    hide U16, GetU16, ExtensionsAt, NamedExts, ListLength, ServerName, Vectors, Others, FitNames;
    var p3 := ExtensionsAt(d);
    JoinedVectors(d, p1, p2, p3);
    m := Message(d[1..38], d[39..p1], d[p1 + 2..p2], d[p2 + 1..p3], GetU16(d, p3), before, n, d[stop..]);
  }

  lemma FieldsAt(d: seq<byte>) returns (p1: nat, p2: nat)
    requires ExtensionsAt(d) != 0
    ensures 39 <= p1 && p1 + 2 <= p2 < ExtensionsAt(d) <= |d| - 2
    ensures d[0] == 1 && p1 == 39 + (d[38] as int)
    ensures p2 == p1 + 2 + GetU16(d, p1) && ExtensionsAt(d) == p2 + 1 + (d[p2] as int)
  {
    p1 := 39 + (d[38] as int);
    p2 := p1 + 2 + GetU16(d, p1);
  }

  lemma JoinedVectors(d: seq<byte>, p1: nat, p2: nat, p3: nat)
    requires 39 <= p1 && p1 + 2 <= p2 < p3 && p3 + 2 <= |d| && p1 == 39 + (d[38] as int)
    requires p2 == p1 + 2 + GetU16(d, p1) && p3 == p2 + 1 + (d[p2] as int)
    ensures d == [d[0]] + d[1..38] + Vectors(d[39..p1], d[p1 + 2..p2], d[p2 + 1..p3], GetU16(d, p3), d[p3 + 2..])
  {
    U16Again(d, p1);
    U16Again(d, p3);
    Byte(d, 38, p1 - 39);
    Byte(d, p2, p3 - p2 - 1);
    hide U16, GetU16;
    Joined(d, p1, p2, p3);
  }

  lemma Byte(d: seq<byte>, pos: nat, n: nat)
    requires pos < |d| && n == d[pos]
    ensures [n % 256] == [d[pos]]
  {
  }

  /** A sequence is its consecutive slices. */
  lemma Joined<T>(d: seq<T>, p1: nat, p2: nat, p3: nat)
    requires 39 <= p1 && p1 + 2 <= p2 < p3 && p3 + 2 <= |d|
    ensures d == [d[0]] + d[1..38]
                 + ([d[38]] + (d[39..p1] + (d[p1..p1 + 2] + (d[p1 + 2..p2]
                    + ([d[p2]] + (d[p2 + 1..p3] + (d[p3..p3 + 2] + d[p3 + 2..])))))))
  {
  }

  /**
   * A name is found in exactly the well-made messages that carry it, after extensions of other
   * kinds and within the announced extensions; `stop` is where the server_name extension ends.
   */
  lemma FoundIff(d: seq<byte>, name: seq<byte>, stop: nat)
    ensures ParseHello(d) == Found(name, stop)
            <==> exists m :: WellMade(m) && d == MessageBytes(m) && m.names.name == name && stop == |d| - |m.tail|
  {
    hide ParseHello, MessageBytes, WellMade, NameEnd;
    if ParseHello(d) == Found(name, stop) {
      var m := MessageOf(d);
    }
    forall m | WellMade(m) && d == MessageBytes(m) && m.names.name == name && stop == |d| - |m.tail|
      ensures ParseHello(d) == Found(name, stop)
    {
      HelloParses(m);
    }
  }

  /**
   * Sniffing any prefix of a ClientHello record and what follows it finds exactly its server
   * name once the extension has arrived, provided it ends within the first 4096 bytes, and
   * finds nothing before.
   */
  lemma SniffFindsServerName(m: Message, minor: byte, following: seq<byte>, k: nat)
    requires WellMade(m) && |MessageBytes(m)| < 0x1_0000 && k <= |RecordOf(minor, MessageBytes(m)) + following|
    ensures SniffTLS((RecordOf(minor, MessageBytes(m)) + following)[..k])
            == if 5 + NameEnd(m) <= Min(k, 4096) then Found(m.names.name, NameEnd(m)) else NoName
  {
    HelloParses(m);
    hide ParseHello, MessageBytes, WellMade, NameEnd;
    var hs := MessageBytes(m);
    var s := (RecordOf(minor, hs) + following)[..k];
    if k >= 5 {
      VisibleOfRecord(minor, hs, following, k);
      var n := |Visible(s)| - 5;
      HelloCut(hs, n);
      assert Visible(s)[5..] == hs[..n];
    }
  }

  lemma VisibleOfRecord(minor: byte, hs: seq<byte>, following: seq<byte>, k: nat)
    requires |hs| < 0x1_0000 && 5 <= k <= |RecordOf(minor, hs) + following|
    ensures var s := (RecordOf(minor, hs) + following)[..k];
            && |Visible(s)| == Min(Min(k, BUF_SIZE), 5 + |hs|)
            && Visible(s)[5..] == hs[..|Visible(s)| - 5]
  {
    hide U16;
    var whole := RecordOf(minor, hs) + following;
    var s := whole[..k];
    assert whole[0..] == [0x16, 0x03, minor] + (U16(|hs|) + (hs + following));
    Peel(whole, 0, [0x16, 0x03, minor], U16(|hs|) + (hs + following));
    PeelU16(whole, 3, |hs|, hs + following);
    assert GetU16(s, 3) == GetU16(whole, 3);
    assert s[5..] == (hs + following)[..k - 5];
  }

  // ----- messages without a server name -----

  lemma {:induction false} WalkPast(es: seq<Ext>, d: seq<byte>, pos: nat)
    requires Others(es)
    requires pos <= |d| && d[pos..] == ExtList(es, [])
    ensures Extensions(d, pos, |d|) == NoName
    decreases |es|
  {
    hide ExtBytes, U16, GetU16;
    if es != [] {
      PeelExt(d, pos, es[0], ExtList(es[1..], []));
      WalkPast(es[1..], d, pos + 4 + |es[0].body|);
    }
  }

  /** A well-formed message whose extensions are all of other kinds gives no name, on any prefix. */
  lemma NoServerName(minor: byte, fixed: seq<byte>, sid: seq<byte>, ciphers: seq<byte>, comps: seq<byte>,
                     es: seq<Ext>, following: seq<byte>, k: nat)
    requires |fixed| == 37 && |sid| < 256 && |ciphers| < 0x1_0000 && |comps| < 256
    requires Others(es)
    requires |ExtList(es, [])| < 0x1_0000
    requires var hs := [1] + fixed + Vectors(sid, ciphers, comps, |ExtList(es, [])|, ExtList(es, []));
             |hs| < 0x1_0000 && k <= |RecordOf(minor, hs) + following|
    ensures var hs := [1] + fixed + Vectors(sid, ciphers, comps, |ExtList(es, [])|, ExtList(es, []));
            SniffTLS((RecordOf(minor, hs) + following)[..k]) == NoName
  {
    hide ParseHello, Vectors, RecordOf;
    var exts := ExtList(es, []);
    var hs := [1] + fixed + Vectors(sid, ciphers, comps, |exts|, exts);
    NamelessParses(hs, fixed, sid, ciphers, comps, es);
    if k >= 5 {
      VisibleOfRecord(minor, hs, following, k);
      HelloCut(hs, |Visible((RecordOf(minor, hs) + following)[..k])| - 5);
    }
  }

  lemma NamelessParses(hs: seq<byte>, fixed: seq<byte>, sid: seq<byte>, ciphers: seq<byte>, comps: seq<byte>, es: seq<Ext>)
    requires |fixed| == 37 && |sid| < 256 && |ciphers| < 0x1_0000 && |comps| < 256
    requires Others(es)
    requires |ExtList(es, [])| < 0x1_0000
    requires hs == [1] + fixed + Vectors(sid, ciphers, comps, |ExtList(es, [])|, ExtList(es, []))
    ensures ParseHello(hs) == NoName
  {
    hide Vectors, ExtensionsAt, GetU16, ExtList, Extensions;
    var exts := ExtList(es, []);
    assert hs[38..] == Vectors(sid, ciphers, comps, |exts|, exts);
    VectorsWalk(hs, sid, ciphers, comps, |exts|, exts);
    WalkPast(es, hs, ExtensionsAt(hs) + 2);
  }

  // ----- the reader and the methods -----

  /**
   * A buffered reader over a connection; `conn` holds the bytes that will arrive before the
   * read deadline.  Reading later drains `buf` first, so `buf + conn` is what the next
   * reader will see.
   */
  class BufReader {
    var buf: seq<byte>
    var conn: seq<byte>

    ghost predicate Valid()
      reads this
    {
      |buf| <= BUF_SIZE
    }

    constructor (bytes: seq<byte>)
      ensures Valid() && buf == [] && conn == bytes
    {
      buf, conn := [], bytes;
    }

    /** Peeking fills the buffer, in steps of any size, but consumes nothing. */
    method Peek(n: nat) returns (data: seq<byte>, ok: bool)
      requires Valid()
      modifies this
      ensures Valid() && buf + conn == old(buf + conn)
      ensures ok == (n <= Min(|buf + conn|, BUF_SIZE))
      ensures ok ==> data == (buf + conn)[..n]
      ensures !ok ==> data == buf == (buf + conn)[..Min(|buf + conn|, BUF_SIZE)]
    {
      while |buf| < n && |buf| < BUF_SIZE && conn != []
        invariant Valid() && buf + conn == old(buf + conn)
        decreases |conn|
      {
        var k :| 1 <= k <= |conn| && |buf| + k <= BUF_SIZE;
        buf, conn := buf + conn[..k], conn[k..];
      }
      ok := n <= BUF_SIZE && n <= |buf|;
      data := if ok then buf[..n] else buf;
    }

    method Sniff() returns (r: Sniffed)
      requires Valid()
      modifies this
      ensures Valid() && buf + conn == old(buf + conn)
      ensures r == SniffTLS(old(buf + conn))
    {
      ghost var s := buf + conn;
      var header, ok := Peek(5);
      if !ok {
        return NoName;
      }
      var length := GetU16(header, 3);
      if length > 4096 {
        length := 4096;
      }
      assert GetU16(s, 3) == GetU16(header, 3);
      var data;
      data, ok := Peek(5 + length);
      if !ok {
        data, ok := Peek(|buf|);
        if !ok || |data| < 5 {
          return NoName;
        }
      }
      assert data == Visible(s);
      r := Parse(data[5..]);
    }
  }

  method Parse(data: seq<byte>) returns (r: Sniffed)
    ensures r == ParseHello(data)
  {
    hide Extensions;
    if |data| < 4 || data[0] != 1 {
      return NoName;
    }
    var pos := 4 + 2 + 32;
    if |data| < pos + 1 {
      return NoName;
    }
    pos := pos + 1 + data[pos];
    if |data| < pos + 2 {
      return NoName;
    }
    pos := pos + 2 + GetU16(data, pos);
    if |data| < pos + 1 {
      return NoName;
    }
    pos := pos + 1 + data[pos];
    if |data| < pos + 2 {
      return NoName;
    }
    assert ExtensionsAt(data) == pos;
    r := FindName(data, pos);
  }

  /** The extension loop, from the length field of the list on. */
  method FindName(data: seq<byte>, start: nat) returns (r: Sniffed)
    requires start + 2 <= |data|
    ensures r == Extensions(data, start + 2, Min(start + 2 + GetU16(data, start), |data|))
  {
    hide GetU16;
    var pos := start + 2;
    var end := pos + GetU16(data, start);
    if end > |data| {
      end := |data|;
    }
    while pos + 4 <= end
      invariant Extensions(data, pos, end) == Extensions(data, start + 2, end)
      decreases end - pos
    {
      var eType, eLen := GetU16(data, pos), GetU16(data, pos + 2);
      pos := pos + 4;
      if eType == 0 {
        if pos + eLen > end {
          return NoName;
        }
        var snPos := pos + 2;
        if snPos + 3 > pos + eLen {
          return NoName;
        }
        var nameLen := GetU16(data, snPos + 1);
        if snPos + 3 + nameLen > pos + eLen {
          return NoName;
        }
        return Found(data[snPos + 3..snPos + 3 + nameLen], pos + eLen);
      }
      pos := pos + eLen;
    }
    r := NoName;
  }
}
