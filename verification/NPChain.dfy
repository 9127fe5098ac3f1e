/**
 * The NP-Chain source-routed header: `EncodeHeader`, `DecodeNextHop`, the relay decision of
 * `HandleRelay`, and what becomes of a header as it travels along its own chain.
 *
 * A host is what `net.ParseIP` makes of it; UUID texts are their 16 bytes; the padding and a
 * new session ID come in as parameters.
 */
module NPChain {
  import opened Basics
  import opened Bytes
  import Obfs

  const HEADER_SIZE := 24
  const ENTRY_SIZE := 34
  const ADDR_SIZE := 30
  const VERSION: byte := 1

  function Magic(): (m: seq<byte>)
    ensures |m| == 4
  {
    [0x4E, 0x50, 0x43, 0x32]
  }

  datatype RawHost = V4(addr: seq<byte>) | V6(addr: seq<byte>) | Name(addr: seq<byte>)

  type Host = h: RawHost | (h.V4? ==> |h.addr| == 4) && (h.V6? ==> |h.addr| == 16)
    witness V4([0, 0, 0, 0])

  datatype Hop = Hop(host: Host, port: int)

  /** The hop a receiver makes of an encoded hop: names cut to 30 bytes, ports to 16 bits. */
  function Norm(h: Hop): Hop {
    Hop(if h.host.Name? then Name(h.host.addr[..Min(|h.host.addr|, ADDR_SIZE)]) else h.host, h.port % 0x1_0000)
  }

  predicate Normal(h: Hop) {
    (h.host.Name? ==> |h.host.addr| <= ADDR_SIZE) && 0 <= h.port < 0x1_0000
  }

  lemma NormalIff(h: Hop)
    ensures Norm(h) == h <==> Normal(h)
    ensures Normal(Norm(h))
  {
  }

  // ----- layout -----

  function Zeros(n: nat): (z: seq<byte>)
    ensures |z| == n
  {
    seq(n, i => 0)
  }

  function TypeOf(h: Host): byte {
    match h
    case V4(_) => 1
    case V6(_) => 2
    case Name(_) => 3
  }

  /** Type(1) Port(2) AddrLen(1) Address(30). */
  function Entry(h: Hop): (e: seq<byte>)
    ensures |e| == ENTRY_SIZE
  {
    var n := Min(|h.host.addr|, ADDR_SIZE);
    [TypeOf(h.host)] + U16(h.port % 0x1_0000) + [n] + (h.host.addr[..n] + Zeros(ADDR_SIZE - n))
  }

  function Entries(hops: seq<Hop>): (e: seq<byte>)
    ensures |e| == ENTRY_SIZE * |hops|
  {
    if hops == [] then [] else Entry(hops[0]) + Entries(hops[1..])
  }

  function Header(version: byte, nHops: byte, flags: byte, padLen: byte, sid: seq<byte>): seq<byte> {
    Magic() + [version, nHops, flags, padLen] + sid
  }

  function Flags(udp: bool, padded: bool): byte {
    (if udp then 1 else 0) + if padded then 0x80 else 0
  }

  /** `flags & FlagUDP != 0`. */
  predicate IsUdp(flags: byte) {
    flags % 2 == 1
  }

  lemma FlagBits(udp: bool, padded: bool)
    ensures IsUdp(Flags(udp, padded)) == udp
    ensures Flags(udp, padded) >= 0x80 <==> padded
  {
  }

  /** What identifies a header besides its hops. */
  datatype Session = Session(sid: seq<byte>, udp: bool, padded: bool, padding: seq<byte>) {
    predicate Valid() {
      |sid| == 16 && |padding| < 64 && (!padded ==> padding == [])
    }
  }

  function Encoding(hops: seq<Hop>, s: Session): seq<byte>
    requires s.Valid()
  {
    Header(VERSION, |hops| % 256, Flags(s.udp, s.padded), |s.padding|, s.sid) + Entries(hops) + s.padding
  }

  // ----- decoding -----

  function DecodeEntry(e: seq<byte>): Option<Hop>
    requires |e| == ENTRY_SIZE
  {
    var n, port, addr := e[3], GetU16(e, 1), e[4..];
    if n > ADDR_SIZE then None
    else if e[0] == 1 then Some(Hop(V4(addr[..4]), port))
    else if e[0] == 2 then Some(Hop(V6(addr[..16]), port))
    else if e[0] == 3 then Some(Hop(Name(addr[..n]), port))
    else None
  }

  lemma EntryRoundTrip(h: Hop)
    ensures DecodeEntry(Entry(h)) == Some(Norm(h))
  {
    var e, n := Entry(h), Min(|h.host.addr|, ADDR_SIZE);
    var p := U16(h.port % 0x1_0000);
    assert e[1] == p[0] && e[2] == p[1];
    assert GetU16(e, 1) == GetU16(p, 0);
    assert e[4..] == h.host.addr[..n] + Zeros(ADDR_SIZE - n);
    assert e[4..][..n] == h.host.addr[..n];
    assert h.host.addr[..|h.host.addr|] == h.host.addr;
  }

  lemma DecodedIsNormal(e: seq<byte>)
    requires |e| == ENTRY_SIZE && DecodeEntry(e).Some?
    ensures Normal(DecodeEntry(e).value)
  {
  }

  datatype Visit = Visit(hop: Hop, sid: seq<byte>, udp: bool)

  datatype Decoded = Failed | Peeled(visit: Visit, remaining: seq<byte>, rest: seq<byte>)

  /** Padding is discarded after the first hop entry, although it was written after the last. */
  function PadOf(stream: seq<byte>): nat
    requires |stream| >= HEADER_SIZE
  {
    if stream[6] >= 0x80 then stream[7] else 0
  }

  /** What is done with the bytes `body` after the fixed header. */
  function PeelBody(version: byte, nHops: byte, flags: byte, padLen: byte, sid: seq<byte>, body: seq<byte>): (r: Decoded)
    requires nHops >= 1 && |sid| == 16
    ensures r.Peeled? ==> |r.remaining| >= HEADER_SIZE
  {
    var pad, more := if flags >= 0x80 then padLen as int else 0, ENTRY_SIZE * (nHops - 1);
    if |body| < ENTRY_SIZE + pad + more then Failed
    else match DecodeEntry(body[..ENTRY_SIZE])
         case None => Failed
         case Some(hop) =>
           var after := body[ENTRY_SIZE + pad..];
           Peeled(Visit(hop, sid, IsUdp(flags)),
                  Header(version, nHops - 1, flags, padLen, sid) + after[..more],
                  after[more..])
  }

  /** `DecodeNextHop` on a stream that holds `stream` and then ends. */
  function Decode(stream: seq<byte>): (r: Decoded)
    ensures r.Peeled? ==> |r.remaining| >= HEADER_SIZE
  {
    if |stream| < HEADER_SIZE || stream[..4] != Magic() || stream[5] == 0 then Failed
    else PeelBody(stream[4], stream[5], stream[6], stream[7], stream[8..HEADER_SIZE], stream[HEADER_SIZE..])
  }

  // ----- one header -----

  lemma EncodingFields(hops: seq<Hop>, s: Session, tail: seq<byte>)
    requires s.Valid()
    ensures var e := Encoding(hops, s) + tail;
            && |Encoding(hops, s)| == HEADER_SIZE + ENTRY_SIZE * |hops| + |s.padding|
            && e[..4] == Magic() && e[4] == VERSION && e[5] == |hops| % 256
            && e[6] == Flags(s.udp, s.padded) && e[7] == |s.padding| && e[8..24] == s.sid
            && PadOf(e) == |s.padding|
            && e[HEADER_SIZE..] == Entries(hops) + s.padding + tail
  {
    hide Entries;
    var h := Header(VERSION, |hops| % 256, Flags(s.udp, s.padded), |s.padding|, s.sid);
    var e := Encoding(hops, s) + tail;
    assert e == h + (Entries(hops) + s.padding + tail);
    assert |h| == HEADER_SIZE && e[..HEADER_SIZE] == h && e[HEADER_SIZE..] == Entries(hops) + s.padding + tail;
    assert e[..4] == h[..4] == Magic();
    assert e[8..24] == h[8..24] == s.sid;
  }

  /**
   * Decoding consumes exactly the encoding, for every chain of 1..255 hops and any padding,
   * and yields the first hop.  What it hands on is right only up to the padding shift.
   */
  lemma DecodeFirstHop(hops: seq<Hop>, s: Session, payload: seq<byte>)
    requires s.Valid() && 1 <= |hops| <= 255
    ensures Decode(Encoding(hops, s) + payload)
            == Peeled(Visit(Norm(hops[0]), s.sid, s.udp),
                      Header(VERSION, |hops| - 1, Flags(s.udp, s.padded), |s.padding|, s.sid)
                        + (Entries(hops[1..]) + s.padding)[|s.padding|..],
                      payload)
  {
    hide PeelBody, Encoding, Header, Magic, Norm, Entries, Entry, Flags, PadOf;
    EncodingFields(hops, s, payload);
    FirstEntry(hops, s.padding, payload);
    PeelEncoded(hops, s, payload);
  }

  lemma PeelEncoded(hops: seq<Hop>, s: Session, payload: seq<byte>)
    requires s.Valid() && 1 <= |hops| <= 255
    ensures PeelBody(VERSION, |hops|, Flags(s.udp, s.padded), |s.padding|, s.sid,
                     Entry(hops[0]) + (Entries(hops[1..]) + s.padding) + payload)
            == Peeled(Visit(Norm(hops[0]), s.sid, s.udp),
                      Header(VERSION, |hops| - 1, Flags(s.udp, s.padded), |s.padding|, s.sid)
                        + (Entries(hops[1..]) + s.padding)[|s.padding|..],
                      payload)
  {
    hide Entries, Entry, DecodeEntry, Header, Norm, Flags, IsUdp, PeelBody;
    FlagBits(s.udp, s.padded);
    EntryRoundTrip(hops[0]);
    PeelAt(VERSION, |hops|, Flags(s.udp, s.padded), |s.padding|, s.sid,
           Entry(hops[0]), Entries(hops[1..]) + s.padding, payload, Visit(Norm(hops[0]), s.sid, s.udp), |s.padding|);
  }

  lemma PeelAt(version: byte, nHops: byte, flags: byte, padLen: byte, sid: seq<byte>,
               entry: seq<byte>, tail: seq<byte>, payload: seq<byte>, visit: Visit, pad: nat)
    requires nHops >= 1 && |sid| == 16 && pad == if flags >= 0x80 then padLen as int else 0
    requires |entry| == ENTRY_SIZE && |tail| == pad + ENTRY_SIZE * (nHops - 1)
    requires DecodeEntry(entry) == Some(visit.hop) && visit.sid == sid && visit.udp == IsUdp(flags)
    ensures PeelBody(version, nHops, flags, padLen, sid, entry + tail + payload)
            == Peeled(visit, Header(version, nHops - 1, flags, padLen, sid) + tail[pad..], payload)
  {
    hide DecodeEntry, Header, IsUdp;
    Carve(entry, tail, payload, pad, ENTRY_SIZE * (nHops - 1));
  }

  lemma FirstEntry(hops: seq<Hop>, padding: seq<byte>, payload: seq<byte>)
    requires hops != []
    ensures Entries(hops) + padding + payload == Entry(hops[0]) + (Entries(hops[1..]) + padding) + payload
  {
    assert Entries(hops) == Entry(hops[0]) + Entries(hops[1..]);
    hide Entry, Entries;
    Associate(Entry(hops[0]), Entries(hops[1..]), padding, payload);
  }

  lemma Associate<T>(a: seq<T>, b: seq<T>, c: seq<T>, d: seq<T>)
    ensures a + b + c + d == a + (b + c) + d
  {
    assert a + b + c == a + (b + c);
  }

  /** Cutting an entry and then `pad` bytes off the front of a body. */
  lemma Carve(entry: seq<byte>, tail: seq<byte>, payload: seq<byte>, pad: nat, more: nat)
    requires |entry| == ENTRY_SIZE && |tail| == pad + more
    ensures var body := entry + tail + payload;
            && |body| == ENTRY_SIZE + pad + more + |payload|
            && body[..ENTRY_SIZE] == entry
            && body[ENTRY_SIZE + pad..][..more] == tail[pad..]
            && body[ENTRY_SIZE + pad..][more..] == payload
  {
    var body := entry + tail + payload;
    assert body[ENTRY_SIZE + pad..] == tail[pad..] + payload;
  }

  /** No proper prefix of an encoding decodes. */
  lemma ProperPrefixRejected(hops: seq<Hop>, s: Session, n: nat)
    requires s.Valid() && 1 <= |hops| <= 255 && n < |Encoding(hops, s)|
    ensures Decode(Encoding(hops, s)[..n]).Failed?
  {
    EncodingFields(hops, s, []);
    hide Entries, Entry, DecodeEntry, Encoding;
    var e := Encoding(hops, s);
    assert e + [] == e;
    if n >= HEADER_SIZE {
      assert PadOf(e[..n]) == PadOf(e);
    }
  }

  /** Every successful decode uses up one entry and its padding, and keeps the other fields. */
  lemma DecodeShape(stream: seq<byte>)
    requires Decode(stream).Peeled?
    ensures var r := Decode(stream);
            && |stream| >= HEADER_SIZE && stream[5] >= 1
            && |stream| == HEADER_SIZE + ENTRY_SIZE * stream[5] + PadOf(stream) + |r.rest|
            && |r.remaining| == HEADER_SIZE + ENTRY_SIZE * (stream[5] - 1)
            && r.remaining[5] == stream[5] - 1 && PadOf(r.remaining) == PadOf(stream)
            && Normal(r.visit.hop)
  {
    var body := stream[HEADER_SIZE..];
    DecodedIsNormal(body[..ENTRY_SIZE]);
    hide DecodeEntry, Magic;
  }

  /**
   * Exactly which streams decode: the magic bytes, at least one hop, a known address type with
   * a length of at most 30, and as many bytes as the header announces.  Any version is accepted.
   */
  lemma DecodeIff(s: seq<byte>)
    ensures Decode(s).Peeled? <==>
            && |s| >= 24
            && s[0] == 0x4E && s[1] == 0x50 && s[2] == 0x43 && s[3] == 0x32
            && s[5] >= 1
            && |s| >= 24 + 34 * s[5] as int + (if s[6] >= 0x80 then s[7] as int else 0)
            && s[24] in {1, 2, 3} && s[27] <= 30
  {
    if |s| >= 24 {
      assert s[..4] == Magic() <==> s[0] == 0x4E && s[1] == 0x50 && s[2] == 0x43 && s[3] == 0x32 by {
        assert s[..4] == [s[0], s[1], s[2], s[3]];
      }
      hide Magic, Header, IsUdp;
      var body := s[24..];
      if |body| >= 34 {
        var e := body[..34];
        assert e[0] == s[24] && e[3] == s[27];
      }
    }
  }

  // ----- the journey -----

  datatype Journey = Lost | Arrived(visits: seq<Visit>, payload: seq<byte>)

  /**
   * A header and the payload behind it travelling from node to node: each node decodes, and
   * either dials the target itself (no hops left) or relays the remaining header followed by
   * whatever it has not read.
   */
  function Travel(stream: seq<byte>): Journey
    decreases if |stream| > 5 then stream[5] else 0
  {
    match Decode(stream)
    case Failed => Lost
    case Peeled(visit, remaining, rest) =>
      if remaining[5] == 0 then Arrived([visit], rest)
      else
        DecodeShape(stream);
        match Travel(remaining + rest)
        case Lost => Lost
        case Arrived(visits, payload) => Arrived([visit] + visits, payload)
  }

  function Visits(hops: seq<Hop>, s: Session): seq<Visit> {
    seq(|hops|, i requires 0 <= i < |hops| => Visit(hops[i], s.sid, s.udp))
  }

  function NormAll(hops: seq<Hop>): seq<Hop> {
    seq(|hops|, i requires 0 <= i < |hops| => Norm(hops[i]))
  }

  lemma {:induction false} TravelWorks(hops: seq<Hop>, s: Session, payload: seq<byte>)
    requires s.Valid() && 1 <= |hops| <= 255 && (|hops| == 1 || s.padding == [])
    ensures Travel(Encoding(hops, s) + payload) == Arrived(Visits(NormAll(hops), s), payload)
    decreases |hops|
  {
    hide Decode, Entry, Norm, PadOf;
    DecodeFirstHop(hops, s, payload);
    var stream, rest := Encoding(hops, s) + payload, hops[1..];
    var r := Decode(stream);
    assert r.visit == Visits(NormAll(hops), s)[0];
    assert r.remaining[5] == |hops| - 1;
    if |hops| == 1 {
      assert Visits(NormAll(hops), s) == [r.visit];
    } else {
      assert (Entries(rest) + [])[0..] == Entries(rest);
      assert Encoding(rest, s) == r.remaining by {
        assert Entries(rest) + [] == Entries(rest);
      }
      TravelWorks(rest, s, payload);
      assert Visits(NormAll(hops), s) == [r.visit] + Visits(NormAll(rest), s);
    }
  }

  /** Every node on the way eats one entry and one padding, whatever it reads them from. */
  lemma {:induction false} TravelConsumes(stream: seq<byte>)
    requires Travel(stream).Arrived?
    ensures var t := Travel(stream);
            && |stream| >= HEADER_SIZE && |t.visits| == stream[5] >= 1
            && |stream| == HEADER_SIZE + |t.visits| * (ENTRY_SIZE + PadOf(stream)) + |t.payload|
            && forall i :: 0 <= i < |t.visits| ==> Normal(t.visits[i].hop)
    decreases if |stream| > 5 then stream[5] else 0
  {
    hide Decode, PadOf, Normal;
    DecodeShape(stream);
    var r := Decode(stream);
    if r.remaining[5] != 0 {
      var next := r.remaining + r.rest;
      PadOfPrefix(r.remaining, r.rest);
      TravelConsumes(next);
      var t := Travel(stream);
      assert t.visits == [r.visit] + Travel(next).visits;
      Widen(|Travel(next).visits|, ENTRY_SIZE + PadOf(stream));
    }
  }

  lemma PadOfPrefix(a: seq<byte>, b: seq<byte>)
    requires |a| >= HEADER_SIZE
    ensures PadOf(a + b) == PadOf(a)
  {
  }

  lemma Widen(k: nat, w: nat)
    ensures (k + 1) * w == k * w + w
  {
  }

  /**
   * A header visits exactly its hops, in order, with session and network preserved, and
   * delivers the payload intact, if and only if there are 1..255 hops, every hop is in
   * normal form, and there is a single hop or no padding.
   */
  lemma ChainWorksIff(hops: seq<Hop>, s: Session, payload: seq<byte>)
    requires s.Valid()
    ensures Travel(Encoding(hops, s) + payload) == Arrived(Visits(hops, s), payload)
            <==> 1 <= |hops| <= 255 && (|hops| == 1 || s.padding == []) && forall h :: h in hops ==> Normal(h)
  {
    hide Travel, Encoding, Norm, Normal;
    var stream := Encoding(hops, s) + payload;
    EncodingFields(hops, s, payload);
    if 1 <= |hops| <= 255 && (|hops| == 1 || s.padding == []) {
      TravelWorks(hops, s, payload);
      forall i | 0 <= i < |hops|
        ensures Norm(hops[i]) == hops[i] <==> Normal(hops[i])
      {
        NormalIff(hops[i]);
      }
      VisitsInjective(NormAll(hops), hops, s);
      if forall h :: h in hops ==> Normal(h) {
        assert NormAll(hops) == hops;
      } else {
        var h :| h in hops && !Normal(h);
        var i :| 0 <= i < |hops| && hops[i] == h;
        assert NormAll(hops)[i] != hops[i];
      }
    } else if Travel(stream) == Arrived(Visits(hops, s), payload) {
      TravelConsumes(stream);
      var n, pad := |hops|, |s.padding|;
      assert n % 256 == n;
      assert ENTRY_SIZE * n + pad == n * (ENTRY_SIZE + pad);
      PaddingLost(n, pad);
      assert false;
    }
  }

  lemma PaddingLost(n: nat, pad: nat)
    requires n >= 1 && ENTRY_SIZE * n + pad == n * (ENTRY_SIZE + pad)
    ensures n == 1 || pad == 0
  {
    assert n * (ENTRY_SIZE + pad) == ENTRY_SIZE * n + n * pad;
    assert (n - 1) * pad == 0;
  }

  lemma VisitsInjective(a: seq<Hop>, b: seq<Hop>, s: Session)
    ensures Visits(a, s) == Visits(b, s) <==> a == b
  {
    if Visits(a, s) == Visits(b, s) {
      assert |Visits(a, s)| == |a| && |Visits(b, s)| == |b|;
      forall i | 0 <= i < |a|
        ensures a[i] == b[i]
      {
        assert Visits(a, s)[i].hop == a[i] && Visits(b, s)[i].hop == b[i];
      }
    }
  }

  /** With two or more hops and any padding, the header alone does not survive its first relay. */
  lemma PaddedRelayFails(hops: seq<Hop>, s: Session, payload: seq<byte>)
    requires s.Valid() && 2 <= |hops| <= 255 && s.padding != []
    ensures Decode(Encoding(hops, s) + payload).Peeled?
    ensures Decode(Decode(Encoding(hops, s) + payload).remaining).Failed?
  {
    hide Entry, Norm, DecodeEntry, Encoding;
    DecodeFirstHop(hops, s, payload);
    EncodingFields(hops, s, payload);
    DecodeShape(Encoding(hops, s) + payload);
    var r := Decode(Encoding(hops, s) + payload);
    if Decode(r.remaining).Peeled? {
      DecodeShape(r.remaining);
      assert false;
    }
  }

  /**
   * Behind the obfuscation layer a header cannot be decoded at all: the sender writes it as
   * one frame, the receiver first asks for the four magic bytes, and that read is refused.
   */
  lemma ObfuscatedHeaderUnreadable(hops: seq<Hop>, s: Session, padding: seq<byte>, rest: seq<byte>)
    requires s.Valid() && |hops| <= 255 && |padding| < 256
    ensures Obfs.ReadFrame(Obfs.Frame(Encoding(hops, s), padding) + rest, 4) == Obfs.ShortBuffer
  {
    EncodingFields(hops, s, []);
    hide Encoding, Obfs.ReadFrame, Obfs.Frame;
    Obfs.PiecemealReadFails(Encoding(hops, s), padding, rest, 4);
  }

  // ----- the methods -----

  datatype HopText = BadText | Text(hop: Hop)
  datatype IdText = NoId | BadId | Uuid(sid: seq<byte>)
  datatype EncodeResult = Encoded(bytes: seq<byte>) | InvalidHop

  function HopsOf(chain: seq<HopText>): seq<Hop>
    requires forall t :: t in chain ==> t.Text?
  {
    seq(|chain|, i requires 0 <= i < |chain| => chain[i].hop)
  }

  /** The session a call of EncodeHeader describes, given its random draws. */
  function SessionOf(network: string, id: IdText, newId: seq<byte>, draw: byte, random: seq<byte>): Session
    requires |random| >= 63
  {
    Session(if id.Uuid? then id.sid else newId, network == "udp", !id.NoId?,
            if id.NoId? then [] else random[..draw % 64])
  }

  lemma {:induction false} EntriesAppend(hops: seq<Hop>, h: Hop)
    ensures Entries(hops + [h]) == Entries(hops) + Entry(h)
  {
    hide Entry;
    if hops == [] {
      assert Entries([h]) == Entry(h) + Entries([]);
    } else {
      EntriesAppend(hops[1..], h);
      assert (hops + [h])[1..] == hops[1..] + [h];
    }
  }

  /** The hop loop of EncodeHeader. */
  method AppendHops(head: seq<byte>, chain: seq<HopText>) returns (ok: bool, buf: seq<byte>)
    ensures ok <==> BadText !in chain
    ensures ok ==> (forall t :: t in chain ==> t.Text?) && buf == head + Entries(HopsOf(chain))
  {
    hide Entry, Entries;
    buf := head;
    EntriesNothing();
    for i := 0 to |chain|
      invariant forall k :: 0 <= k < i ==> chain[k].Text?
      invariant buf == head + Entries(HopsOf(chain[..i]))
    {
      if chain[i].BadText? {
        return false, buf;
      }
      buf := buf + Entry(chain[i].hop);
      EntriesAppend(HopsOf(chain[..i]), chain[i].hop);
      assert HopsOf(chain[..i + 1]) == HopsOf(chain[..i]) + [chain[i].hop];
    }
    assert chain[..|chain|] == chain;
    ok := true;
  }

  lemma EntriesNothing()
    ensures Entries([]) == []
  {
  }

  method EncodeHeader(chain: seq<HopText>, network: string, id: IdText, newId: seq<byte>, draw: byte, random: seq<byte>)
    returns (r: EncodeResult)
    requires |newId| == 16 && |random| >= 63 && (id.Uuid? ==> |id.sid| == 16)
    ensures SessionOf(network, id, newId, draw, random).Valid()
    ensures r.InvalidHop? <==> BadText in chain
    ensures r.Encoded? ==>
              (forall t :: t in chain ==> t.Text?)
              && r.bytes == Encoding(HopsOf(chain), SessionOf(network, id, newId, draw, random))
    ensures r.Encoded? ==>
              && |r.bytes| == 24 + 34 * |chain| + (if id.NoId? then 0 else draw % 64)
              && r.bytes[8..24] == (if id.Uuid? then id.sid else newId)
              && r.bytes[6] == (if network == "udp" then 1 else 0) + (if id.NoId? then 0 else 0x80)
              && r.bytes[7] == (if id.NoId? then 0 else draw % 64)
  {
    hide Entry, Entries;
    var flags := 0;
    if network == "udp" {
      flags := 1;
    }
    var padLen := 0;
    if !id.NoId? {
      flags := flags + 0x80;
      padLen := draw % 64;
    }
    var buf := Magic() + [VERSION, |chain| % 256, flags, padLen];
    buf := buf + if id.Uuid? then id.sid else newId;
    var ok;
    ok, buf := AppendHops(buf, chain);
    if !ok {
      return InvalidHop;
    }
    buf := buf + random[..padLen];
    r := Encoded(buf);
    HeaderBytes(HopsOf(chain), network, id, newId, draw, random);
  }

  /** The fixed fields of a header in terms of the arguments of EncodeHeader. */
  lemma HeaderBytes(hops: seq<Hop>, network: string, id: IdText, newId: seq<byte>, draw: byte, random: seq<byte>)
    requires |newId| == 16 && |random| >= 63 && (id.Uuid? ==> |id.sid| == 16)
    ensures var bytes := Encoding(hops, SessionOf(network, id, newId, draw, random));
            && |bytes| == 24 + 34 * |hops| + (if id.NoId? then 0 else draw % 64)
            && bytes[8..24] == (if id.Uuid? then id.sid else newId)
            && bytes[6] == (if network == "udp" then 1 else 0) + (if id.NoId? then 0 else 0x80)
            && bytes[7] == (if id.NoId? then 0 else draw % 64)
  {
    hide Encoding, Entries;
    var s := SessionOf(network, id, newId, draw, random);
    EncodingFields(hops, s, []);
    assert Encoding(hops, s) + [] == Encoding(hops, s);
  }

  /**
   * From the arguments of EncodeHeader to the end of the chain: a chain of 1..255 normal hops
   * that draws no padding, or of one hop, visits those hops in order, under the given session
   * ID (a new one where none was given) and network, and the payload arrives intact.
   */
  lemma EncodedChainTravels(chain: seq<HopText>, network: string, id: IdText, newId: seq<byte>, draw: byte,
                            random: seq<byte>, payload: seq<byte>)
    requires |newId| == 16 && |random| >= 63 && (id.Uuid? ==> |id.sid| == 16)
    requires 1 <= |chain| <= 255 && forall t :: t in chain ==> t.Text? && Normal(t.hop)
    requires |chain| == 1 || id.NoId? || draw % 64 == 0
    ensures var s := SessionOf(network, id, newId, draw, random);
            var t := Travel(Encoding(HopsOf(chain), s) + payload);
            && t.Arrived? && t.payload == payload && |t.visits| == |chain|
            && forall i :: 0 <= i < |chain| ==>
                 t.visits[i] == Visit(chain[i].hop, if id.Uuid? then id.sid else newId, network == "udp")
  {
    hide Travel, Encoding, Normal;
    var s, hops := SessionOf(network, id, newId, draw, random), HopsOf(chain);
    forall h | h in hops
      ensures Normal(h)
    {
      var i :| 0 <= i < |hops| && hops[i] == h;
      assert chain[i] in chain;
    }
    ChainWorksIff(hops, s, payload);
  }

  /** A connection to read from: `io.ReadFull` takes n bytes or fails, draining what is left. */
  class Conn {
    var data: seq<byte>

    constructor (bytes: seq<byte>)
      ensures data == bytes
    {
      data := bytes;
    }

    method ReadFull(n: nat) returns (ok: bool, bytes: seq<byte>)
      modifies this
      ensures ok == (n <= |old(data)|)
      ensures ok ==> bytes == old(data)[..n] && data == old(data)[n..]
      ensures !ok ==> data == []
    {
      ok := n <= |data|;
      if ok {
        bytes, data := data[..n], data[n..];
      } else {
        bytes, data := data, [];
      }
    }

    /** A single byte whose read error the caller ignores, leaving the zero value. */
    method ReadByte() returns (b: byte)
      modifies this
      ensures old(data) == [] ==> b == 0 && data == []
      ensures old(data) != [] ==> b == old(data)[0] && data == old(data)[1..]
    {
      var ok, bytes := ReadFull(1);
      b := if ok then bytes[0] else 0;
    }
  }

  datatype DecodeResult = DecodeError | Next(visit: Visit, remaining: seq<byte>)

  method DecodeNextHop(c: Conn) returns (r: DecodeResult)
    modifies c
    ensures match Decode(old(c.data))
            case Failed => r.DecodeError?
            case Peeled(visit, remaining, rest) => r == Next(visit, remaining) && c.data == rest
  {
    hide PeelBody, Magic, Header;
    ghost var s := c.data;
    var ok, magic := c.ReadFull(4);
    if !ok || magic != Magic() {
      return DecodeError;
    }
    assert c.data == s[4..];
    var version := c.ReadByte();
    var nHops := c.ReadByte();
    var flags := c.ReadByte();
    var padLen := c.ReadByte();
    var sid;
    ok, sid := c.ReadFull(16);
    if !ok {
      return DecodeError;
    }
    assert |s| >= 24 && sid == s[8..24] && c.data == s[24..];
    assert version == s[4] && nHops == s[5] && flags == s[6] && padLen == s[7];
    if nHops == 0 {
      return DecodeError;
    }
    r := DecodeBody(c, version, nHops, flags, padLen, sid);
  }

  /** What DecodeNextHop does after the fixed header. */
  method DecodeBody(c: Conn, version: byte, nHops: byte, flags: byte, padLen: byte, sid: seq<byte>) returns (r: DecodeResult)
    requires nHops >= 1 && |sid| == 16
    modifies c
    ensures match PeelBody(version, nHops, flags, padLen, sid, old(c.data))
            case Failed => r.DecodeError?
            case Peeled(visit, remaining, rest) => r == Next(visit, remaining) && c.data == rest
  {
    hide Magic, Header;
    ghost var body := c.data;
    var ok, kind, port, len, addr, discarded, hops;
    ok, kind := c.ReadFull(1);
    if !ok {
      return DecodeError;
    }
    ok, port := c.ReadFull(2);
    if !ok {
      return DecodeError;
    }
    ok, len := c.ReadFull(1);
    if !ok || len[0] > ADDR_SIZE {
      return DecodeError;
    }
    ok, addr := c.ReadFull(ADDR_SIZE);
    if !ok {
      return DecodeError;
    }
    assert kind + port + len + addr == body[..ENTRY_SIZE];
    var entry := DecodeEntry(kind + port + len + addr);
    if entry.None? {
      return DecodeError;
    }
    if flags >= 0x80 && padLen > 0 {
      ok, discarded := c.ReadFull(padLen);
      if !ok {
        return DecodeError;
      }
    }
    var header := Header(version, nHops - 1, flags, padLen, sid);
    if nHops > 1 {
      ok, hops := c.ReadFull(ENTRY_SIZE * (nHops - 1));
      if !ok {
        return DecodeError;
      }
      header := header + hops;
    }
    r := Next(Visit(entry.value, sid, IsUdp(flags)), header);
  }

  datatype Action = Drop | Egress(visit: Visit) | Relay(visit: Visit, header: seq<byte>)

  /** The decision of HandleRelay, and the bytes it leaves for the byte-for-byte relay. */
  method HandleRelay(c: Conn) returns (a: Action)
    modifies c
    ensures match Decode(old(c.data))
            case Failed => a == Drop
            case Peeled(visit, remaining, rest) =>
              && c.data == rest
              && a == if remaining[5] == 0 then Egress(visit) else Relay(visit, remaining)
    ensures match a
            case Drop => Travel(old(c.data)) == Lost
            case Egress(visit) => Travel(old(c.data)) == Arrived([visit], c.data)
            case Relay(visit, header) =>
              Travel(old(c.data)) == match Travel(header + c.data)
                                     case Lost => Lost
                                     case Arrived(vs, p) => Arrived([visit] + vs, p)
  {
    hide Decode;
    var r := DecodeNextHop(c);
    if r.DecodeError? {
      return Drop;
    }
    a := if r.remaining[5] == 0 then Egress(r.visit) else Relay(r.visit, r.remaining);
  }
}
