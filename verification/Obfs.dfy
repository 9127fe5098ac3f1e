/**
 * The obfuscation layer: every Write becomes one padded frame, heartbeats are frames without
 * payload, and Read hands back the payload of the next frame that has one.
 * Random padding comes in as a parameter.
 */
module Obfs {
  import opened Bytes

  const FRAME_HEADER := 3

  /** PayloadLen(2) PadLen(1) Payload Padding, both lengths truncated to their fields. */
  function Frame(payload: seq<byte>, padding: seq<byte>): seq<byte> {
    U16(|payload|) + [|padding| % 256] + payload + padding
  }

  /** `int(draw) % (maxPad + 1)` in Go: the result takes the sign of the dividend. */
  function PadLen(draw: byte, maxPad: int, forced: int): (n: nat)
    requires maxPad != -1
    ensures n < 256 || n == forced
    ensures n >= forced && (0 <= forced <= maxPad ==> n <= maxPad)
    ensures 0 <= maxPad && forced <= 0 ==> n == draw % (maxPad + 1)
  {
    var m := if maxPad + 1 < 0 then -(maxPad + 1) else maxPad + 1;
    var p := if draw < m then draw else draw % m;
    if forced > p then forced else p
  }

  /** Every padding length up to the configured maximum is drawn by some random byte. */
  lemma EveryPadLenDrawn(maxPad: int, n: nat)
    requires n <= maxPad && n < 256
    ensures PadLen(n, maxPad, 0) == n
  {
  }

  /** The random bytes one frame draws. */
  datatype Noise = Noise(draw: byte, bytes: nat -> byte)

  function Padding(noise: Noise, maxPad: int, forced: int): (p: seq<byte>)
    requires maxPad != -1
    ensures |p| == PadLen(noise.draw, maxPad, forced)
  {
    seq(PadLen(noise.draw, maxPad, forced), i requires 0 <= i => noise.bytes(i))
  }

  datatype ReadOutcome =
    | Data(payload: seq<byte>, rest: seq<byte>)
    | ShortBuffer   // the frame does not fit the caller's buffer
    | Broken        // the stream ends before a whole data frame

  function ReadFrame(wire: seq<byte>, cap: nat): ReadOutcome
    decreases |wire|
  {
    if |wire| < FRAME_HEADER then Broken
    else
      var n, pad, body := GetU16(wire, 0), wire[2], wire[FRAME_HEADER..];
      if n == 0 then
        if |body| < pad then Broken else ReadFrame(body[pad..], cap)
      else if n > cap then ShortBuffer
      else if |body| < n + pad then Broken
      else Data(body[..n], body[n + pad..])
  }

  // ----- streams of frames -----

  /** One frame in flight; a heartbeat has no payload. */
  datatype Item = Item(payload: seq<byte>, padding: seq<byte>) {
    predicate Fits() {
      |payload| < 0x1_0000 && |padding| < 256
    }
  }

  function Wire(items: seq<Item>): seq<byte> {
    if items == [] then [] else Frame(items[0].payload, items[0].padding) + Wire(items[1..])
  }

  /** The payloads of the data frames, in order. */
  function Payloads(items: seq<Item>): seq<seq<byte>> {
    if items == [] then []
    else (if items[0].payload == [] then [] else [items[0].payload]) + Payloads(items[1..])
  }

  /** The frames after the first data frame. */
  function AfterData(items: seq<Item>): seq<Item> {
    if items == [] then []
    else if items[0].payload != [] then items[1..]
    else AfterData(items[1..])
  }

  lemma FrameFields(payload: seq<byte>, padding: seq<byte>, rest: seq<byte>)
    ensures var w := Frame(payload, padding) + rest;
            && |w| >= FRAME_HEADER
            && GetU16(w, 0) == |payload| % 0x1_0000 && w[2] == |padding| % 256
            && w[FRAME_HEADER..] == payload + padding + rest
  {
    var n, w := U16(|payload|), Frame(payload, padding) + rest;
    assert w == n + ([|padding| % 256] + (payload + padding + rest));
    assert w[0] == n[0] && w[1] == n[1];
    assert GetU16(w, 0) == GetU16(n, 0);
  }

  lemma ReadOne(item: Item, rest: seq<byte>, cap: nat)
    requires item.Fits()
    ensures ReadFrame(Frame(item.payload, item.padding) + rest, cap)
            == if item.payload == [] then ReadFrame(rest, cap)
               else if |item.payload| > cap then ShortBuffer
               else Data(item.payload, rest)
  {
    hide Frame, ReadFrame;
    FrameFields(item.payload, item.padding, rest);
    ReadStep(Frame(item.payload, item.padding) + rest, cap);
    Slices(item.payload, item.padding, rest);
  }

  lemma ReadStep(wire: seq<byte>, cap: nat)
    requires |wire| >= FRAME_HEADER
    ensures var n, pad, body := GetU16(wire, 0), wire[2], wire[FRAME_HEADER..];
            && (n == 0 && |body| >= pad ==> ReadFrame(wire, cap) == ReadFrame(body[pad..], cap))
            && (n > 0 && n > cap ==> ReadFrame(wire, cap) == ShortBuffer)
            && (0 < n <= cap && |body| >= n + pad ==> ReadFrame(wire, cap) == Data(body[..n], body[n + pad..]))
  {
  }

  lemma Slices<T>(a: seq<T>, b: seq<T>, c: seq<T>)
    ensures var s := a + b + c;
            |s| == |a| + |b| + |c| && s[..|a|] == a && s[|a| + |b|..] == c
  {
  }

  lemma {:induction false} ReadItems(items: seq<Item>, cap: nat)
    requires forall i :: 0 <= i < |items| ==> items[i].Fits()
    ensures var ps := Payloads(items);
            ReadFrame(Wire(items), cap)
            == if ps == [] then Broken
               else if |ps[0]| > cap then ShortBuffer
               else Data(ps[0], Wire(AfterData(items)))
    ensures Payloads(items) != [] ==> Payloads(AfterData(items)) == Payloads(items)[1..]
  {
    if items != [] {
      ReadOne(items[0], Wire(items[1..]), cap);
      ReadItems(items[1..], cap);
      hide Frame, ReadFrame, Item.Fits;
      assert Payloads(items) == (if items[0].payload == [] then [] else [items[0].payload]) + Payloads(items[1..]);
    }
  }

  lemma {:induction false} AfterDataSuffix(items: seq<Item>)
    ensures |AfterData(items)| <= |items| && AfterData(items) == items[|items| - |AfterData(items)|..]
  {
    if items != [] && items[0].payload == [] {
      AfterDataSuffix(items[1..]);
    }
  }

  /** Successive Reads with the given buffer sizes, until one fails. */
  function ReadAll(wire: seq<byte>, caps: seq<nat>): seq<seq<byte>>
    decreases |caps|
  {
    if caps == [] then []
    else match ReadFrame(wire, caps[0])
         case Data(p, rest) => [p] + ReadAll(rest, caps[1..])
         case ShortBuffer => []
         case Broken => []
  }

  /**
   * Any interleaving of data frames and heartbeats whose lengths fit their fields reads back
   * as exactly the written payloads, in order, as long as the buffers are big enough.
   */
  lemma {:induction false} Transparent(items: seq<Item>, caps: seq<nat>)
    requires forall i :: 0 <= i < |items| ==> items[i].Fits()
    requires |caps| >= |Payloads(items)|
    requires forall i :: 0 <= i < |Payloads(items)| ==> caps[i] >= |Payloads(items)[i]|
    ensures ReadAll(Wire(items), caps) == Payloads(items)
    decreases |caps|
  {
    hide ReadFrame, Wire, Payloads, AfterData;
    var ps := Payloads(items);
    if caps != [] {
      ReadItems(items, caps[0]);
      if ps != [] {
        AfterDataSuffix(items);
        assert forall i :: 0 <= i < |ps| - 1 ==> ps[1..][i] == ps[i + 1] && caps[1..][i] == caps[i + 1];
        Transparent(AfterData(items), caps[1..]);
        assert ps == [ps[0]] + ps[1..];
      }
    }
  }

  lemma {:induction false} ReadBounded(wire: seq<byte>, cap: nat)
    requires ReadFrame(wire, cap).Data?
    ensures 1 <= |ReadFrame(wire, cap).payload| <= Min(cap, 0xFFFF)
    ensures |ReadFrame(wire, cap).rest| < |wire|
    decreases |wire|
  {
    if GetU16(wire, 0) == 0 {
      ReadBounded(wire[FRAME_HEADER..][wire[2]..], cap);
    }
  }

  /** Heartbeats and then one data frame with payload `p`. */
  ghost predicate OneMessage(items: seq<Item>, p: seq<byte>) {
    && items != [] && items[|items| - 1].payload == p
    && forall i :: 0 <= i < |items| ==> items[i].Fits() && (i < |items| - 1 ==> items[i].payload == [])
  }

  /**
   * Exactly what a Read accepts: `p` comes out with `rest` left unread if and only if the wire
   * starts with whole heartbeats and one whole frame around `p`, followed by `rest`.
   */
  lemma DataIff(wire: seq<byte>, cap: nat, p: seq<byte>, rest: seq<byte>)
    ensures ReadFrame(wire, cap) == Data(p, rest)
            <==> 1 <= |p| <= cap && exists items :: OneMessage(items, p) && wire == Wire(items) + rest
  {
    hide ReadFrame, Wire, OneMessage;
    if ReadFrame(wire, cap) == Data(p, rest) {
      ReadBounded(wire, cap);
      var items := FramesRead(wire, cap);
    }
    forall items | 1 <= |p| <= cap && OneMessage(items, p) && wire == Wire(items) + rest
      ensures ReadFrame(wire, cap) == Data(p, rest)
    {
      ReadsOneMessage(items, p, rest, cap);
    }
  }

  lemma {:induction false} ReadsOneMessage(items: seq<Item>, p: seq<byte>, rest: seq<byte>, cap: nat)
    requires OneMessage(items, p) && 1 <= |p| <= cap
    ensures ReadFrame(Wire(items) + rest, cap) == Data(p, rest)
  {
    var tail := Wire(items[1..]) + rest;
    hide Frame, ReadFrame;
    assert Wire(items) + rest == Frame(items[0].payload, items[0].padding) + tail;
    ReadOne(items[0], tail, cap);
    if |items| == 1 {
      assert tail == rest;
    } else {
      ReadsOneMessage(items[1..], p, rest, cap);
    }
  }

  /** The frames a successful Read has gone through. */
  lemma {:induction false} FramesRead(wire: seq<byte>, cap: nat) returns (items: seq<Item>)
    requires ReadFrame(wire, cap).Data?
    ensures OneMessage(items, ReadFrame(wire, cap).payload) && wire == Wire(items) + ReadFrame(wire, cap).rest
    decreases |wire|
  {
    hide Frame, GetU16, OneMessage, Wire;
    var n, pad, body := GetU16(wire, 0), wire[2], wire[FRAME_HEADER..];
    var item, tail := Item(body[..n], body[n..n + pad]), body[n + pad..];
    FrameBack(wire, n, pad);
    if n == 0 {
      items := FramesRead(tail, cap);
      AfterHeartbeat(item, items, ReadFrame(tail, cap).payload, ReadFrame(tail, cap).rest);
      items := [item] + items;
    } else {
      items := [item];
      Alone(item, tail);
    }
  }

  lemma Alone(item: Item, rest: seq<byte>)
    requires item.Fits()
    ensures OneMessage([item], item.payload)
    ensures Frame(item.payload, item.padding) + rest == Wire([item]) + rest
  {
    hide Frame;
    assert Wire([item]) == Frame(item.payload, item.padding) + [];
  }

  lemma AfterHeartbeat(item: Item, items: seq<Item>, p: seq<byte>, rest: seq<byte>)
    requires OneMessage(items, p) && item.Fits() && item.payload == []
    ensures OneMessage([item] + items, p)
    ensures Frame([], item.padding) + (Wire(items) + rest) == Wire([item] + items) + rest
  {
    hide Frame;
    assert ([item] + items)[1..] == items;
  }

  lemma FrameBack(wire: seq<byte>, n: nat, pad: nat)
    requires |wire| >= FRAME_HEADER + n + pad && n == GetU16(wire, 0) && pad == wire[2]
    ensures var body := wire[FRAME_HEADER..];
            wire == Frame(body[..n], body[n..n + pad]) + body[n + pad..]
  {
    U16Again(wire, 0);
    hide U16, GetU16;
    var body := wire[FRAME_HEADER..];
    assert wire == wire[..2] + [wire[2]] + body;
    assert body == body[..n] + body[n..n + pad] + body[n + pad..];
  }

  /** A data frame delimits itself exactly when its payload and its padding fit their fields. */
  lemma FrameDelimitsIff(payload: seq<byte>, padding: seq<byte>, rest: seq<byte>, cap: nat)
    requires payload != [] && cap >= |payload|
    ensures ReadFrame(Frame(payload, padding) + rest, cap) == Data(payload, rest)
            <==> |payload| < 0x1_0000 && |padding| < 256
  {
    hide Frame, ReadFrame;
    var w := Frame(payload, padding) + rest;
    if |payload| < 0x1_0000 && |padding| < 256 {
      ReadOne(Item(payload, padding), rest, cap);
    } else if |payload| >= 0x1_0000 {
      if ReadFrame(w, cap) == Data(payload, rest) {
        ReadBounded(w, cap);
      }
    } else {
      ExtraPadding(payload, padding, rest, cap);
      assert |padding[|padding| % 256..] + rest| > |rest|;
    }
  }

  /** Padding beyond what its length byte can say is taken for the start of the next frame. */
  lemma ExtraPadding(payload: seq<byte>, padding: seq<byte>, rest: seq<byte>, cap: nat)
    requires |payload| < 0x1_0000 && |payload| <= cap
    ensures var next := padding[|padding| % 256..] + rest;
            ReadFrame(Frame(payload, padding) + rest, cap)
            == if payload == [] then ReadFrame(next, cap) else Data(payload, next)
  {
    hide Frame, ReadFrame;
    var kept := |padding| % 256;
    FrameFields(payload, padding, rest);
    Regroup(payload, padding, rest, kept);
    ReadStep(Frame(payload, padding) + rest, cap);
    Slices(payload, padding[..kept], padding[kept..] + rest);
  }

  lemma Regroup<T>(a: seq<T>, b: seq<T>, c: seq<T>, k: nat)
    requires k <= |b|
    ensures a + b + c == a + b[..k] + (b[k..] + c)
  {
    assert b == b[..k] + b[k..];
  }

  /**
   * A receiver that asks for less than a whole frame never gets it: an NP-Chain header, sent
   * as one frame, cannot be read field by field through this layer.
   */
  lemma PiecemealReadFails(message: seq<byte>, padding: seq<byte>, rest: seq<byte>, cap: nat)
    requires 1 <= |message| < 0x1_0000 && |padding| < 256
    ensures ReadFrame(Frame(message, padding) + rest, cap) == ShortBuffer <==> cap < |message|
  {
    ReadOne(Item(message, padding), rest, cap);
  }

  // ----- what a configured connection sends -----

  /** Writing a payload, or a tick of the heartbeat. */
  datatype Op = WriteOp(payload: seq<byte>, noise: Noise) | BeatOp(noise: Noise)

  /** Write forces no padding; the heartbeat forces the configured dummy size. */
  function Sent(op: Op, maxPad: int, dummy: int): Item
    requires maxPad != -1
  {
    match op
    case WriteOp(p, noise) => Item(p, Padding(noise, maxPad, 0))
    case BeatOp(noise) => Item([], Padding(noise, maxPad, dummy))
  }

  /** What Write sends delimits itself exactly when the payload fits its length field. */
  lemma WriteDelimitsIff(payload: seq<byte>, noise: Noise, maxPad: int, rest: seq<byte>, cap: nat)
    requires maxPad != -1 && payload != [] && cap >= |payload|
    ensures ReadFrame(Frame(payload, Padding(noise, maxPad, 0)) + rest, cap) == Data(payload, rest)
            <==> |payload| < 0x1_0000
  {
    hide PadLen, Frame, ReadFrame;
    FrameDelimitsIff(payload, Padding(noise, maxPad, 0), rest, cap);
  }

  /** Random bytes that look like a frame with one byte of payload where the length byte stops counting. */
  function Mimic(dummy: nat): Noise {
    Noise(0, i => if i == dummy % 256 + 1 then 1 else 0)
  }

  /** A reader takes them for a payload that nobody sent. */
  lemma MimicReads(maxPad: int, dummy: nat, cap: nat)
    requires maxPad != -1 && dummy >= 256 && cap >= 1
    ensures ReadFrame(Frame([], Padding(Mimic(dummy), maxPad, dummy)) + [], cap).Data?
    ensures ReadFrame([], cap) == Broken
  {
    var p, kept := Padding(Mimic(dummy), maxPad, dummy), dummy % 256;
    assert |p| == dummy;
    ExtraPadding([], p, [], cap);
    hide Frame, Padding;
    var w := p[kept..] + [];
    assert w[0] == 0 && w[1] == 1 && w[2] == 0 && |w| >= 256;
    assert GetU16(w, 0) == 1;
    ReadStep(w, cap);
  }

  /** Every heartbeat is invisible to every reader if and only if the dummy size is at most 255. */
  lemma HeartbeatInvisibleIff(maxPad: int, dummy: int)
    requires maxPad != -1
    ensures (forall noise: Noise, rest, cap: nat ::
               ReadFrame(Frame([], Padding(noise, maxPad, dummy)) + rest, cap) == ReadFrame(rest, cap))
            <==> dummy <= 255
  {
    hide Frame, ReadFrame, Padding, PadLen;
    if dummy <= 255 {
      forall noise: Noise, rest, cap: nat
        ensures ReadFrame(Frame([], Padding(noise, maxPad, dummy)) + rest, cap) == ReadFrame(rest, cap)
      {
        ReadOne(Item([], Padding(noise, maxPad, dummy)), rest, cap);
      }
    } else {
      MimicReads(maxPad, dummy, 1);
    }
  }

  /** At a dummy size of 256 the length byte says 0, and the whole padding is read as frames. */
  lemma DummySize256(noise: Noise, maxPad: int, rest: seq<byte>, cap: nat)
    requires maxPad != -1
    ensures |Padding(noise, maxPad, 256)| == 256
    ensures ReadFrame(Frame([], Padding(noise, maxPad, 256)) + rest, cap)
            == ReadFrame(Padding(noise, maxPad, 256) + rest, cap)
  {
    hide Frame, ReadFrame;
    var p := Padding(noise, maxPad, 256);
    ExtraPadding([], p, rest, cap);
    assert p[0..] == p;
  }

  function AllSent(ops: seq<Op>, maxPad: int, dummy: int): (items: seq<Item>)
    requires maxPad != -1
    ensures |items| == |ops|
  {
    seq(|ops|, i requires 0 <= i < |ops| => Sent(ops[i], maxPad, dummy))
  }

  /** Payloads that fit, read with big enough buffers. */
  ghost predicate Fair(ops: seq<Op>, maxPad: int, dummy: int, caps: seq<nat>)
    requires maxPad != -1
  {
    var ps := Payloads(AllSent(ops, maxPad, dummy));
    && (forall i :: 0 <= i < |ops| && ops[i].WriteOp? ==> 1 <= |ops[i].payload| < 0x1_0000)
    && |caps| >= |ps| && forall i :: 0 <= i < |ps| ==> caps[i] >= |ps[i]|
  }

  /**
   * A configured connection is transparent, for every interleaving of writes and heartbeats,
   * if and only if its dummy size is at most 255.
   */
  lemma TransparentIff(maxPad: int, dummy: int)
    requires maxPad != -1
    ensures (forall ops, caps :: Fair(ops, maxPad, dummy, caps) ==>
               ReadAll(Wire(AllSent(ops, maxPad, dummy)), caps) == Payloads(AllSent(ops, maxPad, dummy)))
            <==> dummy <= 255
  {
    hide ReadFrame, Frame, Padding, PadLen;
    if dummy <= 255 {
      forall ops, caps | Fair(ops, maxPad, dummy, caps)
        ensures ReadAll(Wire(AllSent(ops, maxPad, dummy)), caps) == Payloads(AllSent(ops, maxPad, dummy))
      {
        var items := AllSent(ops, maxPad, dummy);
        assert forall i :: 0 <= i < |items| ==> items[i].Fits();
        hide Wire, Payloads, ReadAll;
        Transparent(items, caps);
      }
    } else {
      MimicReads(maxPad, dummy, 1);
      var ops, caps := [BeatOp(Mimic(dummy))], [1];
      var items := AllSent(ops, maxPad, dummy);
      var p := Padding(Mimic(dummy), maxPad, dummy);
      assert items == [Item([], p)] && items[1..] == [];
      assert Wire(items) == Frame([], p) + [] && Payloads(items) == [];
      assert Fair(ops, maxPad, dummy, caps);
      assert ReadAll(Wire(items), caps) != [];
    }
  }

  // ----- the connection -----

  class ObfsConn {
    const maxPad: int
    const dummy: int
    /** Bytes that have arrived and are not yet read. */
    var inbox: seq<byte>
    /** Bytes written so far. */
    var outbox: seq<byte>

    constructor (maxPad: int, dummy: int, incoming: seq<byte>)
      ensures this.maxPad == maxPad && this.dummy == dummy && inbox == incoming && outbox == []
    {
      this.maxPad, this.dummy, inbox, outbox := maxPad, dummy, incoming, [];
    }

    method SendFrame(p: seq<byte>, forced: int, noise: Noise, accepted: bool) returns (ok: bool)
      requires maxPad != -1
      modifies this`outbox
      ensures ok == accepted
      ensures outbox == old(outbox) + if ok then Frame(p, Padding(noise, maxPad, forced)) else []
    {
      hide U16, PadLen;
      var padLen := PadLen(noise.draw, maxPad, forced);
      var header := U16(|p|) + [padLen % 256];
      var buf := new byte[FRAME_HEADER + |p| + padLen];
      Fill(buf, 0, header);
      Fill(buf, FRAME_HEADER, p);
      Fill(buf, FRAME_HEADER + |p|, Padding(noise, maxPad, forced));
      assert buf[..] == buf[..FRAME_HEADER] + buf[FRAME_HEADER..FRAME_HEADER + |p|] + buf[FRAME_HEADER + |p|..];
      ok := accepted;
      if ok {
        outbox := outbox + buf[..];
      }
    }

    method Write(p: seq<byte>, noise: Noise, accepted: bool) returns (n: nat, ok: bool)
      requires maxPad != -1
      modifies this`outbox
      ensures p == [] ==> n == 0 && ok && outbox == old(outbox)
      ensures p != [] ==> ok == accepted && n == (if ok then |p| else 0)
                          && outbox == old(outbox) + if ok then Frame(p, Padding(noise, maxPad, 0)) else []
    {
      if |p| == 0 {
        return 0, true;
      }
      ok := SendFrame(p, 0, noise, accepted);
      n := if ok then |p| else 0;
    }

    /** One tick of the heartbeat loop. */
    method Heartbeat(noise: Noise)
      requires maxPad != -1
      modifies this`outbox
      ensures outbox == old(outbox) + Frame([], Padding(noise, maxPad, dummy))
    {
      var ok := SendFrame([], dummy, noise, true);
    }

    method Read(p: array<byte>) returns (n: nat, ok: bool)
      modifies this`inbox, p
      ensures match ReadFrame(old(inbox), p.Length)
              case Data(payload, rest) =>
                ok && n == |payload| <= p.Length && p[..n] == payload && inbox == rest
              case ShortBuffer => !ok && n == 0
              case Broken => !ok && n == 0
    {
      while true
        invariant ReadFrame(inbox, p.Length) == ReadFrame(old(inbox), p.Length)
        decreases |inbox|
      {
        if |inbox| < FRAME_HEADER {
          return 0, false;
        }
        var payloadLen, padLen := GetU16(inbox, 0), inbox[2];
        inbox := inbox[FRAME_HEADER..];
        if payloadLen == 0 {
          if |inbox| < padLen {
            return 0, false;
          }
          inbox := inbox[padLen..];
        } else {
          if payloadLen > p.Length {
            return 0, false;
          }
          if |inbox| < payloadLen {
            return 0, false;
          }
          Fill(p, 0, inbox[..payloadLen]);
          inbox := inbox[payloadLen..];
          if |inbox| < padLen {
            return 0, false;
          }
          inbox := inbox[padLen..];
          return payloadLen, true;
        }
      }
    }
  }

  /** Copies `src` into the buffer from position `at`. */
  method Fill(buf: array<byte>, at: nat, src: seq<byte>)
    requires at + |src| <= buf.Length
    modifies buf
    ensures buf[..at] == old(buf[..at]) && buf[at..at + |src|] == src
    ensures buf[at + |src|..] == old(buf[at + |src|..])
  {
    forall i | 0 <= i < |src| {
      buf[at + i] := src[i];
    }
  }
}
