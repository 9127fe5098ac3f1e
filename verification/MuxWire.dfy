/**
 * The sending half of the multi-connection mux: `Aggregator.Write` cuts a buffer into
 * sequenced chunks and deals the framed chunks round-robin over the connections.
 */
module MuxWire {
  import opened Basics
  import opened Bytes

  const HEADER := 24
  const SEQ_SPACE := 0x1_0000_0000
  const SIZE_SPACE := 0x1_0000

  // ----- frames -----

  /** SessionID(16) Seq(4) ChunkSize(2) Flags(1) Reserved(1), then the whole chunk. */
  function Frame(sid: seq<byte>, seqNo: nat, piece: seq<byte>, fin: bool): seq<byte> {
    sid + U32(seqNo) + U16(|piece|) + [if fin then 1 else 0, 0] + piece
  }

  /** The layout of a frame, byte by byte; the session ID of the aggregator comes first. */
  lemma FrameLayout(sid: seq<byte>, seqNo: nat, piece: seq<byte>, fin: bool)
    requires |sid| == 16
    ensures var f := Frame(sid, seqNo, piece, fin);
            && |f| == 24 + |piece| && f[..16] == sid && f[24..] == piece
            && GetU32(f, 16) == seqNo % 0x1_0000_0000 && GetU16(f, 20) == |piece| % 0x1_0000
            && f[22] == (if fin then 1 else 0) && f[23] == 0
  {
    var f, num, size := Frame(sid, seqNo, piece, fin), U32(seqNo), U16(|piece|);
    assert f[16..20] == num && f[20..22] == size;
    assert GetU32(f, 16) == GetU32(num, 0) by {
      assert forall k :: 0 <= k < 4 ==> f[16 + k] == num[k];
    }
    assert GetU16(f, 20) == GetU16(size, 0);
  }

  datatype Parsed = Malformed | Chunk(seqNo: nat, fin: bool, body: seq<byte>)

  /** What `Reassembler.Push` makes of the bytes it is given. */
  function Parse(data: seq<byte>): Parsed {
    if |data| < HEADER then Malformed
    else
      var size := GetU16(data, 20);
      if |data| < HEADER + size then Malformed
      else Chunk(GetU32(data, 16), data[22] % 2 == 1, data[HEADER..HEADER + size])
  }

  /** The part of a chunk that survives the 16-bit size field. */
  function Kept(piece: seq<byte>): seq<byte> {
    piece[..|piece| % SIZE_SPACE]
  }

  lemma ParseFrame(sid: seq<byte>, seqNo: nat, piece: seq<byte>, fin: bool)
    requires |sid| == 16
    ensures Parse(Frame(sid, seqNo, piece, fin)) == Chunk(seqNo % SEQ_SPACE, fin, Kept(piece))
  {
    var f := Frame(sid, seqNo, piece, fin);
    var num, size := U32(seqNo), U16(|piece|);
    assert f[16..20] == num;
    assert f[20..22] == size;
    assert GetU32(f, 16) == GetU32(num, 0) by {
      assert forall k :: 0 <= k < 4 ==> f[16 + k] == num[k];
    }
    assert GetU16(f, 20) == GetU16(size, 0);
    assert f[22] == if fin then 1 else 0;
    assert f[24..] == piece;
    assert f[24..24 + |piece| % SIZE_SPACE] == Kept(piece);
  }

  /**
   * Exactly what Push accepts: 16 bytes it ignores, the number, the size, a flag byte whose lowest
   * bit says FIN, a byte it ignores, the chunk, and anything behind it.
   */
  lemma ParseIff(data: seq<byte>, seqNo: nat, fin: bool, body: seq<byte>)
    ensures Parse(data) == Chunk(seqNo, fin, body)
            <==> && seqNo < 0x1_0000_0000 && |body| < 0x1_0000
                 && exists sid, flags: byte, reserved: byte, tail ::
                      && |sid| == 16 && (flags % 2 == 1 <==> fin)
                      && data == RawFrame(sid, seqNo, flags, reserved, body, tail)
  {
    hide RawFrame, GetU32, GetU16;
    if Parse(data) == Chunk(seqNo, fin, body) {
      RawFrameBack(data, |body|);
    }
    forall sid, flags: byte, reserved: byte, tail
      | && |sid| == 16 && (flags % 2 == 1 <==> fin) && seqNo < SEQ_SPACE && |body| < SIZE_SPACE
        && data == RawFrame(sid, seqNo, flags, reserved, body, tail)
      ensures Parse(data) == Chunk(seqNo, fin, body)
    {
      RawFrameFields(sid, seqNo, flags, reserved, body, tail);
    }
  }

  function RawFrame(sid: seq<byte>, seqNo: nat, flags: byte, reserved: byte, body: seq<byte>, tail: seq<byte>): seq<byte> {
    sid + U32(seqNo) + U16(|body|) + [flags, reserved] + body + tail
  }

  lemma RawFrameBack(data: seq<byte>, n: nat)
    requires |data| >= HEADER + n && n == GetU16(data, 20)
    ensures data == RawFrame(data[..16], GetU32(data, 16), data[22], data[23], data[24..24 + n], data[24 + n..])
  {
    U32Again(data, 16);
    U16Again(data, 20);
    hide U32, U16, GetU32, GetU16;
    assert data == data[..16] + data[16..20] + data[20..22] + [data[22], data[23]] + data[24..24 + n] + data[24 + n..];
  }

  lemma RawFrameFields(sid: seq<byte>, seqNo: nat, flags: byte, reserved: byte, body: seq<byte>, tail: seq<byte>)
    requires |sid| == 16
    ensures var f := RawFrame(sid, seqNo, flags, reserved, body, tail);
            && |f| == 24 + |body| + |tail| && f[24..24 + |body|] == body && f[22] == flags && f[23] == reserved
            && GetU32(f, 16) == seqNo % 0x1_0000_0000 && GetU16(f, 20) == |body| % 0x1_0000
  {
    var num, size := U32(seqNo), U16(|body|);
    var f := sid + num + size + [flags, reserved] + body + tail;
    assert forall k :: 0 <= k < 4 ==> f[16 + k] == num[k];
    assert f[20] == size[0] && f[21] == size[1];
    assert GetU32(f, 16) == GetU32(num, 0);
    assert GetU16(f, 20) == GetU16(size, 0);
  }

  /** A frame cut short is rejected exactly when the cut removes a byte its 16-bit size covers. */
  lemma TruncatedFrameRejectedIff(sid: seq<byte>, seqNo: nat, piece: seq<byte>, fin: bool, n: nat)
    requires |sid| == 16 && n <= |Frame(sid, seqNo, piece, fin)|
    ensures Parse(Frame(sid, seqNo, piece, fin)[..n]).Malformed? <==> n < HEADER + |piece| % SIZE_SPACE
  {
    ParseFrame(sid, seqNo, piece, fin);
    var f := Frame(sid, seqNo, piece, fin);
    if n >= HEADER {
      assert GetU16(f[..n], 20) == GetU16(f, 20);
      assert f[20..22] == U16(|piece|);
      assert GetU16(f, 20) == GetU16(U16(|piece|), 0);
    }
  }

  // ----- cutting -----

  function Pieces(data: seq<byte>, size: nat): seq<seq<byte>>
    requires size >= 1
    decreases |data|
  {
    if data == [] then []
    else
      var n := Min(|data|, size);
      [data[..n]] + Pieces(data[n..], size)
  }

  /** The chunk bodies the receiver extracts, in sequence order. */
  function Bodies(pieces: seq<seq<byte>>): seq<seq<byte>> {
    seq(|pieces|, i requires 0 <= i < |pieces| => Kept(pieces[i]))
  }

  function Frames(sid: seq<byte>, pieces: seq<seq<byte>>): seq<seq<byte>> {
    seq(|pieces|, i requires 0 <= i < |pieces| => Frame(sid, i, pieces[i], i == |pieces| - 1))
  }

  lemma {:induction false} PiecesCover(data: seq<byte>, size: nat)
    requires size >= 1
    ensures Flatten(Pieces(data, size)) == data
    ensures data != [] ==> Pieces(data, size) != []
    ensures forall p :: p in Pieces(data, size) ==> 1 <= |p| <= size
    decreases |data|
  {
    if data != [] {
      var n := Min(|data|, size);
      PiecesCover(data[n..], size);
      assert data == data[..n] + data[n..];
    }
  }

  /** What the receiver can rebuild at best. */
  function Carried(data: seq<byte>, size: nat): seq<byte>
    requires size >= 1
  {
    Flatten(Bodies(Pieces(data, size)))
  }

  lemma CarriedUnfold(data: seq<byte>, size: nat)
    requires size >= 1 && data != []
    ensures Carried(data, size) == Kept(data[..Min(|data|, size)]) + Carried(data[Min(|data|, size)..], size)
  {
    var n := Min(|data|, size);
    var rest := Pieces(data[n..], size);
    assert Pieces(data, size) == [data[..n]] + rest;
    var bs := Bodies(Pieces(data, size));
    assert bs[1..] == Bodies(rest);
    assert bs[0] == Kept(data[..n]);
  }

  lemma {:induction false} CarriedLength(data: seq<byte>, size: nat)
    requires size >= 1
    ensures |Carried(data, size)| <= |data|
    decreases |data|
  {
    if data != [] {
      CarriedUnfold(data, size);
      CarriedLength(data[Min(|data|, size)..], size);
    }
  }

  lemma {:induction false} CarriedWhole(data: seq<byte>, size: nat)
    requires 1 <= size < SIZE_SPACE || (size >= 1 && |data| < SIZE_SPACE)
    ensures Carried(data, size) == data
    decreases |data|
  {
    if data != [] {
      var n := Min(|data|, size);
      CarriedUnfold(data, size);
      CarriedWhole(data[n..], size);
      assert data == data[..n] + data[n..];
      assert Kept(data[..n]) == data[..n];
    }
  }

  /** The 16-bit size field loses nothing exactly when the chunk size or the buffer fits it. */
  lemma LosslessIff(data: seq<byte>, size: nat)
    requires size >= 1
    ensures Carried(data, size) == data <==> size < SIZE_SPACE || |data| < SIZE_SPACE
  {
    if size < SIZE_SPACE || |data| < SIZE_SPACE {
      CarriedWhole(data, size);
    } else {
      var n := Min(|data|, size);
      CarriedUnfold(data, size);
      CarriedLength(data[n..], size);
      assert |Kept(data[..n])| < n;
    }
  }

  /** At the default chunk size of 64 KiB only the last `|data| mod 65536` bytes get through. */
  lemma {:induction false} DefaultChunkKeepsTail(data: seq<byte>)
    ensures Carried(data, SIZE_SPACE) == data[|data| - |data| % SIZE_SPACE..]
    decreases |data|
  {
    if |data| >= SIZE_SPACE {
      var rest := data[SIZE_SPACE..];
      CarriedUnfold(data, SIZE_SPACE);
      DefaultChunkKeepsTail(rest);
      assert Kept(data[..SIZE_SPACE]) == [];
      assert |data| % SIZE_SPACE == |rest| % SIZE_SPACE;
      assert Carried(data, SIZE_SPACE) == rest[|rest| - |rest| % SIZE_SPACE..];
    } else {
      CarriedWhole(data, SIZE_SPACE);
      assert |data| % SIZE_SPACE == |data|;
    }
  }

  // ----- round-robin dealing -----

  /** Item k of `items` goes to the end of lane (start + k) mod |lanes|. */
  function Deal<T>(lanes: seq<seq<T>>, start: nat, items: seq<T>): (r: seq<seq<T>>)
    requires items != [] ==> |lanes| > 0
    ensures |r| == |lanes|
    decreases |items|
  {
    if items == [] then lanes
    else
      var last := |items| - 1;
      var prev := Deal(lanes, start, items[..last]);
      var j := (start + last) % |lanes|;
      prev[j := prev[j] + [items[last]]]
  }

  lemma DealNext<T>(lanes: seq<seq<T>>, start: nat, items: seq<T>, k: nat, counter: nat)
    requires |lanes| > 0 && k < |items| && counter == start + k
    ensures var prev := Deal(lanes, start, items[..k]);
            var j := counter % |lanes|;
            Deal(lanes, start, items[..k + 1]) == prev[j := prev[j] + [items[k]]]
  {
    assert items[..k + 1][..k] == items[..k];
  }

  /** Lanes from `first` up to `cursor`, going round, are one item ahead. */
  predicate Ahead(first: nat, cursor: nat, j: nat) {
    if first <= cursor then first <= j < cursor else j >= first || j < cursor
  }

  ghost predicate Level<T>(lanes: seq<seq<T>>, q: nat, first: nat, cursor: nat) {
    forall j :: 0 <= j < |lanes| ==> |lanes[j]| == q + if Ahead(first, cursor, j) then 1 else 0
  }

  lemma {:induction false} DealLevel<T>(n: nat, start: nat, items: seq<T>) returns (q: nat)
    requires n > 0
    ensures Level(Deal(seq(n, i => []), start, items), q, start % n, (start + |items|) % n)
    decreases |items|
  {
    if items == [] {
      q := 0;
    } else {
      var k := |items| - 1;
      var lanes: seq<seq<T>> := seq(n, i => []);
      var prev := Deal(lanes, start, items[..k]);
      q := DealLevel(n, start, items[..k]);
      assert items[..k + 1] == items;
      DealNext(lanes, start, items, k, start + k);
      ModNext(start + k, n);
      hide Deal, Level, Ahead;
      q := LevelStep(prev, items[k], q, start % n, (start + k) % n, (start + |items|) % n);
    }
  }

  lemma LevelStep<T>(lanes: seq<seq<T>>, item: T, q: nat, first: nat, cursor: nat, next: nat) returns (r: nat)
    requires first < |lanes| && cursor < |lanes| && Level(lanes, q, first, cursor)
    requires next == if cursor + 1 == |lanes| then 0 else cursor + 1
    ensures Level(lanes[cursor := lanes[cursor] + [item]], r, first, next)
  {
    CursorStep(first, cursor, next, |lanes|);
    r := if next == first then q + 1 else q;
    hide Ahead;
  }

  /** Moving the cursor on puts exactly the lane it leaves ahead, or completes a round. */
  lemma CursorStep(first: nat, cursor: nat, next: nat, n: nat)
    requires first < n && cursor < n && next == if cursor + 1 == n then 0 else cursor + 1
    ensures !Ahead(first, cursor, cursor)
    ensures next != first ==> forall j :: 0 <= j < n ==> (Ahead(first, next, j) <==> Ahead(first, cursor, j) || j == cursor)
    ensures next == first ==> forall j :: 0 <= j < n ==> !Ahead(first, next, j) && (Ahead(first, cursor, j) <==> j != cursor)
  {
  }

  /** Round-robin is balanced: no connection ever carries more than one packet more than another. */
  lemma DealBalanced<T>(n: nat, start: nat, items: seq<T>, j: nat, k: nat)
    requires j < n && k < n
    ensures var lanes := Deal(seq(n, i => []), start, items);
            |lanes[j]| <= |lanes[k]| + 1
  {
    var q := DealLevel(n, start, items);
    hide Deal;
  }

  lemma NextPiece(pieces: seq<seq<byte>>, k: nat, rest: seq<byte>, size: nat)
    requires size >= 1 && rest != [] && k <= |pieces|
    requires pieces[k..] == Pieces(rest, size)
    ensures var n := Min(|rest|, size);
            && k < |pieces|
            && pieces[k] == rest[..n]
            && pieces[k + 1..] == Pieces(rest[n..], size)
            && (rest[n..] == [] <==> k == |pieces| - 1)
  {
    var n := Min(|rest|, size);
    assert pieces[k..] == [rest[..n]] + Pieces(rest[n..], size);
    assert pieces[k] == pieces[k..][0];
    assert pieces[k + 1..] == pieces[k..][1..];
    PiecesCover(rest[n..], size);
  }

  datatype WriteResult = Wrote(n: nat) | WriteFailed(conn: nat)

  datatype Outcome = Outcome(conns: seq<seq<seq<byte>>>, counter: nat, result: WriteResult)

  /** The loop of `Write`, from chunk `k` on, with `rest` still to be sent. */
  function Emit(sid: seq<byte>, size: nat, total: nat, conns: seq<seq<seq<byte>>>, counter: nat,
                rest: seq<byte>, k: nat, failAt: nat): Outcome
    requires size >= 1 && |conns| > 0
    decreases |rest|
  {
    if rest == [] then Outcome(conns, counter, Wrote(total))
    else
      var idx := counter % |conns|;
      var n := Min(|rest|, size);
      if k == failAt then Outcome(conns, counter + 1, WriteFailed(idx))
      else
        var frame := Frame(sid, k, rest[..n], rest[n..] == []);
        Emit(sid, size, total, conns[idx := conns[idx] + [frame]], counter + 1, rest[n..], k + 1, failAt)
  }

  lemma {:induction false} EmitDeals(sid: seq<byte>, size: nat, total: nat, start: seq<seq<seq<byte>>>, first: nat,
                                     pieces: seq<seq<byte>>, rest: seq<byte>, k: nat, failAt: nat)
    requires size >= 1 && |start| > 0 && k <= |pieces| && k <= failAt
    requires pieces[k..] == Pieces(rest, size)
    ensures var frames := Frames(sid, pieces);
            var sent := Min(failAt, |pieces|);
            Emit(sid, size, total, Deal(start, first, frames[..k]), first + k, rest, k, failAt)
            == Outcome(Deal(start, first, frames[..sent]), first + Min(failAt + 1, |pieces|),
                       if sent == |pieces| then Wrote(total) else WriteFailed((first + sent) % |start|))
    decreases |rest|
  {
    hide Frame, Deal;
    if rest != [] {
      NextPiece(pieces, k, rest, size);
      if k != failAt {
        DealNext(start, first, Frames(sid, pieces), k, first + k);
        EmitDeals(sid, size, total, start, first, pieces, rest[Min(|rest|, size)..], k + 1, failAt);
      }
    }
  }

  lemma WriteOutcome(sid: seq<byte>, size: nat, conns: seq<seq<seq<byte>>>, counter: nat,
                     data: seq<byte>, failAt: nat)
    requires size >= 1 && (data != [] ==> |conns| > 0)
    ensures var pieces := Pieces(data, size);
            var sent := Min(failAt, |pieces|);
            var dealt := Deal(conns, counter, Frames(sid, pieces)[..sent]);
            if data == [] then pieces == [] && dealt == conns
            else Emit(sid, size, |data|, conns, counter, data, 0, failAt)
                 == Outcome(dealt, counter + Min(failAt + 1, |pieces|),
                            if sent == |pieces| then Wrote(|data|) else WriteFailed((counter + sent) % |conns|))
  {
    hide Frame, Emit;
    if data != [] {
      EmitDeals(sid, size, |data|, conns, counter, Pieces(data, size), data, 0, failAt);
    }
  }

  class Aggregator {
    const sessionID: seq<byte>
    const chunkSize: nat
    var nextConn: nat
    /** The messages written to each connection so far. */
    var conns: seq<seq<seq<byte>>>

    ghost predicate Valid()
      reads this
    {
      |sessionID| == 16 && chunkSize >= 1
    }

    constructor (lanes: nat, sid: seq<byte>, size: int)
      requires |sid| == 16
      ensures Valid() && nextConn == 0 && conns == seq(lanes, i => [])
      ensures sessionID == sid
      ensures chunkSize == if size <= 0 then 64 * 1024 else size
    {
      sessionID := sid;
      chunkSize := if size <= 0 then 64 * 1024 else size;
      nextConn := 0;
      conns := seq(lanes, i => []);
    }

    /** Frames one chunk and writes it to the next connection in turn, which may refuse it. */
    method Send(seqNo: nat, chunk: seq<byte>, fin: bool, refused: bool) returns (ok: bool, idx: nat)
      requires |conns| > 0
      modifies this
      ensures ok == !refused
      ensures nextConn == old(nextConn) + 1
      ensures |conns| == |old(conns)| && idx == old(nextConn) % |conns|
      ensures conns == if refused then old(conns)
                       else old(conns)[idx := old(conns)[idx] + [Frame(sessionID, seqNo, chunk, fin)]]
    {
      var buf := sessionID + U32(seqNo) + U16(|chunk|);
      var flags := 0;
      if fin {
        flags := 1;
      }
      buf := buf + [flags, 0] + chunk;
      assert buf == Frame(sessionID, seqNo, chunk, fin);
      idx := nextConn % |conns|;
      nextConn := nextConn + 1;
      ok := !refused;
      if ok {
        conns := conns[idx := conns[idx] + [buf]];
      }
    }

    /**
     * `failAt` is the number of the first chunk whose connection reports a write error.
     * The round-robin counter is a 32-bit integer whose overflow would make the index negative.
     */
    method Write(data: seq<byte>, failAt: nat) returns (r: WriteResult)
      requires Valid()
      requires data != [] ==> |conns| > 0
      requires nextConn + |Pieces(data, chunkSize)| <= 0x8000_0000
      modifies this
      ensures var pieces := Pieces(data, chunkSize);
              var sent := Min(failAt, |pieces|);
              && conns == Deal(old(conns), old(nextConn), Frames(sessionID, pieces)[..sent])
              && r == if sent == |pieces| then Wrote(|data|) else WriteFailed((old(nextConn) + sent) % |old(conns)|)
      ensures nextConn == old(nextConn) + Min(failAt + 1, |Pieces(data, chunkSize)|)
    {
      hide Frame, Frames, Deal, Pieces;
      var rest := data;
      var seqNo := 0;
      ghost var total := |data|;
      WriteOutcome(sessionID, chunkSize, conns, nextConn, data, failAt);
      while rest != []
        invariant |conns| == |old(conns)|
        invariant data != [] ==> Emit(sessionID, chunkSize, total, conns, nextConn, rest, seqNo, failAt)
                                 == Emit(sessionID, chunkSize, total, old(conns), old(nextConn), data, 0, failAt)
        invariant data == [] ==> rest == [] && conns == old(conns) && nextConn == old(nextConn)
        decreases |rest|
      {
        var size := Min(|rest|, chunkSize);
        var chunk := rest[..size];
        rest := rest[size..];
        var ok, idx := Send(seqNo, chunk, rest == [], seqNo == failAt);
        if !ok {
          return WriteFailed(idx);
        }
        seqNo := seqNo + 1;
      }
      r := Wrote(|data|);
    }
  }
}
