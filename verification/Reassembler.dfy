/**
 * The receiving half of the mux: `WindowFlowController` and `Reassembler`.
 *
 * `State` is the value of a reassembler with its flow controller, and the functions on it
 * are the atomic steps of `Push` and `Read`; the classes update their fields in place and
 * are proved against those functions.  A channel operation that would block is reported as
 * an outcome instead: Push holds its lock but Read takes none, so a Read may run between
 * any two deliveries of one Push.
 */
module Reassembly {
  import opened Bytes
  import opened MuxWire

  const QUEUE_CAP := 1024

  datatype Window = Window(maxWindow: int, buffered: int, consumed: int) {
    predicate Paused() {
      buffered >= maxWindow
    }

    function Buffer(n: nat): Window {
      this.(buffered := buffered + n)
    }

    function Consume(n: nat): Window {
      this.(buffered := buffered - n, consumed := consumed + n)
    }

    function Available(): nat {
      if maxWindow - buffered < 0 then 0 else maxWindow - buffered
    }
  }

  datatype State = State(
    chunks: map<nat, seq<byte>>,
    nextSeq: nat,
    closed: bool,
    queue: seq<seq<byte>>,
    pending: seq<byte>,
    window: Window)

  function Fresh(maxWindow: int): State {
    State(map[], 0, false, [], [], Window(if maxWindow <= 0 then 16 * 1024 * 1024 else maxWindow, 0, 0))
  }

  // ----- Push -----

  /** Storing an arrived chunk, before any delivery. */
  function Store(s: State, seqNo: nat, body: seq<byte>): State {
    s.(chunks := s.chunks[seqNo := body], window := s.window.Buffer(|body|))
  }

  datatype Delivery =
    | Done(state: State)     // the delivery loop has ended
    | More(state: State)     // one chunk was sent and the loop goes round again
    | Blocked                // the output queue is full
    | SendOnClosed           // a send on a closed channel: the process would panic

  /** One turn of the delivery loop; `fin` is the FIN flag of the chunk being pushed. */
  function Deliver(s: State, fin: bool): Delivery {
    if s.nextSeq !in s.chunks || s.window.Paused() then Done(s)
    else if s.closed then SendOnClosed
    else if |s.queue| >= QUEUE_CAP then Blocked
    else
      var s' := s.(queue := s.queue + [s.chunks[s.nextSeq]],
                   chunks := s.chunks - {s.nextSeq},
                   nextSeq := (s.nextSeq + 1) % SEQ_SPACE);
      if fin && s'.chunks == map[] then Done(s'.(closed := true)) else More(s')
  }

  datatype PushOutcome = Finished(final: State) | Stalled(stalled: State) | Panicked

  /** The whole delivery loop when no Read intervenes. */
  function DeliverAll(s: State, fin: bool): PushOutcome
    decreases |s.chunks|
  {
    match Deliver(s, fin)
    case Done(s') => Finished(s')
    case More(s') =>
      assert s'.chunks.Keys == s.chunks.Keys - {s.nextSeq};
      assert |s'.chunks.Keys| < |s.chunks.Keys|;
      DeliverAll(s', fin)
    case Blocked => Stalled(s)
    case SendOnClosed => Panicked
  }

  lemma DeliverAllStep(s: State, fin: bool)
    ensures var d := Deliver(s, fin);
            && (d.Done? ==> DeliverAll(s, fin) == Finished(d.state))
            && (d.More? ==> DeliverAll(s, fin) == DeliverAll(d.state, fin))
            && (d.Blocked? ==> DeliverAll(s, fin) == Stalled(s))
            && (d.SendOnClosed? ==> DeliverAll(s, fin) == Panicked)
  {}

  // ----- Read -----

  datatype ReadOutcome = Got(state: State, bytes: seq<byte>) | Eof | Empty

  function ReadSome(s: State, cap: nat): ReadOutcome {
    if s.pending != [] then
      var n := Min(cap, |s.pending|);
      Got(s.(pending := s.pending[n..], window := s.window.Consume(n)), s.pending[..n])
    else if s.queue != [] then
      var chunk := s.queue[0];
      var n := Min(cap, |chunk|);
      Got(s.(queue := s.queue[1..], pending := chunk[n..], window := s.window.Consume(n)), chunk[..n])
    else if s.closed then Eof
    else Empty
  }

  // ----- the classes -----

  class WindowFlowController {
    const maxWindow: int
    var buffered: int
    var consumed: int

    constructor (max: int)
      ensures View() == Fresh(max).window
      ensures maxWindow == if max <= 0 then 16_777_216 else max
    {
      maxWindow := if max <= 0 then 16 * 1024 * 1024 else max;
      buffered, consumed := 0, 0;
    }

    function View(): Window
      reads this
    {
      Window(maxWindow, buffered, consumed)
    }

    method ShouldPause() returns (r: bool)
      ensures r == View().Paused()
    {
      r := buffered >= maxWindow;
    }

    method OnBuffered(n: nat)
      modifies this
      ensures View() == old(View()).Buffer(n)
    {
      buffered := buffered + n;
    }

    method OnConsumed(n: nat)
      modifies this
      ensures View() == old(View()).Consume(n)
    {
      consumed := consumed + n;
      buffered := buffered - n;
    }

    method WindowSize() returns (r: nat)
      ensures r == View().Available()
    {
      var remain := maxWindow - buffered;
      if remain < 0 {
        return 0;
      }
      r := remain;
    }

    method Reset()
      modifies this
      ensures View() == Window(maxWindow, 0, 0)
    {
      buffered, consumed := 0, 0;
    }
  }

  datatype PushResult = Accepted | Rejected | WouldBlock | Panic
  datatype ReadResult = Read(n: nat) | EndOfStream | NothingYet

  class Reassembler {
    var chunks: map<nat, seq<byte>>
    var nextSeq: nat
    var isClosed: bool
    var output: seq<seq<byte>>
    var pending: seq<byte>
    const flowCtrl: WindowFlowController

    constructor (fc: WindowFlowController)
      ensures flowCtrl == fc
      ensures View() == Fresh(1).(window := fc.View())
    {
      flowCtrl := fc;
      chunks, nextSeq, isClosed, output, pending := map[], 0, false, [], [];
    }

    function View(): State
      reads this, flowCtrl
    {
      State(chunks, nextSeq, isClosed, output, pending, flowCtrl.View())
    }

    method Push(data: seq<byte>) returns (r: PushResult)
      modifies this, flowCtrl
      ensures Parse(data).Malformed? ==> r == Rejected && View() == old(View())
      ensures Parse(data).Chunk? && Parse(data).seqNo < old(nextSeq) ==> r == Accepted && View() == old(View())
      ensures Parse(data).Chunk? && Parse(data).seqNo >= old(nextSeq) ==>
        var c := Parse(data);
        match DeliverAll(Store(old(View()), c.seqNo, c.body), c.fin)
        case Finished(s) => r == Accepted && View() == s
        case Stalled(s) => r == WouldBlock && View() == s
        case Panicked => r == Panic
    {
      if |data| < HEADER {
        return Rejected;
      }
      var seqNo := GetU32(data, 16);
      var size := GetU16(data, 20);
      var fin := data[22] % 2 == 1;
      if |data| < HEADER + size {
        return Rejected;
      }
      var chunk := data[HEADER..HEADER + size];
      if seqNo < nextSeq {
        return Accepted;
      }
      chunks := chunks[seqNo := chunk];
      flowCtrl.OnBuffered(|chunk|);
      assert View() == Store(old(View()), seqNo, chunk);
      r := Drain(fin);
    }

    /** The delivery loop of `Push`. */
    method Drain(fin: bool) returns (r: PushResult)
      modifies this
      ensures match DeliverAll(old(View()), fin)
              case Finished(s) => r == Accepted && View() == s
              case Stalled(s) => r == WouldBlock && View() == s
              case Panicked => r == Panic
    {
      hide DeliverAll;
      while true
        invariant flowCtrl.View() == old(flowCtrl.View())
        invariant DeliverAll(View(), fin) == DeliverAll(old(View()), fin)
        decreases |chunks|
      {
        ghost var before := chunks.Keys;
        DeliverAllStep(View(), fin);
        if nextSeq !in chunks {
          return Accepted;
        }
        var paused := flowCtrl.ShouldPause();
        if paused {
          return Accepted;
        }
        if isClosed {
          return Panic;
        }
        if |output| >= QUEUE_CAP {
          return WouldBlock;
        }
        output := output + [chunks[nextSeq]];
        chunks := chunks - {nextSeq};
        assert chunks.Keys == before - {nextSeq};
        nextSeq := (nextSeq + 1) % SEQ_SPACE;
        if fin && chunks == map[] {
          isClosed := true;
          return Accepted;
        }
      }
    }

    method ReadInto(p: array<byte>) returns (r: ReadResult)
      modifies this, flowCtrl, p
      ensures match ReadSome(old(View()), p.Length)
              case Got(s, bytes) =>
                && View() == s && r == Read(|bytes|) && |bytes| <= p.Length
                && p[..] == bytes + old(p[..])[|bytes|..]
              case Eof => r == EndOfStream && View() == old(View()) && p[..] == old(p[..])
              case Empty => r == NothingYet && View() == old(View()) && p[..] == old(p[..])
    {
      if |pending| > 0 {
        var n := Copy(p, pending);
        pending := pending[n..];
        flowCtrl.OnConsumed(n);
        return Read(n);
      }
      if output == [] {
        return if isClosed then EndOfStream else NothingYet;
      }
      var chunk := output[0];
      output := output[1..];
      var n := Copy(p, chunk);
      if n < |chunk| {
        pending := chunk[n..];
      }
      flowCtrl.OnConsumed(n);
      r := Read(n);
    }
  }

  /** Go's built-in `copy`. */
  method Copy(p: array<byte>, src: seq<byte>) returns (n: nat)
    modifies p
    ensures n == Min(p.Length, |src|)
    ensures p[..] == src[..n] + old(p[..])[n..]
  {
    n := Min(p.Length, |src|);
    for i := 0 to n
      invariant p[..] == src[..i] + old(p[..])[i..]
    {
      p[i] := src[i];
    }
  }
}
