/** The properties of the mux, each over every run. */
module MuxTheorems {
  import opened Basics
  import opened Bytes
  import opened MuxWire
  import opened Reassembly
  import opened MuxRuns

  // ----- safety -----

  /**
   * In every reachable state the bytes returned, pending and queued are exactly the first
   * `nextSeq` chunks; the end of the stream is reported only after everything; the closed
   * channel is never sent on; the flow controller conserves bytes.
   */
  lemma ReassemblySafety(stream: seq<seq<byte>>, maxWindow: int, es: seq<Event>, s: Sys)
    requires |stream| < SEQ_SPACE
    requires Run(stream, Start(maxWindow), es, s)
    ensures s.st.nextSeq <= |stream|
    ensures s.returned + s.st.pending + Flatten(s.st.queue) == Flatten(stream[..s.st.nextSeq])
    ensures s.eof ==> s.returned == Flatten(stream)
    ensures !s.crashed
    ensures s.st.window.consumed == |s.returned|
    ensures s.st.window.buffered
            == Held(s.st.chunks, |stream|) + |Flatten(s.st.queue)| + |s.st.pending| + s.repeated
    ensures var outstanding := Held(s.st.chunks, |stream|) + |Flatten(s.st.queue)| + |s.st.pending| + s.repeated;
            s.st.window.Available() == if outstanding >= s.st.window.maxWindow then 0
                                       else s.st.window.maxWindow - outstanding
    ensures forall k: nat :: k in s.arrived <==> k < s.st.nextSeq || k in s.st.chunks
  {
    StartInv(stream, maxWindow);
    RunInv(stream, Start(maxWindow), es, s);
  }

  /** A Push that no Read interrupts is a run of the step system. */
  lemma {:induction false} PushIsRun(stream: seq<seq<byte>>, s: Sys, fin: bool) returns (es: seq<Event>, s': Sys)
    requires Inv(stream, s) && s.pusher == Delivering(fin)
    ensures Run(stream, s, es, s') && !DeliverAll(s.st, fin).Panicked?
    ensures DeliverAll(s.st, fin).Finished? ==> s'.pusher.Idle? && s'.st == DeliverAll(s.st, fin).final
    ensures DeliverAll(s.st, fin).Stalled? ==> s'.pusher == s.pusher && s'.st == DeliverAll(s.st, fin).stalled
    decreases |s.st.chunks|
  {
    var d := Deliver(s.st, fin);
    DeliverAllStep(s.st, fin);
    if d.Blocked? {
      es, s' := [], s;
    } else {
      TurnKeeps(stream, s);
      if d.More? {
        assert d.state.chunks.Keys == s.st.chunks.Keys - {s.st.nextSeq};
        var es1, s1 := PushIsRun(stream, Next(s, Turn), fin);
        es, s' := [Turn] + es1, s1;
        assert es[1..] == es1;
      } else {
        es, s' := [Turn], AfterTurn(s);
      }
    }
  }

  /** The queue never holds more than 1024 chunks, and that is exactly when a delivery has to wait. */
  lemma QueueBound(stream: seq<seq<byte>>, maxWindow: int, es: seq<Event>, s: Sys)
    requires |stream| < SEQ_SPACE && Run(stream, Start(maxWindow), es, s)
    ensures |s.st.queue| <= 1024
    ensures s.pusher.Delivering? ==>
              (!Enabled(s, Turn) <==>
                 |s.st.queue| == 1024 && s.st.nextSeq in s.st.chunks && s.st.window.buffered < s.st.window.maxWindow)
  {
    StartInv(stream, maxWindow);
    RunInv(stream, Start(maxWindow), es, s);
    QueueStays(stream, Start(maxWindow), es, s);
  }

  lemma {:induction false} QueueStays(stream: seq<seq<byte>>, s: Sys, es: seq<Event>, s': Sys)
    requires Run(stream, s, es, s') && |s.st.queue| <= QUEUE_CAP
    ensures |s'.st.queue| <= QUEUE_CAP
    decreases |es|
  {
    hide Parse;
    if es != [] {
      QueueStays(stream, Next(s, es[0]), es[1..], s');
    }
  }

  // ----- backpressure -----

  ghost predicate Drained(s: Sys) {
    s.st.pending == [] && s.st.queue == []
  }

  /** Some single push would get the next chunk delivered. */
  ghost predicate CanAdvance(stream: seq<seq<byte>>, s: Sys) {
    exists j :: s.st.nextSeq <= j < |stream|
                && (s.st.nextSeq in s.st.chunks || j == s.st.nextSeq)
                && s.st.window.buffered + |stream[j]| < s.st.window.maxWindow
  }

  ghost predicate Stuck(stream: seq<seq<byte>>, s: Sys) {
    && Drained(s) && !CanAdvance(stream, s)
    && (s.pusher.Delivering? ==> s.st.nextSeq !in s.st.chunks || s.st.window.Paused())
  }

  lemma StuckArrive(stream: seq<seq<byte>>, s: Sys, data: seq<byte>)
    requires Inv(stream, s) && Stuck(stream, s) && s.pusher.Idle? && Carries(stream, Arrive(data))
    ensures AfterArrive(s, data).st.nextSeq == s.st.nextSeq
    ensures Stuck(stream, AfterArrive(s, data))
  {
    hide Parse, Flatten, Held;
    var c := Parse(data);
    if c.Chunk? && c.seqNo >= s.st.nextSeq {
      var s', k, j := AfterArrive(s, data), s.st.nextSeq, c.seqNo;
      var full := s.st.window.buffered + |stream[j]| >= s.st.window.maxWindow;
      assert k in s'.st.chunks ==> (k in s.st.chunks || j == k) && full;
      assert k !in s'.st.chunks && k < |stream| ==> s.st.window.buffered + |stream[k]| >= s.st.window.maxWindow;
    }
  }

  lemma {:induction false} StuckForever(stream: seq<seq<byte>>, s: Sys, es: seq<Event>, s': Sys)
    requires Inv(stream, s) && Stuck(stream, s) && Run(stream, s, es, s')
    ensures s'.st.nextSeq == s.st.nextSeq
    decreases |es|
  {
    hide Inv, CanAdvance, Carries, AfterArrive;
    if es != [] {
      var next := Next(s, es[0]);
      match es[0] {
        case Arrive(data) =>
          ArriveKeeps(stream, s, data);
          StuckArrive(stream, s, data);
        case Turn =>
          TurnKeeps(stream, s);
          assert next == s.(pusher := Idle);
        case Fetch(cap) =>
          FetchKeeps(stream, s, cap);
          assert next == s.(eof := true);
      }
      StuckUnaffected(stream, s, next);
      StuckForever(stream, next, es[1..], s');
    }
  }

  lemma StuckUnaffected(stream: seq<seq<byte>>, s: Sys, t: Sys)
    requires Stuck(stream, s)
    ensures (t == s.(pusher := Idle) || t == s.(eof := true)) ==> Stuck(stream, t)
  {
  }

  /** The wire form of chunk `j`: Push can only ever be handed what fits a 16-bit size. */
  function Packet(stream: seq<seq<byte>>, j: nat): seq<byte>
    requires j < |stream|
  {
    Frame(seq(16, i => 0), j, stream[j], j == |stream| - 1)
  }

  lemma PacketCarries(stream: seq<seq<byte>>, j: nat)
    requires j < |stream| < SEQ_SPACE && |stream[j]| < SIZE_SPACE
    ensures Parse(Packet(stream, j)) == Chunk(j, j == |stream| - 1, stream[j])
  {
    hide Parse, Frame;
    ParseFrame(seq(16, i => 0), j, stream[j], j == |stream| - 1);
    assert Kept(stream[j]) == stream[j];
  }

  lemma AdvancingRun(stream: seq<seq<byte>>, s: Sys, j: nat) returns (es: seq<Event>, s': Sys)
    requires Inv(stream, s) && Drained(s) && s.pusher.Idle?
    requires s.st.nextSeq <= j < |stream| && |stream[j]| < SIZE_SPACE
    requires s.st.nextSeq in s.st.chunks || j == s.st.nextSeq
    requires s.st.window.buffered + |stream[j]| < s.st.window.maxWindow
    ensures Run(stream, s, es, s') && s'.st.nextSeq == s.st.nextSeq + 1
  {
    hide Parse, Frame, Flatten, Held;
    PacketCarries(stream, j);
    var data := Packet(stream, j);
    var s1 := AfterArrive(s, data);
    var s2 := AfterTurn(s1);
    es, s' := [Arrive(data), Turn], s2;
    assert Run(stream, s2, [], s2);
    assert es[1..] == [Turn] && es[1..][1..] == [];
    assert Run(stream, s1, [Turn], s2);
  }

  /**
   * Once the reader has caught up, delivery can ever continue if and only if one push can
   * make it continue: Read never resumes a paused delivery.
   */
  lemma ProgressIff(stream: seq<seq<byte>>, s: Sys)
    requires Inv(stream, s) && Drained(s) && s.pusher.Idle?
    requires forall i :: 0 <= i < |stream| ==> |stream[i]| < SIZE_SPACE
    ensures (exists es, s' :: Run(stream, s, es, s') && s'.st.nextSeq != s.st.nextSeq)
            <==> CanAdvance(stream, s)
  {
    hide Inv, Run;
    if CanAdvance(stream, s) {
      var j :| s.st.nextSeq <= j < |stream|
               && (s.st.nextSeq in s.st.chunks || j == s.st.nextSeq)
               && s.st.window.buffered + |stream[j]| < s.st.window.maxWindow;
      var es, s' := AdvancingRun(stream, s, j);
    } else {
      forall es, s' | Run(stream, s, es, s')
        ensures s'.st.nextSeq == s.st.nextSeq
      {
        StuckForever(stream, s, es, s');
      }
    }
  }

  /** Holding a window's worth of undelivered bytes with nothing left to read is absorbing. */
  lemma FullStoreIsAbsorbing(stream: seq<seq<byte>>, s: Sys, es: seq<Event>, s': Sys)
    requires Inv(stream, s) && Drained(s) && s.pusher.Idle?
    requires Held(s.st.chunks, |stream|) >= s.st.window.maxWindow
    requires Run(stream, s, es, s')
    ensures s'.st.nextSeq == s.st.nextSeq
  {
    assert !CanAdvance(stream, s);
    StuckForever(stream, s, es, s');
  }

  // ----- completeness -----

  lemma {:induction false} HeldBound(stream: seq<seq<byte>>, chunks: map<nat, seq<byte>>, lo: nat, n: nat)
    requires lo <= |stream| && n <= |stream|
    requires forall k :: k in chunks ==> lo <= k < |stream| && chunks[k] == stream[k]
    ensures Held(chunks, n) + |Flatten(stream[..Min(lo, n)])| <= |Flatten(stream[..n])|
  {
    if n > 0 {
      HeldBound(stream, chunks, lo, n - 1);
      assert stream[..n] == stream[..n - 1] + [stream[n - 1]];
      FlattenAppend(stream[..n - 1], stream[n - 1]);
    }
  }

  lemma NeverPaused(stream: seq<seq<byte>>, s: Sys)
    requires Inv(stream, s) && s.repeated == 0
    requires |Flatten(stream)| < s.st.window.maxWindow
    ensures !s.st.window.Paused()
  {
    HeldBound(stream, s.st.chunks, s.st.nextSeq, |stream|);
    assert stream[..|stream|] == stream;
    hide Flatten, Held;
    assert |s.returned + s.st.pending + Flatten(s.st.queue)| == |Flatten(stream[..s.st.nextSeq])|;
  }

  predicate LastIs(a: seq<nat>, k: int) {
    a != [] && a[|a| - 1] == k
  }

  /** What holds as long as no chunk is repeated and the whole stream fits the window. */
  ghost predicate Clean(stream: seq<seq<byte>>, s: Sys) {
    Distinct(s.arrived) && |Flatten(stream)| < s.st.window.maxWindow ==>
      && s.repeated == 0
      && (s.pusher.Idle? ==> s.st.nextSeq !in s.st.chunks)
      && (s.st.closed ==> LastIs(s.arrived, |stream| - 1))
      && (s.pusher.Idle? && LastIs(s.arrived, |stream| - 1) && s.st.nextSeq == |stream| ==> s.st.closed)
  }

  lemma DistinctAppend(a: seq<nat>, x: nat)
    requires Distinct(a + [x])
    ensures Distinct(a) && x !in a
  {
    var b := a + [x];
    assert forall i :: 0 <= i < |a| ==> b[i] == a[i];
    assert b[|a|] == x;
  }

  lemma CleanStep(stream: seq<seq<byte>>, s: Sys, e: Event)
    requires Inv(stream, s) && Clean(stream, s) && Enabled(s, e) && Carries(stream, e)
    ensures Clean(stream, Next(s, e))
  {
    hide Parse, Flatten, Held;
    match e {
      case Arrive(data) =>
        var c := Parse(data);
        if c.Chunk? && Distinct(s.arrived + [c.seqNo]) {
          DistinctAppend(s.arrived, c.seqNo);
        }
      case Turn =>
        if Distinct(s.arrived) && |Flatten(stream)| < s.st.window.maxWindow {
          NeverPaused(stream, s);
        }
      case Fetch(cap) =>
        ReadConserves(s.st, cap);
    }
  }

  lemma {:induction false} CleanRun(stream: seq<seq<byte>>, s: Sys, es: seq<Event>, s': Sys)
    requires Inv(stream, s) && Clean(stream, s) && Run(stream, s, es, s')
    ensures Inv(stream, s') && Clean(stream, s') && s'.st.window.maxWindow == s.st.window.maxWindow
    decreases |es|
  {
    hide Inv, Clean, Parse, Carries;
    if es != [] {
      var e, next := es[0], Next(s, es[0]);
      CleanStep(stream, s, e);
      RunInv(stream, s, [e], next) by { assert Run(stream, next, [], next); }
      assert next.st.window.maxWindow == s.st.window.maxWindow;
      CleanRun(stream, next, es[1..], s');
    }
  }

  /**
   * If every chunk is pushed exactly once, in any order and with any Reads in between, and
   * the stream fits the window, everything is delivered; the channel is then closed exactly
   * when the FIN chunk was the last to arrive.
   */
  lemma Completeness(stream: seq<seq<byte>>, maxWindow: int, es: seq<Event>, s: Sys)
    requires |stream| < SEQ_SPACE && |Flatten(stream)| < Start(maxWindow).st.window.maxWindow
    requires Run(stream, Start(maxWindow), es, s) && s.pusher.Idle?
    requires Distinct(s.arrived) && forall k :: 0 <= k < |stream| ==> k in s.arrived
    ensures s.st.chunks == map[] && s.st.nextSeq == |stream|
    ensures s.returned + s.st.pending + Flatten(s.st.queue) == Flatten(stream)
    ensures s.st.closed <==> LastIs(s.arrived, |stream| - 1)
  {
    StartInv(stream, maxWindow);
    assert Clean(stream, Start(maxWindow));
    CleanRun(stream, Start(maxWindow), es, s);
    assert stream[..|stream|] == stream;
    assert s.st.nextSeq == |stream|;
  }

  /** A run in which every chunk has been pushed exactly once and no Push is under way. */
  ghost predicate PushedOnce(stream: seq<seq<byte>>, maxWindow: int, es: seq<Event>, s: Sys) {
    && Run(stream, Start(maxWindow), es, s) && s.pusher.Idle?
    && Distinct(s.arrived) && forall k :: 0 <= k < |stream| ==> k in s.arrived
  }

  lemma {:induction false} RunThen(stream: seq<seq<byte>>, a: Sys, es: seq<Event>, b: Sys, es': seq<Event>, c: Sys)
    requires Run(stream, a, es, b) && Run(stream, b, es', c)
    ensures Run(stream, a, es + es', c)
    decreases |es|
  {
    hide Carries, Enabled;
    if es == [] {
      assert es + es' == es';
    } else {
      RunThen(stream, Next(a, es[0]), es[1..], b, es', c);
      assert (es + es')[1..] == es[1..] + es';
    }
  }

  lemma {:induction false} HeldAll(stream: seq<seq<byte>>, chunks: map<nat, seq<byte>>, n: nat)
    requires n <= |stream| && forall k :: 0 <= k < n ==> k in chunks && chunks[k] == stream[k]
    ensures Held(chunks, n) == |Flatten(stream[..n])|
  {
    if n > 0 {
      HeldAll(stream, chunks, n - 1);
      assert stream[..n] == stream[..n - 1] + [stream[n - 1]];
      FlattenAppend(stream[..n - 1], stream[n - 1]);
    }
  }

  /** Chunks m.. of the stream have been pushed, last first, and nothing has been delivered. */
  ghost predicate Backwards(stream: seq<seq<byte>>, s: Sys, m: nat) {
    && Drained(s) && s.pusher.Idle? && s.st.nextSeq == 0 && Distinct(s.arrived)
    && forall k: nat :: k in s.arrived <==> m <= k < |stream|
  }

  lemma FullIsPaused(stream: seq<seq<byte>>, s: Sys)
    requires Inv(stream, s) && forall k :: 0 <= k < |stream| ==> k in s.st.chunks
    requires |Flatten(stream)| >= s.st.window.maxWindow
    ensures s.st.window.Paused()
  {
    HeldAll(stream, s.st.chunks, |stream|);
    assert stream[..|stream|] == stream;
  }

  lemma PushBackwards(stream: seq<seq<byte>>, s: Sys, m: nat) returns (es: seq<Event>, s': Sys)
    requires m < |stream| < SEQ_SPACE && |stream[m]| < SIZE_SPACE
    requires Inv(stream, s) && Backwards(stream, s, m + 1)
    requires |Flatten(stream)| >= s.st.window.maxWindow
    ensures Run(stream, s, es, s') && Backwards(stream, s', m)
    ensures s'.st.window.maxWindow == s.st.window.maxWindow
  {
    hide Parse, Frame;
    PacketCarries(stream, m);
    var data := Packet(stream, m);
    var s1 := AfterArrive(s, data);
    ArriveKeeps(stream, s, data);
    hide Flatten, Held, InOrder, EndsWell, Conserves;
    if m == 0 {
      FullIsPaused(stream, s1);
    }
    s' := s1.(pusher := Idle);
    assert AfterTurn(s1) == s';
    es := [Arrive(data), Turn];
    assert Run(stream, s', [], s');
    assert es[1..] == [Turn] && es[1..][1..] == [];
    assert Run(stream, s1, [Turn], s');
  }

  lemma {:induction false} PushAllBackwards(stream: seq<seq<byte>>, maxWindow: int, m: nat) returns (es: seq<Event>, s: Sys)
    requires m <= |stream| < SEQ_SPACE && forall i :: 0 <= i < |stream| ==> |stream[i]| < SIZE_SPACE
    requires |Flatten(stream)| >= Start(maxWindow).st.window.maxWindow
    ensures Run(stream, Start(maxWindow), es, s) && Inv(stream, s) && Backwards(stream, s, m)
    ensures s.st.window.maxWindow == Start(maxWindow).st.window.maxWindow
    decreases |stream| - m
  {
    StartInv(stream, maxWindow);
    if m == |stream| {
      es, s := [], Start(maxWindow);
    } else {
      hide Inv, Backwards, Flatten;
      var es1, s1 := PushAllBackwards(stream, maxWindow, m + 1);
      var es2, s2 := PushBackwards(stream, s1, m);
      RunThen(stream, Start(maxWindow), es1, s1, es2, s2);
      es, s := es1 + es2, s2;
      RunInv(stream, Start(maxWindow), es, s);
    }
  }

  /**
   * Pushing every chunk exactly once is enough, in every order and with any Reads in between,
   * if and only if the whole stream fits below the window: otherwise pushing it backwards
   * ends in a state from which nothing is ever delivered.
   */
  lemma CompletenessIff(stream: seq<seq<byte>>, maxWindow: int)
    requires 1 <= |stream| < SEQ_SPACE && forall i :: 0 <= i < |stream| ==> |stream[i]| < SIZE_SPACE
    ensures (forall es, s :: PushedOnce(stream, maxWindow, es, s) ==> s.st.nextSeq == |stream|)
            <==> |Flatten(stream)| < Start(maxWindow).st.window.maxWindow
  {
    hide Run, Flatten, Distinct;
    if |Flatten(stream)| < Start(maxWindow).st.window.maxWindow {
      forall es, s | PushedOnce(stream, maxWindow, es, s)
        ensures s.st.nextSeq == |stream|
      {
        Completeness(stream, maxWindow, es, s);
      }
    } else {
      var es, s := PushAllBackwards(stream, maxWindow, 0);
      assert PushedOnce(stream, maxWindow, es, s);
    }
  }

  /** Reading on until the queue is empty (or the Reads run out). */
  function ReadOn(s: Sys, caps: seq<nat>): Sys
    decreases |caps|
  {
    if caps == [] || ReadSome(s.st, caps[0]).Empty? then s
    else ReadOn(AfterFetch(s, caps[0]), caps[1..])
  }

  function Backlog(st: State): nat {
    |st.pending| + |Flatten(st.queue)| + |st.queue|
  }

  lemma ReadShrinks(st: State, cap: nat)
    requires cap >= 1 && ReadSome(st, cap).Got?
    ensures Backlog(ReadSome(st, cap).state) < Backlog(st)
  {
  }

  /** Non-empty Reads drain everything delivered, then report EOF exactly when closed. */
  lemma {:induction false} ReadsDrain(stream: seq<seq<byte>>, s: Sys, caps: seq<nat>)
    requires Inv(stream, s) && s.pusher.Idle?
    requires forall i :: 0 <= i < |caps| ==> caps[i] >= 1
    requires |caps| > Backlog(s.st)
    ensures ReadOn(s, caps).returned == Flatten(stream[..s.st.nextSeq])
    ensures ReadOn(s, caps).eof == s.st.closed
    decreases |caps|
  {
    var cap, r := caps[0], ReadSome(s.st, caps[0]);
    ReadConserves(s.st, cap);
    if s.eof {
      assert stream[..|stream|] == stream;
      AtEof(s, caps);
    } else if r.Got? {
      FetchKeeps(stream, s, cap);
      ReadShrinks(s.st, cap);
      ReadsDrain(stream, AfterFetch(s, cap), caps[1..]);
    } else if r.Eof? {
      FetchKeeps(stream, s, cap);
      assert stream[..|stream|] == stream;
      AtEof(AfterFetch(s, cap), caps[1..]);
    } else {
      assert s.returned + [] + [] == s.returned;
    }
  }

  lemma {:induction false} AtEof(s: Sys, caps: seq<nat>)
    requires s.eof && s.st.closed && s.st.pending == [] && s.st.queue == []
    ensures ReadOn(s, caps) == s
    decreases |caps|
  {
    if caps != [] {
      AtEof(AfterFetch(s, caps[0]), caps[1..]);
    }
  }

  // ----- from Write to Read over FIFO connections -----

  /** Connections with packets in flight, and the receiver. */
  datatype Net = Net(conns: seq<seq<seq<byte>>>, sys: Sys)

  datatype NetEvent = Receive(conn: nat) | Local(e: Event)

  predicate NetEnabled(w: Net, e: NetEvent) {
    match e
    case Receive(j) => j < |w.conns| && w.conns[j] != [] && Enabled(w.sys, Arrive(w.conns[j][0]))
    case Local(le) => !le.Arrive? && Enabled(w.sys, le)
  }

  function NetNext(w: Net, e: NetEvent): Net
    requires NetEnabled(w, e)
  {
    match e
    case Receive(j) => Net(w.conns[j := w.conns[j][1..]], AfterArrive(w.sys, w.conns[j][0]))
    case Local(le) => w.(sys := Next(w.sys, le))
  }

  ghost predicate NetRun(w: Net, es: seq<NetEvent>, w': Net)
    decreases |es|
  {
    if es == [] then w == w' else NetEnabled(w, es[0]) && NetRun(NetNext(w, es[0]), es[1..], w')
  }

  predicate Numbered(packet: seq<byte>, k: nat) {
    Parse(packet).Chunk? && Parse(packet).seqNo == k
  }

  /** How many packets of a connection carry chunk `k`. */
  function CountIn(packets: seq<seq<byte>>, k: nat): nat {
    if packets == [] then 0 else (if Numbered(packets[0], k) then 1 else 0) + CountIn(packets[1..], k)
  }

  function Total(conns: seq<seq<seq<byte>>>, k: nat): nat {
    if conns == [] then 0 else CountIn(conns[0], k) + Total(conns[1..], k)
  }

  lemma {:induction false} CountAppend(packets: seq<seq<byte>>, p: seq<byte>, k: nat)
    ensures CountIn(packets + [p], k) == CountIn(packets, k) + if Numbered(p, k) then 1 else 0
  {
    hide Numbered;
    if packets != [] {
      CountAppend(packets[1..], p, k);
      assert (packets + [p])[1..] == packets[1..] + [p];
    }
  }

  lemma {:induction false} TotalUpdate(conns: seq<seq<seq<byte>>>, j: nat, c: seq<seq<byte>>, k: nat)
    requires j < |conns|
    ensures Total(conns[j := c], k) == Total(conns, k) - CountIn(conns[j], k) + CountIn(c, k)
    ensures CountIn(conns[j], k) <= Total(conns, k)
  {
    hide CountIn;
    if j == 0 {
      assert conns[j := c][1..] == conns[1..];
    } else {
      TotalUpdate(conns[1..], j - 1, c, k);
      assert conns[j := c][1..] == conns[1..][j - 1 := c];
    }
  }

  /** Dealing neither loses nor duplicates a packet. */
  lemma {:induction false} DealTotal(lanes: seq<seq<seq<byte>>>, start: nat, items: seq<seq<byte>>, k: nat)
    requires items != [] ==> |lanes| > 0
    ensures Total(Deal(lanes, start, items), k) == Total(lanes, k) + CountIn(items, k)
    decreases |items|
  {
    hide Numbered, Total;
    if items != [] {
      var last := |items| - 1;
      var prev := Deal(lanes, start, items[..last]);
      var j := (start + last) % |lanes|;
      DealTotal(lanes, start, items[..last], k);
      assert items == items[..last] + [items[last]];
      CountAppend(items[..last], items[last], k);
      CountAppend(prev[j], items[last], k);
      TotalUpdate(prev, j, prev[j] + [items[last]], k);
    }
  }

  /** Every packet of every connection is a chunk of the stream. */
  ghost predicate AllCarry(stream: seq<seq<byte>>, conns: seq<seq<seq<byte>>>) {
    forall j, i :: 0 <= j < |conns| && 0 <= i < |conns[j]| ==>
      Parse(conns[j][i]).Chunk? && Carries(stream, Arrive(conns[j][i]))
  }

  /** Each chunk of the stream is either in flight, once, or has arrived, once. */
  ghost predicate Once(stream: seq<seq<byte>>, w: Net) {
    && Distinct(w.sys.arrived)
    && forall k: nat :: Total(w.conns, k) == if k < |stream| && k !in w.sys.arrived then 1 else 0
  }

  lemma ReceiveOnce(stream: seq<seq<byte>>, w: Net, j: nat)
    requires NetEnabled(w, Receive(j)) && AllCarry(stream, w.conns) && Once(stream, w)
    ensures AllCarry(stream, NetNext(w, Receive(j)).conns) && Once(stream, NetNext(w, Receive(j)))
    ensures Carries(stream, Arrive(w.conns[j][0]))
  {
    hide Parse, Total, Deliver;
    var p, w' := w.conns[j][0], NetNext(w, Receive(j));
    var c := Parse(p);
    forall k: nat
      ensures Total(w'.conns, k) == if k < |stream| && k !in w'.sys.arrived then 1 else 0
    {
      TotalUpdate(w.conns, j, w.conns[j][1..], k);
    }
    TotalUpdate(w.conns, j, w.conns[j][1..], c.seqNo);
    assert c.seqNo !in w.sys.arrived;
  }

  lemma LocalKeepsArrived(s: Sys, e: Event)
    requires Enabled(s, e) && !e.Arrive?
    ensures Next(s, e).arrived == s.arrived
  {
  }

  /** A run over the connections is a run of the receiver in which no chunk comes twice. */
  lemma {:induction false} NetIsRun(stream: seq<seq<byte>>, w: Net, nes: seq<NetEvent>, w': Net) returns (es: seq<Event>)
    requires AllCarry(stream, w.conns) && Once(stream, w) && NetRun(w, nes, w')
    ensures Run(stream, w.sys, es, w'.sys) && Once(stream, w')
    decreases |nes|
  {
    hide AllCarry, Carries, AfterArrive, AfterTurn, AfterFetch, Total, Distinct, Enabled;
    if nes == [] {
      es := [];
    } else {
      var next := NetNext(w, nes[0]);
      var e;
      match nes[0] {
        case Receive(j) =>
          ReceiveOnce(stream, w, j);
          e := Arrive(w.conns[j][0]);
        case Local(le) =>
          LocalKeepsArrived(w.sys, le);
          LocalCarries(stream, le);
          e := le;
      }
      assert Enabled(w.sys, e) && Next(w.sys, e) == next.sys;
      var rest := NetIsRun(stream, next, nes[1..], w');
      es := [e] + rest;
      assert es[1..] == rest;
    }
  }

  lemma LocalCarries(stream: seq<seq<byte>>, e: Event)
    requires !e.Arrive?
    ensures Carries(stream, e)
  {
  }

  /** The packets one Write leaves on `lanes` fresh connections. */
  function Written(sid: seq<byte>, data: seq<byte>, size: nat, lanes: nat, start: nat): seq<seq<seq<byte>>>
    requires size >= 1 && lanes >= 1
  {
    Deal(seq(lanes, i => []), start, Frames(sid, Pieces(data, size)))
  }

  lemma {:induction false} CountFrames(frames: seq<seq<byte>>, m: nat, k: nat)
    requires m <= |frames| && forall i :: 0 <= i < |frames| ==> Numbered(frames[i], i)
    ensures CountIn(frames[..m], k) == if k < m then 1 else 0
  {
    hide Parse;
    if m > 0 {
      CountFrames(frames, m - 1, k);
      CountAppend(frames[..m - 1], frames[m - 1], k);
      assert frames[..m] == frames[..m - 1] + [frames[m - 1]];
    }
  }

  lemma {:induction false} EmptyLanes(lanes: nat, k: nat)
    ensures Total(seq<seq<seq<byte>>>(lanes, i => []), k) == 0
  {
    if lanes > 0 {
      var all := seq<seq<seq<byte>>>(lanes, i => []);
      assert all[1..] == seq<seq<seq<byte>>>(lanes - 1, i => []);
      EmptyLanes(lanes - 1, k);
    }
  }

  lemma {:induction false} DealCarries(stream: seq<seq<byte>>, lanes: seq<seq<seq<byte>>>, start: nat, items: seq<seq<byte>>)
    requires items != [] ==> |lanes| > 0
    requires AllCarry(stream, lanes) && AllCarry(stream, [items])
    ensures AllCarry(stream, Deal(lanes, start, items))
    decreases |items|
  {
    hide Parse, Carries;
    if items != [] {
      var last := |items| - 1;
      assert forall i :: 0 <= i < |items| ==> items[i] == [items][0][i];
      DealCarries(stream, lanes, start, items[..last]);
    }
  }

  lemma WrittenOnce(sid: seq<byte>, data: seq<byte>, size: nat, lanes: nat, start: nat, maxWindow: int)
    requires |sid| == 16 && size >= 1 && lanes >= 1
    requires |Pieces(data, size)| < SEQ_SPACE
    ensures var stream := Bodies(Pieces(data, size));
            var conns := Written(sid, data, size, lanes, start);
            AllCarry(stream, conns) && Once(stream, Net(conns, Start(maxWindow)))
  {
    hide Parse, Frame, Kept, Pieces, Total, CountIn, Deal;
    var pieces := Pieces(data, size);
    var frames, stream := Frames(sid, pieces), Bodies(pieces);
    var empty := seq<seq<seq<byte>>>(lanes, i => []);
    forall i | 0 <= i < |frames|
      ensures Parse(frames[i]) == Chunk(i, i == |stream| - 1, stream[i])
    {
      ParseFrame(sid, i, pieces[i], i == |pieces| - 1);
    }
    DealCarries(stream, empty, start, frames);
    forall k: nat
      ensures Total(Deal(empty, start, frames), k) == if k < |stream| then 1 else 0
    {
      DealTotal(empty, start, frames, k);
      EmptyLanes(lanes, k);
      CountFrames(frames, |frames|, k);
      assert frames[..|frames|] == frames;
    }
  }

  lemma {:induction false} AllEmpty(conns: seq<seq<seq<byte>>>, k: nat)
    requires forall j :: 0 <= j < |conns| ==> conns[j] == []
    ensures Total(conns, k) == 0
  {
    if conns != [] {
      AllEmpty(conns[1..], k);
    }
  }

  /**
   * End to end: write a buffer over any number of connections, receive the packets in any
   * interleaving of those connections with any Reads in between.  Once the connections are
   * drained, exactly the carried bytes have been delivered, in order, and Reads with
   * non-empty buffers return all of them; the reader learns of the end exactly when the FIN
   * chunk came in last; and the carried bytes are the buffer itself exactly when the chunk
   * size or the buffer fits 16 bits.
   */
  lemma WriteThenRead(sid: seq<byte>, data: seq<byte>, size: nat, lanes: nat, start: nat, maxWindow: int,
                      nes: seq<NetEvent>, w: Net, caps: seq<nat>)
    requires |sid| == 16 && size >= 1 && lanes >= 1
    requires |Pieces(data, size)| < SEQ_SPACE
    requires |Carried(data, size)| < Start(maxWindow).st.window.maxWindow
    requires NetRun(Net(Written(sid, data, size, lanes, start), Start(maxWindow)), nes, w)
    requires w.sys.pusher.Idle? && forall j :: 0 <= j < |w.conns| ==> w.conns[j] == []
    requires |caps| > Backlog(w.sys.st) && forall i :: 0 <= i < |caps| ==> caps[i] >= 1
    ensures w.sys.st.chunks == map[]
    ensures ReadOn(w.sys, caps).returned == Carried(data, size)
    ensures ReadOn(w.sys, caps).eof <==> LastIs(w.sys.arrived, |Pieces(data, size)| - 1)
    ensures ReadOn(w.sys, caps).returned == data <==> size < SIZE_SPACE || |data| < SIZE_SPACE
  {
    hide Pieces, Kept, Flatten, Written, Run, NetRun, Total, AllCarry, Inv, Backlog, ReadOn, Clean;
    var stream := Bodies(Pieces(data, size));
    var init := Start(maxWindow);
    WrittenOnce(sid, data, size, lanes, start, maxWindow);
    var es := NetIsRun(stream, Net(Written(sid, data, size, lanes, start), init), nes, w);
    forall k | 0 <= k < |stream|
      ensures k in w.sys.arrived
    {
      AllEmpty(w.conns, k);
    }
    Completeness(stream, maxWindow, es, w.sys);
    StartInv(stream, maxWindow);
    RunInv(stream, init, es, w.sys);
    ReadsDrain(stream, w.sys, caps);
    assert stream[..|stream|] == stream;
    LosslessIff(data, size);
  }
}
