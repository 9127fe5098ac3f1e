/** How a stream through the mux ends: when the reader learns of the end, and when the last push delivers. */
module MuxEndings {
  import opened Basics
  import opened Bytes
  import opened MuxWire
  import opened Reassembly
  import opened MuxRuns
  import opened MuxTheorems

  // ----- an end that is never reported -----

  /** If everything is delivered and the channel is still open, it stays open in every continuation. */
  lemma {:induction false} OpenForever(stream: seq<seq<byte>>, s: Sys, es: seq<Event>, s': Sys)
    requires Inv(stream, s) && s.pusher.Idle? && s.st.nextSeq == |stream| && !s.st.closed
    requires Run(stream, s, es, s')
    ensures !s'.st.closed && !s'.eof
    decreases |es|
  {
    hide Parse, Flatten, Held;
    if es != [] {
      var next := Next(s, es[0]);
      match es[0] {
        case Arrive(data) => ArriveKeeps(stream, s, data);
        case Turn =>
        case Fetch(cap) =>
          FetchKeeps(stream, s, cap);
          ReadConserves(s.st, cap);
      }
      OpenForever(stream, next, es[1..], s');
    }
  }

  /** The FIN chunk came first and chunks below `k` after it; all of those are read, the FIN chunk is held. */
  ghost predicate FinFirst(stream: seq<seq<byte>>, s: Sys, k: nat) {
    && Drained(s) && s.pusher.Idle? && s.st.nextSeq == k && !s.st.closed && s.repeated == 0
    && Distinct(s.arrived)
    && forall j: nat :: j in s.arrived <==> j < k || j == |stream| - 1
  }

  ghost predicate Small(stream: seq<seq<byte>>, s: Sys) {
    && 2 <= |stream| < SEQ_SPACE && (forall i :: 0 <= i < |stream| ==> |stream[i]| < SIZE_SPACE)
    && |Flatten(stream)| < s.st.window.maxWindow
  }

  /** Pushing a chunk that is neither held nor delivered, before any delivery. */
  lemma PushNew(stream: seq<seq<byte>>, s: Sys, k: nat) returns (s1: Sys)
    requires Inv(stream, s) && Small(stream, s) && s.pusher.Idle? && s.repeated == 0
    requires k < |stream| && k !in s.arrived && Distinct(s.arrived)
    ensures Run(stream, s, [Arrive(Packet(stream, k))], s1) && Inv(stream, s1) && !s1.st.window.Paused()
    ensures s1 == s.(st := Store(s.st, k, stream[k]), pusher := Delivering(k == |stream| - 1), arrived := s.arrived + [k])
    ensures Distinct(s1.arrived)
  {
    hide Parse, Packet, Flatten, Held;
    var data := Packet(stream, k);
    PacketCarries(stream, k);
    ArriveKeeps(stream, s, data);
    s1 := AfterArrive(s, data);
    assert Run(stream, s1, [], s1) && [Arrive(data)][1..] == [];
    NeverPaused(stream, s1);
  }

  lemma OneTurn(stream: seq<seq<byte>>, s: Sys)
    requires Inv(stream, s) && Enabled(s, Turn)
    ensures Run(stream, s, [Turn], AfterTurn(s)) && Inv(stream, AfterTurn(s))
  {
    hide Inv;
    TurnKeeps(stream, s);
    var s' := AfterTurn(s);
    assert Run(stream, s', [], s') && [Turn][1..] == [];
  }

  lemma OneFetch(stream: seq<seq<byte>>, s: Sys, cap: nat)
    requires Inv(stream, s) && Enabled(s, Fetch(cap))
    ensures Run(stream, s, [Fetch(cap)], AfterFetch(s, cap)) && Inv(stream, AfterFetch(s, cap))
  {
    hide Inv;
    FetchKeeps(stream, s, cap);
    var s' := AfterFetch(s, cap);
    assert Run(stream, s', [], s') && [Fetch(cap)][1..] == [];
  }

  lemma FinFirstStart(stream: seq<seq<byte>>, maxWindow: int) returns (es: seq<Event>, s: Sys)
    requires Small(stream, Start(maxWindow))
    ensures Run(stream, Start(maxWindow), es, s) && Inv(stream, s) && FinFirst(stream, s, 0)
    ensures s.st.window.maxWindow == Start(maxWindow).st.window.maxWindow
  {
    StartInv(stream, maxWindow);
    hide Packet, Flatten, Held, InOrder, Conserves;
    var s0 := Start(maxWindow);
    var s1 := PushNew(stream, s0, |stream| - 1);
    OneTurn(stream, s1);
    s := AfterTurn(s1);
    assert s == s1.(pusher := Idle);
    hide Run;
    es := [Arrive(Packet(stream, |stream| - 1))] + [Turn];
    RunThen(stream, s0, [Arrive(Packet(stream, |stream| - 1))], s1, [Turn], s);
  }

  /** Push chunk k, deliver it, and read it. */
  lemma FinFirstStep(stream: seq<seq<byte>>, s: Sys, k: nat) returns (es: seq<Event>, s': Sys)
    requires Inv(stream, s) && Small(stream, s) && FinFirst(stream, s, k) && k < |stream| - 2
    ensures Run(stream, s, es, s') && Inv(stream, s') && FinFirst(stream, s', k + 1)
    ensures s'.st.window.maxWindow == s.st.window.maxWindow
  {
    hide Packet, Flatten, Held, Run, InOrder, Conserves;
    var s1 := PushNew(stream, s, k);
    OneTurn(stream, s1);
    var s2 := AfterTurn(s1);
    assert s2.st.nextSeq == k + 1 && s2.st.queue == [stream[k]] && s2.pusher == Delivering(false);
    OneTurn(stream, s2);
    var s3 := AfterTurn(s2);
    assert s3 == s2.(pusher := Idle);
    var cap := |stream[k]|;
    OneFetch(stream, s3, cap);
    s' := AfterFetch(s3, cap);
    var a, t, f := [Arrive(Packet(stream, k))], [Turn], [Fetch(cap)];
    RunThen(stream, s, a, s1, t, s2);
    RunThen(stream, s, a + t, s2, t, s3);
    RunThen(stream, s, a + t + t, s3, f, s');
    es := a + t + t + f;
  }

  /** The last push of that order delivers the last two chunks and leaves the channel open. */
  lemma FinFirstEnd(stream: seq<seq<byte>>, s: Sys) returns (es: seq<Event>, s': Sys)
    requires Inv(stream, s) && Small(stream, s) && FinFirst(stream, s, |stream| - 2)
    ensures Run(stream, s, es, s') && Inv(stream, s') && s'.pusher.Idle?
    ensures s'.st.nextSeq == |stream| && !s'.st.closed && Distinct(s'.arrived)
    ensures forall j :: 0 <= j < |stream| ==> j in s'.arrived
  {
    hide Packet, Flatten, Held, Run, InOrder, Conserves;
    var k := |stream| - 2;
    var s1 := PushNew(stream, s, k);
    OneTurn(stream, s1);
    var s2 := AfterTurn(s1);
    assert s2.st.nextSeq == k + 1 && s2.pusher == Delivering(false) && k + 1 in s2.st.chunks;
    assert s2.st.window == s1.st.window && !s2.st.closed && |s2.st.queue| == 1;
    OneTurn(stream, s2);
    var s3 := AfterTurn(s2);
    assert s3.st.nextSeq == k + 2 && s3.pusher == Delivering(false) && !s3.st.closed;
    OneTurn(stream, s3);
    s' := AfterTurn(s3);
    assert s' == s3.(pusher := Idle);
    var a, t := [Arrive(Packet(stream, k))], [Turn];
    RunThen(stream, s, a, s1, t, s2);
    RunThen(stream, s, a + t, s2, t, s3);
    RunThen(stream, s, a + t + t, s3, t, s');
    es := a + t + t + t;
  }

  lemma {:induction false} FinFirstRun(stream: seq<seq<byte>>, maxWindow: int, k: nat) returns (es: seq<Event>, s: Sys)
    requires Small(stream, Start(maxWindow)) && k <= |stream| - 2
    ensures Run(stream, Start(maxWindow), es, s) && Inv(stream, s) && FinFirst(stream, s, k)
    ensures s.st.window.maxWindow == Start(maxWindow).st.window.maxWindow
  {
    hide Inv, FinFirst, Run, Flatten;
    if k == 0 {
      es, s := FinFirstStart(stream, maxWindow);
    } else {
      var es1, s1 := FinFirstRun(stream, maxWindow, k - 1);
      var es2, s2 := FinFirstStep(stream, s1, k - 1);
      RunThen(stream, Start(maxWindow), es1, s1, es2, s2);
      es, s := es1 + es2, s2;
    }
  }

  /**
   * For every stream of two or more chunks there is an order of arrival after which everything
   * is delivered and yet no continuation ever reports the end: the reader waits for ever.
   */
  lemma ReaderWaitsForEver(stream: seq<seq<byte>>, maxWindow: int) returns (es: seq<Event>, s: Sys)
    requires Small(stream, Start(maxWindow))
    ensures PushedOnce(stream, maxWindow, es, s) && s.st.nextSeq == |stream| && !s.st.closed
    ensures forall es', s' :: Run(stream, s, es', s') ==> !s'.st.closed && !s'.eof
  {
    hide Inv, FinFirst, Run, Flatten, Distinct;
    var es1, s1 := FinFirstRun(stream, maxWindow, |stream| - 2);
    var es2, s2 := FinFirstEnd(stream, s1);
    RunThen(stream, Start(maxWindow), es1, s1, es2, s2);
    es, s := es1 + es2, s2;
    forall es', s' | Run(stream, s, es', s')
      ensures !s'.st.closed && !s'.eof
    {
      OpenForever(stream, s, es', s');
    }
  }

  /** Every order of arrival closes the channel if and only if there is just one chunk. */
  lemma EndAlwaysReportedIff(stream: seq<seq<byte>>, maxWindow: int)
    requires 1 <= |stream| < SEQ_SPACE && (forall i :: 0 <= i < |stream| ==> |stream[i]| < SIZE_SPACE)
    requires |Flatten(stream)| < Start(maxWindow).st.window.maxWindow
    ensures (forall es, s :: PushedOnce(stream, maxWindow, es, s) ==> s.st.closed) <==> |stream| == 1
  {
    hide Run, Flatten;
    if |stream| == 1 {
      forall es, s | PushedOnce(stream, maxWindow, es, s)
        ensures s.st.closed
      {
        Completeness(stream, maxWindow, es, s);
        ReassemblySafety(stream, maxWindow, es, s);
        assert 0 in s.arrived;
        var last := s.arrived[|s.arrived| - 1];
        assert last in s.arrived;
      }
    } else {
      var es, s := ReaderWaitsForEver(stream, maxWindow);
    }
  }

  // ----- what the last push decides -----

  ghost predicate AllArrived(stream: seq<seq<byte>>, s: Sys) {
    s.repeated == 0 && forall k :: 0 <= k < |stream| ==> k in s.arrived
  }

  lemma {:induction false} HeldRest(stream: seq<seq<byte>>, chunks: map<nat, seq<byte>>, lo: nat, n: nat)
    requires lo <= |stream| && n <= |stream|
    requires forall k: nat :: k in chunks <==> lo <= k < |stream|
    requires forall k :: k in chunks ==> chunks[k] == stream[k]
    ensures Held(chunks, n) + |Flatten(stream[..Min(lo, n)])| == |Flatten(stream[..n])|
  {
    if n > 0 {
      HeldRest(stream, chunks, lo, n - 1);
      assert stream[..n] == stream[..n - 1] + [stream[n - 1]];
      FlattenAppend(stream[..n - 1], stream[n - 1]);
    }
  }

  /** Once everything has arrived, the flow controller counts exactly the bytes not yet read. */
  lemma UnreadIsBuffered(stream: seq<seq<byte>>, s: Sys)
    requires Inv(stream, s) && AllArrived(stream, s)
    ensures s.st.window.buffered == |Flatten(stream)| - |s.returned|
    ensures s.st.nextSeq < |stream| ==> s.st.nextSeq in s.st.chunks
  {
    HeldRest(stream, s.st.chunks, s.st.nextSeq, |stream|);
    assert stream[..|stream|] == stream;
    hide Flatten, Held;
    assert |s.returned + s.st.pending + Flatten(s.st.queue)| == |Flatten(stream[..s.st.nextSeq])|;
  }

  ghost predicate NoArrivals(es: seq<Event>) {
    forall i :: 0 <= i < |es| ==> !es[i].Arrive?
  }

  /** With the unread bytes below the window, a push under way delivers everything. */
  lemma {:induction false} RestDelivered(stream: seq<seq<byte>>, s: Sys, es: seq<Event>, s': Sys)
    requires Inv(stream, s) && AllArrived(stream, s) && Run(stream, s, es, s') && NoArrivals(es)
    requires |Flatten(stream)| - |s.returned| < s.st.window.maxWindow
    requires s.pusher.Idle? ==> s.st.nextSeq == |stream|
    ensures s'.pusher.Idle? ==> s'.st.nextSeq == |stream|
    ensures s.pusher == Delivering(true) && s'.pusher.Idle? ==> s'.st.closed
    ensures s.st.closed ==> s'.st.closed
    decreases |es|
  {
    hide Flatten, Held, Parse;
    if es != [] {
      var next := Next(s, es[0]);
      UnreadIsBuffered(stream, s);
      if es[0].Turn? {
        TurnKeeps(stream, s);
      } else {
        FetchKeeps(stream, s, es[0].cap);
        ReadConserves(s.st, es[0].cap);
      }
      RestDelivered(stream, next, es[1..], s');
    }
  }

  /** While no Push is under way, reading changes nothing but what is read. */
  lemma {:induction false} OnlyReads(stream: seq<seq<byte>>, s: Sys, es: seq<Event>, s': Sys)
    requires s.pusher.Idle? && Run(stream, s, es, s') && NoArrivals(es)
    ensures s'.pusher.Idle? && s'.st.nextSeq == s.st.nextSeq && s'.st.closed == s.st.closed
    decreases |es|
  {
    if es != [] {
      assert es[0].Fetch?;
      ReadConserves(s.st, es[0].cap);
      OnlyReads(stream, Next(s, es[0]), es[1..], s');
    }
  }

  /**
   * When the last missing chunk has arrived, in whatever order the others came, the next turn
   * of its Push decides: if the bytes unread at that moment are below the window, everything
   * gets delivered, whatever reads intervene; if not, nothing more ever is, however much is
   * read afterwards.  If that chunk carries FIN, the end is reported in the same case.
   */
  lemma LastPushDecides(stream: seq<seq<byte>>, s: Sys, es: seq<Event>, s': Sys)
    requires Inv(stream, s) && AllArrived(stream, s) && s.pusher.Delivering? && s.st.nextSeq < |stream|
    requires Enabled(s, Turn) && Run(stream, Next(s, Turn), es, s') && NoArrivals(es) && s'.pusher.Idle?
    ensures s'.st.nextSeq == |stream| <==> |Flatten(stream)| - |s.returned| < s.st.window.maxWindow
    ensures s'.st.nextSeq != |stream| ==> s'.st.nextSeq == s.st.nextSeq
    ensures s.pusher.fin ==> (s'.st.closed <==> |Flatten(stream)| - |s.returned| < s.st.window.maxWindow)
  {
    hide Flatten, Held, Parse;
    UnreadIsBuffered(stream, s);
    if |Flatten(stream)| - |s.returned| < s.st.window.maxWindow {
      var all := [Turn] + es;
      assert all[1..] == es;
      RestDelivered(stream, s, all, s');
    } else {
      OnlyReads(stream, Next(s, Turn), es, s');
    }
  }

  // ----- a single connection -----

  lemma {:induction false} NoRepeats(stream: seq<seq<byte>>, s: Sys, es: seq<Event>, s': Sys)
    requires Inv(stream, s) && (Distinct(s.arrived) ==> s.repeated == 0) && Run(stream, s, es, s')
    ensures Distinct(s'.arrived) ==> s'.repeated == 0
    decreases |es|
  {
    hide Parse, Flatten, Held, Run;
    RunStep(stream, s, es, s');
    if es != [] {
      var next := Next(s, es[0]);
      match es[0] {
        case Arrive(data) =>
          ArriveKeeps(stream, s, data);
          var c := Parse(data);
          if c.Chunk? && Distinct(s.arrived + [c.seqNo]) {
            DistinctAppend(s.arrived, c.seqNo);
          }
        case Turn => TurnKeeps(stream, s);
        case Fetch(cap) => FetchKeeps(stream, s, cap);
      }
      NoRepeats(stream, next, es[1..], s');
    }
  }

  lemma RunStep(stream: seq<seq<byte>>, s: Sys, es: seq<Event>, s': Sys)
    requires Run(stream, s, es, s')
    ensures es == [] ==> s == s'
    ensures es != [] ==> Enabled(s, es[0]) && Carries(stream, es[0]) && Run(stream, Next(s, es[0]), es[1..], s')
  {
  }

  lemma {:induction false} OneLane<T>(start: nat, items: seq<T>)
    ensures Deal([[]], start, items) == [items]
    decreases |items|
  {
    if items != [] {
      var last := |items| - 1;
      OneLane(start, items[..last]);
      assert items == items[..last] + [items[last]];
    }
  }

  /** Over one connection the chunks arrive in order. */
  lemma {:induction false} InOrderArrival(frames: seq<seq<byte>>, w: Net, nes: seq<NetEvent>, w': Net)
    requires forall i :: 0 <= i < |frames| ==> Numbered(frames[i], i)
    requires |w.sys.arrived| <= |frames| && w.conns == [frames[|w.sys.arrived|..]]
    requires forall i :: 0 <= i < |w.sys.arrived| ==> w.sys.arrived[i] == i
    requires NetRun(w, nes, w')
    ensures |w'.sys.arrived| <= |frames| && w'.conns == [frames[|w'.sys.arrived|..]]
    ensures forall i :: 0 <= i < |w'.sys.arrived| ==> w'.sys.arrived[i] == i
    decreases |nes|
  {
    hide Parse, Enabled, Deliver, ReadSome;
    if nes != [] {
      var next, m := NetNext(w, nes[0]), |w.sys.arrived|;
      match nes[0] {
        case Receive(j) =>
          assert w.conns[j][0] == frames[m];
          assert next.sys.arrived == w.sys.arrived + [m];
          assert next.conns == [frames[m + 1..]];
        case Local(e) => LocalKeepsArrived(w.sys, e);
      }
      InOrderArrival(frames, next, nes[1..], w');
    }
  }

  /**
   * Over one connection, for a buffer of any size against any window: when the last packet has
   * been received and its Push is at its next turn, everything is delivered and the end
   * reported if and only if the bytes unread at that moment are below the window; otherwise
   * what is missing then stays missing.
   */
  lemma OneConnection(sid: seq<byte>, data: seq<byte>, size: nat, start: nat, maxWindow: int,
                      nes: seq<NetEvent>, w: Net, es: seq<Event>, s': Sys)
    requires |sid| == 16 && size >= 1 && |Pieces(data, size)| < SEQ_SPACE
    requires NetRun(Net(Written(sid, data, size, 1, start), Start(maxWindow)), nes, w)
    requires w.conns == [[]] && w.sys.pusher.Delivering? && Enabled(w.sys, Turn)
    requires Run(Bodies(Pieces(data, size)), Next(w.sys, Turn), es, s') && NoArrivals(es) && s'.pusher.Idle?
    ensures var fits := |Carried(data, size)| - |w.sys.returned| < w.sys.st.window.maxWindow;
            && (s'.st.closed <==> fits)
            && (s'.st.nextSeq == |Pieces(data, size)| <==> fits)
            && (!fits ==> s'.st.nextSeq == w.sys.st.nextSeq)
  {
    hide Inv, Run, NetRun, Flatten, Pieces, Bodies, Written, Enabled, AllArrived;
    OneConnectionReached(sid, data, size, start, maxWindow, nes, w);
    LastPushDecides(Bodies(Pieces(data, size)), w.sys, es, s');
  }

  /** The state in which the last packet has been received over the one connection. */
  lemma OneConnectionReached(sid: seq<byte>, data: seq<byte>, size: nat, start: nat, maxWindow: int,
                             nes: seq<NetEvent>, w: Net)
    requires |sid| == 16 && size >= 1 && |Pieces(data, size)| < SEQ_SPACE
    requires NetRun(Net(Written(sid, data, size, 1, start), Start(maxWindow)), nes, w)
    requires w.conns == [[]] && w.sys.pusher.Delivering?
    ensures var stream := Bodies(Pieces(data, size));
            && |stream| == |Pieces(data, size)| && Inv(stream, w.sys) && AllArrived(stream, w.sys)
            && w.sys.pusher.fin && w.sys.st.nextSeq < |stream|
  {
    var stream, init := Bodies(Pieces(data, size)), Start(maxWindow);
    StartInv(stream, maxWindow);
    WrittenOnce(sid, data, size, 1, start, maxWindow);
    hide Inv, Run, NetRun, Pieces, Written, AllCarry, Total, Distinct;
    var net := Net(Written(sid, data, size, 1, start), init);
    OneConnectionOrder(sid, data, size, start, maxWindow, nes, w);
    var run := NetIsRun(stream, net, nes, w);
    RunInv(stream, init, run, w.sys);
    NoRepeats(stream, init, run, w.sys);
    LastIsFin(stream, w.sys);
  }

  lemma OneConnectionOrder(sid: seq<byte>, data: seq<byte>, size: nat, start: nat, maxWindow: int,
                           nes: seq<NetEvent>, w: Net)
    requires |sid| == 16 && size >= 1 && |Pieces(data, size)| < SEQ_SPACE
    requires NetRun(Net(Written(sid, data, size, 1, start), Start(maxWindow)), nes, w) && w.conns == [[]]
    ensures |w.sys.arrived| == |Pieces(data, size)|
    ensures forall i :: 0 <= i < |w.sys.arrived| ==> w.sys.arrived[i] == i
  {
    hide Parse, Frame, Kept, Pieces, NetRun, Deal;
    var pieces := Pieces(data, size);
    var frames := Frames(sid, pieces);
    OneLane(start, frames);
    assert seq<seq<seq<byte>>>(1, i => []) == [[]];
    forall i | 0 <= i < |frames|
      ensures Numbered(frames[i], i)
    {
      ParseFrame(sid, i, pieces[i], i == |pieces| - 1);
    }
    assert frames[0..] == frames;
    InOrderArrival(frames, Net(Written(sid, data, size, 1, start), Start(maxWindow)), nes, w);
    assert w.conns[0] == frames[|w.sys.arrived|..];
  }

  lemma LastIsFin(stream: seq<seq<byte>>, s: Sys)
    requires Inv(stream, s) && s.pusher.Delivering? && |s.arrived| == |stream|
    requires forall i :: 0 <= i < |s.arrived| ==> s.arrived[i] == i
    ensures s.pusher.fin && s.st.nextSeq < |stream|
    ensures forall k :: 0 <= k < |stream| ==> k in s.arrived
  {
    hide Flatten, Held;
    forall k | 0 <= k < |stream|
      ensures k in s.arrived
    {
      assert s.arrived[k] == k;
    }
  }
}
