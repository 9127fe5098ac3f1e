/**
 * Whole runs of the mux receiver: arrivals in any order and any multiplicity, deliveries one
 * at a time, and Reads with any buffer sizes, interleaved arbitrarily.
 *
 * `stream` is the list of chunk bodies of one Write, in sequence order.  Every result here
 * is about every run over every such list; `MuxWire` says which list a Write produces.
 */
module MuxRuns {
  import opened Bytes
  import opened MuxWire
  import opened Reassembly

  datatype Pusher = Idle | Delivering(fin: bool)

  /** The receiver with the part of its history the properties speak about. */
  datatype Sys = Sys(
    st: State,
    pusher: Pusher,           // whether some Push holds the lock
    returned: seq<byte>,      // everything Read has returned
    arrived: seq<nat>,        // sequence numbers of the well-formed chunks pushed so far
    repeated: nat,            // bytes of chunks pushed while already held
    eof: bool,                // Read has reported the end of the stream
    crashed: bool)            // a send on the closed channel has happened

  datatype Event =
    | Arrive(data: seq<byte>) // a Push enters its critical section
    | Turn                    // one turn of the delivery loop
    | Fetch(cap: nat)         // one Read with a buffer of `cap` bytes

  function Start(maxWindow: int): Sys {
    Sys(Fresh(maxWindow), Idle, [], [], 0, false, false)
  }

  predicate Enabled(s: Sys, e: Event) {
    match e
    case Arrive(_) => s.pusher.Idle?
    case Turn => s.pusher.Delivering? && !Deliver(s.st, s.pusher.fin).Blocked?
    case Fetch(cap) => !ReadSome(s.st, cap).Empty?
  }

  function AfterArrive(s: Sys, data: seq<byte>): Sys {
    match Parse(data)
    case Malformed => s
    case Chunk(seqNo, fin, body) =>
      var s' := s.(arrived := s.arrived + [seqNo]);
      if seqNo < s.st.nextSeq then s'
      else s'.(st := Store(s.st, seqNo, body), pusher := Delivering(fin),
               repeated := s.repeated + if seqNo in s.st.chunks then |body| else 0)
  }

  function AfterTurn(s: Sys): Sys
    requires s.pusher.Delivering?
  {
    match Deliver(s.st, s.pusher.fin)
    case Done(st) => s.(st := st, pusher := Idle)
    case More(st) => s.(st := st)
    case Blocked => s
    case SendOnClosed => s.(crashed := true, pusher := Idle)
  }

  function AfterFetch(s: Sys, cap: nat): Sys {
    match ReadSome(s.st, cap)
    case Got(st, bytes) => s.(st := st, returned := s.returned + bytes)
    case Eof => s.(eof := true)
    case Empty => s
  }

  function Next(s: Sys, e: Event): Sys
    requires Enabled(s, e)
  {
    match e
    case Arrive(data) => AfterArrive(s, data)
    case Turn => AfterTurn(s)
    case Fetch(cap) => AfterFetch(s, cap)
  }

  /** Every packet is either rejected by Push or is some chunk of the stream. */
  predicate Carries(stream: seq<seq<byte>>, e: Event) {
    e.Arrive? && Parse(e.data).Chunk? ==>
      var c := Parse(e.data);
      c.seqNo < |stream| && c.body == stream[c.seqNo] && c.fin == (c.seqNo == |stream| - 1)
  }

  ghost predicate Run(stream: seq<seq<byte>>, s: Sys, es: seq<Event>, s': Sys)
    decreases |es|
  {
    if es == [] then s == s'
    else Enabled(s, es[0]) && Carries(stream, es[0]) && Run(stream, Next(s, es[0]), es[1..], s')
  }

  // ----- the invariant -----

  /** Bytes held under sequence numbers below `n`. */
  function Held(chunks: map<nat, seq<byte>>, n: nat): nat {
    if n == 0 then 0
    else Held(chunks, n - 1) + if n - 1 in chunks then |chunks[n - 1]| else 0
  }

  ghost predicate Shape(stream: seq<seq<byte>>, s: Sys) {
    && |stream| < SEQ_SPACE
    && s.st.nextSeq <= |stream|
    && (forall k :: k in s.st.chunks ==> s.st.nextSeq <= k < |stream| && s.st.chunks[k] == stream[k])
    && (forall k: nat :: k in s.arrived <==> k < s.st.nextSeq || k in s.st.chunks)
  }

  /** Nothing is lost, reordered or invented between the chunks delivered and the reader. */
  ghost predicate InOrder(stream: seq<seq<byte>>, s: Sys) {
    && s.st.nextSeq <= |stream|
    && s.returned + s.st.pending + Flatten(s.st.queue) == Flatten(stream[..s.st.nextSeq])
  }

  /** The channel is closed only once, only at the end, and nothing is sent on it afterwards. */
  ghost predicate EndsWell(stream: seq<seq<byte>>, s: Sys) {
    && !s.crashed
    && (s.st.closed ==> s.st.nextSeq == |stream| && s.pusher.Idle?)
    && (s.eof ==> s.st.closed && s.st.pending == [] && s.st.queue == [] && s.returned == Flatten(stream))
    && (s.pusher.Delivering? ==>
          s.arrived != [] && s.pusher.fin == (s.arrived[|s.arrived| - 1] == |stream| - 1))
    && (s.pusher.Delivering? && s.pusher.fin ==>
          s.st.nextSeq < |stream| && |stream| - 1 in s.st.chunks)
  }

  /** The flow controller counts exactly the bytes it is responsible for, plus the repeats. */
  ghost predicate Conserves(stream: seq<seq<byte>>, s: Sys) {
    && s.st.window.consumed == |s.returned|
    && s.st.window.buffered
       == Held(s.st.chunks, |stream|) + |Flatten(s.st.queue)| + |s.st.pending| + s.repeated
  }

  ghost predicate Inv(stream: seq<seq<byte>>, s: Sys) {
    Shape(stream, s) && InOrder(stream, s) && EndsWell(stream, s) && Conserves(stream, s)
  }

  lemma {:induction false} HeldUpdate(m: map<nat, seq<byte>>, k: nat, v: seq<byte>, n: nat)
    ensures Held(m[k := v], n)
            == Held(m, n) + if k >= n then 0 else |v| - (if k in m then |m[k]| else 0)
  {
    if n > 0 {
      HeldUpdate(m, k, v, n - 1);
    }
  }

  lemma {:induction false} HeldRemove(m: map<nat, seq<byte>>, k: nat, n: nat)
    ensures Held(m - {k}, n) == Held(m, n) - if k < n && k in m then |m[k]| else 0
  {
    if n > 0 {
      HeldRemove(m, k, n - 1);
    }
  }

  lemma {:induction false} HeldNothing(n: nat)
    ensures Held(map[], n) == 0
  {
    if n > 0 {
      HeldNothing(n - 1);
    }
  }

  lemma StartInv(stream: seq<seq<byte>>, maxWindow: int)
    requires |stream| < SEQ_SPACE
    ensures Inv(stream, Start(maxWindow))
  {
    HeldNothing(|stream|);
  }

  lemma ArriveKeeps(stream: seq<seq<byte>>, s: Sys, data: seq<byte>)
    requires Inv(stream, s) && Enabled(s, Arrive(data)) && Carries(stream, Arrive(data))
    ensures Inv(stream, AfterArrive(s, data))
  {
    hide Parse, Flatten;
    var c := Parse(data);
    if c.Chunk? {
      HeldUpdate(s.st.chunks, c.seqNo, c.body, |stream|);
    }
  }

  /** A delivery moves the next chunk from the store to the queue. */
  lemma SendKeeps(stream: seq<seq<byte>>, s: Sys)
    requires Inv(stream, s) && s.st.nextSeq in s.st.chunks
    ensures var st := s.st;
            var body := stream[st.nextSeq];
            && st.nextSeq < |stream| && st.chunks[st.nextSeq] == body
            && s.returned + st.pending + Flatten(st.queue + [body]) == Flatten(stream[..st.nextSeq + 1])
            && |Flatten(st.queue + [body])| == |Flatten(st.queue)| + |body|
            && Held(st.chunks - {st.nextSeq}, |stream|) == Held(st.chunks, |stream|) - |body|
  {
    hide Flatten, Held;
    var st := s.st;
    var body := stream[st.nextSeq];
    HeldRemove(st.chunks, st.nextSeq, |stream|);
    FlattenAppend(st.queue, body);
    FlattenAppend(stream[..st.nextSeq], body);
    assert stream[..st.nextSeq + 1] == stream[..st.nextSeq] + [body];
    assert s.returned + st.pending + (Flatten(st.queue) + body)
        == s.returned + st.pending + Flatten(st.queue) + body;
  }

  lemma TurnKeeps(stream: seq<seq<byte>>, s: Sys)
    requires Inv(stream, s) && Enabled(s, Turn)
    ensures Inv(stream, AfterTurn(s))
  {
    hide Flatten, Held;
    if s.st.nextSeq in s.st.chunks && !s.st.window.Paused() {
      SendKeeps(stream, s);
      var s' := AfterTurn(s);
      assert Shape(stream, s');
    }
  }

  lemma FetchKeeps(stream: seq<seq<byte>>, s: Sys, cap: nat)
    requires Inv(stream, s) && Enabled(s, Fetch(cap))
    ensures Inv(stream, AfterFetch(s, cap))
  {
    hide Flatten, Held, ReadSome;
    ReadConserves(s.st, cap);
    var r := ReadSome(s.st, cap);
    if r.Got? {
      Regroup(s.returned, s.st.pending, Flatten(s.st.queue), r.bytes, r.state.pending, Flatten(r.state.queue));
    } else {
      assert stream[..|stream|] == stream;
      assert s.returned + [] + [] == s.returned;
    }
  }

  lemma Regroup<T>(a: seq<T>, p: seq<T>, q: seq<T>, b: seq<T>, p': seq<T>, q': seq<T>)
    requires b + p' + q' == p + q
    ensures a + b + p' + q' == a + p + q
    ensures |b| + |p'| + |q'| == |p| + |q|
  {
    assert a + b + p' + q' == a + (b + p' + q');
    assert |b + p' + q'| == |p + q|;
  }

  /** What one Read takes it takes from the front of the delivered bytes, and it changes nothing else. */
  lemma ReadConserves(st: State, cap: nat)
    ensures var r := ReadSome(st, cap);
            && (r.Got? ==>
                  && r.state == st.(queue := r.state.queue, pending := r.state.pending,
                                    window := st.window.Consume(|r.bytes|))
                  && r.bytes + r.state.pending + Flatten(r.state.queue) == st.pending + Flatten(st.queue)
                  && |r.bytes| <= cap && (st.pending != [] || st.queue != []))
            && (r.Eof? ==> st.closed && st.pending == [] && st.queue == [] && Flatten(st.queue) == [])
  {
    if st.pending != [] {
      var n := Min(cap, |st.pending|);
      assert st.pending == st.pending[..n] + st.pending[n..];
    } else if st.queue != [] {
      var n := Min(cap, |st.queue[0]|);
      assert st.queue[0] == st.queue[0][..n] + st.queue[0][n..];
    }
  }

  lemma {:induction false} RunInv(stream: seq<seq<byte>>, s: Sys, es: seq<Event>, s': Sys)
    requires Inv(stream, s) && Run(stream, s, es, s')
    ensures Inv(stream, s')
    decreases |es|
  {
    hide Inv, Enabled, Carries, AfterArrive, AfterTurn, AfterFetch;
    if es != [] {
      match es[0] {
        case Arrive(data) => ArriveKeeps(stream, s, data);
        case Turn => TurnKeeps(stream, s);
        case Fetch(cap) => FetchKeeps(stream, s, cap);
      }
      RunInv(stream, Next(s, es[0]), es[1..], s');
    }
  }
}
