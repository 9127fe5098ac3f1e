/**
 * The relay loop with its pooled buffer, and chains of relays joined by obfuscated
 * connections.
 */
module Relay {
  import opened Bytes
  import opened Obfs
  import Quota

  const BUFFER_SIZE := 32 * 1024

  // ----- the buffer pool -----

  class BufPool {
    var free: seq<array<byte>>

    ghost predicate Valid()
      reads this
    {
      forall i :: 0 <= i < |free| ==> free[i].Length == BUFFER_SIZE
    }

    constructor ()
      ensures Valid() && free == []
    {
      free := [];
    }

    method GetBuf() returns (buf: array<byte>)
      requires Valid()
      modifies this
      ensures Valid() && buf.Length == 32768
      ensures old(free) == [] ==> free == [] && fresh(buf)
      ensures old(free) != [] ==> old(free) == free + [buf]
    {
      if free == [] {
        buf := new byte[BUFFER_SIZE];
      } else {
        buf := free[|free| - 1];
        free := free[..|free| - 1];
      }
    }

    method PutBuf(buf: array<byte>)
      requires Valid()
      modifies this
      ensures Valid()
      ensures free == if buf.Length == BUFFER_SIZE then old(free) + [buf] else old(free)
    {
      if buf.Length != BUFFER_SIZE {
        return;
      }
      free := free + [buf];
    }
  }

  // ----- one relay -----

  /** The parameters of one relay run: quota, failing write, and the padding it will draw. */
  datatype Setup = Setup(metered: bool, limit: int, failAt: nat, noise: nat -> Noise, maxPad: int)

  datatype RelayEnd = Passed | SourceEnded | QuotaExceeded | WriteError

  datatype Relayed = Relayed(items: seq<Item>, used: int, rest: seq<byte>, end: RelayEnd)

  /** Relaying everything readable from `wire`, as the i-th and following chunks. */
  function RelayAll(wire: seq<byte>, s: Setup, used: int, i: nat): Relayed
    requires s.maxPad != -1
    decreases |wire|
  {
    var r := ReadFrame(wire, BUFFER_SIZE);
    if !r.Data? then Relayed([], used, wire, SourceEnded)
    else
      ReadBounded(wire, BUFFER_SIZE);
      var used' := if s.metered then used + |r.payload| else used;
      if s.metered && Quota.Exceeds(s.limit, used') then Relayed([], used', r.rest, QuotaExceeded)
      else if i == s.failAt then Relayed([], used', r.rest, WriteError)
      else
        var more := RelayAll(r.rest, s, used', i + 1);
        more.(items := [Item(r.payload, Padding(s.noise(i), s.maxPad, 0))] + more.items)
  }

  /** The payloads a 32 KiB reader can get out of a wire. */
  function Readable(wire: seq<byte>): seq<seq<byte>>
    decreases |wire|
  {
    var r := ReadFrame(wire, BUFFER_SIZE);
    if !r.Data? then []
    else
      ReadBounded(wire, BUFFER_SIZE);
      [r.payload] + Readable(r.rest)
  }

  /**
   * A relay passes on a prefix of what it could read, in frames the next reader can take
   * whole; all of it, if neither the quota nor a write stopped it.
   */
  lemma {:induction false} RelayForwardsPrefix(wire: seq<byte>, s: Setup, used: int, i: nat)
    requires s.maxPad != -1
    ensures var r := RelayAll(wire, s, used, i);
            && (forall k :: 0 <= k < |r.items| ==> r.items[k].Fits() && 1 <= |r.items[k].payload| <= BUFFER_SIZE)
            && Payloads(r.items) <= Readable(wire)
            && (r.end == SourceEnded ==> Payloads(r.items) == Readable(wire))
            && (!s.metered ==> r.used == used)
            && (s.metered && r.end == SourceEnded ==> r.used == used + |Flatten(Payloads(r.items))|)
    decreases |wire|
  {
    hide ReadFrame, Quota.Exceeds, Padding;
    var r := ReadFrame(wire, BUFFER_SIZE);
    if r.Data? {
      ReadBounded(wire, BUFFER_SIZE);
      var used' := if s.metered then used + |r.payload| else used;
      var all := RelayAll(wire, s, used, i);
      if all.items != [] {
        RelayForwardsPrefix(r.rest, s, used', i + 1);
        var more := RelayAll(r.rest, s, used', i + 1);
        assert all.items[1..] == more.items;
        assert Payloads(all.items) == [r.payload] + Payloads(more.items);
      }
    }
  }

  /**
   * Exactly when a relay gets to the end of its source: when no write fails on the way and,
   * if it is metered with a positive limit, everything it reads fits what is left of the quota.
   */
  lemma {:induction false} RelayCompleteIff(wire: seq<byte>, s: Setup, used: int, i: nat)
    requires s.maxPad != -1 && i <= s.failAt
    ensures var ps := Readable(wire);
            RelayAll(wire, s, used, i).end == SourceEnded
            <==> && i + |ps| <= s.failAt
                 && (s.metered && s.limit > 0 && ps != [] ==> used + |Flatten(ps)| <= s.limit)
    decreases |wire|
  {
    hide ReadFrame, Padding;
    RelayAllStep(wire, s, used, i);
    var r, ps := ReadFrame(wire, BUFFER_SIZE), Readable(wire);
    if r.Data? {
      ReadBounded(wire, BUFFER_SIZE);
      assert Flatten(ps) == r.payload + Flatten(ps[1..]);
      if i < s.failAt {
        var used' := if s.metered then used + |r.payload| else used;
        RelayCompleteIff(r.rest, s, used', i + 1);
      }
    }
  }

  /** The bytes of the first `k` payloads, if they are metered. */
  function Metered(s: Setup, ps: seq<seq<byte>>, k: nat): nat
    requires k <= |ps|
  {
    if s.metered then |Flatten(ps[..k])| else 0
  }

  /**
   * How a relay ends.  It forwards the payloads up to the first one that cannot be, and accounts
   * for that one too; it stops for the quota if that one brings the total past a positive limit,
   * and otherwise because the write of it failed.
   */
  lemma {:induction false} RelayOutcome(wire: seq<byte>, s: Setup, used: int, i: nat)
    requires s.maxPad != -1 && i <= s.failAt
    ensures var r, ps := RelayAll(wire, s, used, i), Readable(wire);
            var k := |r.items|;
            && k <= |ps| && Payloads(r.items) == ps[..k]
            && (k == |ps| ==> r.end == SourceEnded && r.used == used + Metered(s, ps, k))
            && (k < |ps| ==>
                  && r.used == used + Metered(s, ps, k + 1)
                  && r.end == (if s.metered && 0 < s.limit < r.used then QuotaExceeded else WriteError)
                  && (r.end == WriteError ==> i + k == s.failAt))
    decreases |wire|
  {
    hide ReadFrame, Padding;
    RelayAllStep(wire, s, used, i);
    var r, ps := ReadFrame(wire, BUFFER_SIZE), Readable(wire);
    var all := RelayAll(wire, s, used, i);
    if r.Data? {
      ReadBounded(wire, BUFFER_SIZE);
      FirstOf(ps);
      if all.items != [] {
        var used' := if s.metered then used + |r.payload| else used;
        RelayOutcome(r.rest, s, used', i + 1);
        var more := RelayAll(r.rest, s, used', i + 1);
        hide RelayAll, Readable, Flatten;
        assert all.items[1..] == more.items && ps[1..] == Readable(r.rest);
        assert Payloads(all.items) == [r.payload] + Payloads(more.items);
        assert ps[..|all.items|] == [r.payload] + ps[1..][..|more.items|];
      }
    }
  }

  /** The bytes of the first payload and those of the ones after it. */
  lemma FirstOf<T>(ps: seq<seq<T>>)
    requires ps != []
    ensures Flatten(ps[..0]) == [] && Flatten(ps[..1]) == ps[0]
    ensures forall k :: 1 <= k <= |ps| ==> |Flatten(ps[..k])| == |ps[0]| + |Flatten(ps[1..][..k - 1])|
  {
    assert ps[..1][1..] == [];
    forall k | 1 <= k <= |ps|
      ensures |Flatten(ps[..k])| == |ps[0]| + |Flatten(ps[1..][..k - 1])|
    {
      assert ps[..k][1..] == ps[1..][..k - 1];
    }
  }

  /** Under a positive limit, what is forwarded fits in what was left of the quota. */
  lemma {:induction false} RelayRespectsQuota(wire: seq<byte>, s: Setup, used: int, i: nat)
    requires s.maxPad != -1 && s.metered && s.limit > 0 && used <= s.limit
    ensures used + |Flatten(Payloads(RelayAll(wire, s, used, i).items))| <= s.limit
    decreases |wire|
  {
    hide ReadFrame, Padding;
    var r, all := ReadFrame(wire, BUFFER_SIZE), RelayAll(wire, s, used, i);
    if all.items != [] {
      ReadBounded(wire, BUFFER_SIZE);
      RelayRespectsQuota(r.rest, s, used + |r.payload|, i + 1);
      var more := RelayAll(r.rest, s, used + |r.payload|, i + 1);
      assert all.items[1..] == more.items;
      assert Payloads(all.items) == [r.payload] + Payloads(more.items);
    }
  }

  /** What one relay sends over an obfuscated connection is exactly what the next one reads. */
  lemma NextRelayReads(wire: seq<byte>, s: Setup, used: int, i: nat)
    requires s.maxPad != -1
    ensures var sent := RelayAll(wire, s, used, i).items;
            Readable(Wire(sent)) == Payloads(sent)
  {
    RelayForwardsPrefix(wire, s, used, i);
    ReadableWire(RelayAll(wire, s, used, i).items);
  }

  lemma {:induction false} ReadableWire(items: seq<Item>)
    requires forall k :: 0 <= k < |items| ==> items[k].Fits() && |items[k].payload| <= BUFFER_SIZE
    ensures Readable(Wire(items)) == Payloads(items)
    decreases |items|
  {
    ReadItems(items, BUFFER_SIZE);
    PayloadsSized(items, BUFFER_SIZE);
    AfterDataSuffix(items);
    hide ReadFrame, Wire, AfterData, Item.Fits;
    if Payloads(items) != [] {
      AfterDataShorter(items);
      ReadableWire(AfterData(items));
    }
  }

  lemma {:induction false} AfterDataShorter(items: seq<Item>)
    requires Payloads(items) != []
    ensures |AfterData(items)| < |items|
  {
    if items[0].payload == [] {
      AfterDataShorter(items[1..]);
    }
  }

  lemma {:induction false} PayloadsSized(items: seq<Item>, max: nat)
    requires forall k :: 0 <= k < |items| ==> |items[k].payload| <= max
    ensures forall j :: 0 <= j < |Payloads(items)| ==> 1 <= |Payloads(items)[j]| <= max
  {
    if items != [] {
      PayloadsSized(items[1..], max);
      assert Payloads(items) == (if items[0].payload == [] then [] else [items[0].payload]) + Payloads(items[1..]);
    }
  }

  /** One turn of the relay loop on the bytes `wire`. */
  lemma RelayAllStep(wire: seq<byte>, s: Setup, used: int, i: nat)
    requires s.maxPad != -1
    ensures var r := ReadFrame(wire, BUFFER_SIZE);
            if !r.Data? then RelayAll(wire, s, used, i) == Relayed([], used, wire, SourceEnded)
            else
              var used' := if s.metered then used + |r.payload| else used;
              if s.metered && Quota.Exceeds(s.limit, used')
              then RelayAll(wire, s, used, i) == Relayed([], used', r.rest, QuotaExceeded)
              else if i == s.failAt then RelayAll(wire, s, used, i) == Relayed([], used', r.rest, WriteError)
              else
                var more := RelayAll(r.rest, s, used', i + 1);
                RelayAll(wire, s, used, i)
                == more.(items := [Item(r.payload, Padding(s.noise(i), s.maxPad, 0))] + more.items)
  {
  }

  /** What the accounts of a user say before a relay starts. */
  function SetupFor(quota: Quota.QuotaManager?, user: string, failAt: nat, noise: nat -> Noise, maxPad: int): Setup
    reads if quota == null then {} else {quota}
  {
    var metered := quota != null && user != "";
    Setup(metered, if metered then quota.Limit(user) else 0, failAt, noise, maxPad)
  }

  function UsedBy(quota: Quota.QuotaManager?, user: string): int
    reads if quota == null then {} else {quota}
  {
    if quota == null then 0 else quota.Used(user)
  }

  /** What one turn of the loop leaves behind. */
  datatype PassResult = PassResult(inbox: seq<byte>, outbox: seq<byte>, used: int, end: RelayEnd)

  function PassOn(inbox: seq<byte>, outbox: seq<byte>, cap: nat, metered: bool, limit: int, used: int,
                  fails: bool, padding: seq<byte>): PassResult
  {
    var r := ReadFrame(inbox, cap);
    if !r.Data? then PassResult(inbox, outbox, used, SourceEnded)
    else
      var used' := if metered then used + |r.payload| else used;
      if metered && Quota.Exceeds(limit, used') then PassResult(r.rest, outbox, used', QuotaExceeded)
      else if fails then PassResult(r.rest, outbox, used', WriteError)
      else PassResult(r.rest, outbox + Frame(r.payload, padding), used', Passed)
  }

  /** Reads one chunk and passes it on, unless the quota or the write stops it. */
  method Pass(src: ObfsConn, dst: ObfsConn, buf: array<byte>, quota: Quota.QuotaManager?, user: string,
              fails: bool, noise: Noise) returns (end: RelayEnd)
    requires src != dst && dst.maxPad != -1
    modifies src`inbox, dst`outbox, buf, if quota == null then {} else {quota}
    ensures quota != null ==> quota.limits == old(quota.limits)
    ensures var metered := quota != null && user != "";
            var p := PassOn(old(src.inbox), old(dst.outbox), buf.Length, metered,
                            if metered then quota.Limit(user) else 0, old(UsedBy(quota, user)),
                            fails, Padding(noise, dst.maxPad, 0));
            && end == p.end && dst.outbox == p.outbox && UsedBy(quota, user) == p.used
            && (end != SourceEnded ==> src.inbox == p.inbox)
  {
    hide Frame, Padding;
    ReadPositive(src.inbox, buf.Length);
    hide ReadFrame;
    var n, ok := src.Read(buf);
    if !ok {
      return SourceEnded;
    }
    if quota != null && user != "" {
      var exceeded := quota.AddUsage(user, n);
      if exceeded {
        return QuotaExceeded;
      }
    }
    var written, wok := dst.Write(buf[..n], noise, !fails);
    end := if wok then Passed else WriteError;
  }

  lemma ReadPositive(wire: seq<byte>, cap: nat)
    ensures ReadFrame(wire, cap).Data? ==> |ReadFrame(wire, cap).payload| >= 1
                                           && |ReadFrame(wire, cap).rest| < |wire|
  {
    if ReadFrame(wire, cap).Data? {
      ReadBounded(wire, cap);
    }
  }

  /** The loop of Relay with its buffer; `quota` is null or `user` empty when it is not metered. */
  method Pump(src: ObfsConn, dst: ObfsConn, buf: array<byte>, quota: Quota.QuotaManager?, user: string,
              failAt: nat, noise: nat -> Noise) returns (end: RelayEnd)
    requires src != dst && dst.maxPad != -1 && buf.Length == BUFFER_SIZE
    modifies src`inbox, dst`outbox, buf, if quota == null then {} else {quota}
    ensures var s := old(SetupFor(quota, user, failAt, noise, dst.maxPad));
            var r := RelayAll(old(src.inbox), s, old(UsedBy(quota, user)), 0);
            && dst.outbox == old(dst.outbox) + Wire(r.items)
            && end == r.end
            && UsedBy(quota, user) == r.used
            && (end != SourceEnded ==> src.inbox == r.rest)
  {
    hide RelayAll, ReadFrame, Wire, Frame, Padding, Quota.Exceeds, Extends;
    ghost var s := SetupFor(quota, user, failAt, noise, dst.maxPad);
    ghost var all := RelayAll(src.inbox, s, UsedBy(quota, user), 0);
    ghost var done: seq<Item> := [];
    var i := 0;
    WireNothing();
    ExtendsItself(all);
    while true
      invariant quota != null ==> quota.limits == old(quota.limits)
      invariant dst.outbox == old(dst.outbox) + Wire(done)
      invariant Extends(all, done, RelayAll(src.inbox, s, UsedBy(quota, user), i))
      decreases |src.inbox|
    {
      label Turn:
      ghost var was := src.inbox;
      RelayAllStep(src.inbox, s, UsedBy(quota, user), i);
      ReadPositive(src.inbox, BUFFER_SIZE);
      end := Pass(src, dst, buf, quota, user, i == failAt, noise(i));
      if end != Passed {
        ExtendsNothing(all, done, RelayAll(was, s, old@Turn(UsedBy(quota, user)), i));
        return;
      }
      ghost var item := Item(ReadFrame(was, BUFFER_SIZE).payload, Padding(noise(i), dst.maxPad, 0));
      WireAppend(done, item);
      ExtendsNext(all, done, item, RelayAll(src.inbox, s, UsedBy(quota, user), i + 1));
      done := done + [item];
      i := i + 1;
    }
  }

  /** `done` followed by what `r` relays is what `all` relays. */
  ghost predicate Extends(all: Relayed, done: seq<Item>, r: Relayed) {
    all == r.(items := done + r.items)
  }

  lemma ExtendsItself(all: Relayed)
    ensures Extends(all, [], all)
  {
  }

  lemma ExtendsNothing(all: Relayed, done: seq<Item>, r: Relayed)
    requires Extends(all, done, r) && r.items == []
    ensures all == r.(items := done)
  {
    assert done + [] == done;
  }

  lemma ExtendsNext(all: Relayed, done: seq<Item>, item: Item, more: Relayed)
    requires Extends(all, done, more.(items := [item] + more.items))
    ensures Extends(all, done + [item], more)
  {
    assert done + ([item] + more.items) == (done + [item]) + more.items;
  }

  lemma WireNothing()
    ensures Wire([]) == []
  {
  }

  /** Relay: the loop, with a buffer taken from the pool and given back. */
  method RelayLoop(src: ObfsConn, dst: ObfsConn, pool: BufPool, quota: Quota.QuotaManager?, user: string,
                   failAt: nat, noise: nat -> Noise) returns (end: RelayEnd)
    requires src != dst && dst.maxPad != -1 && pool.Valid()
    modifies src`inbox, dst`outbox, pool, pool.free, if quota == null then {} else {quota}
    ensures var s := old(SetupFor(quota, user, failAt, noise, dst.maxPad));
            var r := RelayAll(old(src.inbox), s, old(UsedBy(quota, user)), 0);
            && dst.outbox == old(dst.outbox) + Wire(r.items)
            && end == r.end
            && UsedBy(quota, user) == r.used
            && (end != SourceEnded ==> src.inbox == r.rest)
    ensures pool.Valid()
  {
    hide RelayAll, Wire;
    var buf := pool.GetBuf();
    assert old(pool.free) != [] ==> buf == old(pool.free)[|old(pool.free)| - 1];
    end := Pump(src, dst, buf, quota, user, failAt, noise);
    pool.PutBuf(buf);
  }

  lemma {:induction false} WireAppend(items: seq<Item>, x: Item)
    ensures Wire(items + [x]) == Wire(items) + Frame(x.payload, x.padding)
  {
    hide Frame;
    if items == [] {
      assert Wire([x]) == Frame(x.payload, x.padding) + Wire([]);
    } else {
      WireAppend(items[1..], x);
      assert (items + [x])[1..] == items[1..] + [x];
    }
  }

  lemma {:induction false} PayloadsAppend(items: seq<Item>, x: Item)
    ensures Payloads(items + [x]) == Payloads(items) + if x.payload == [] then [] else [x.payload]
  {
    if items == [] {
      assert Payloads([x]) == (if x.payload == [] then [] else [x.payload]) + Payloads([]);
    } else {
      PayloadsAppend(items[1..], x);
      assert (items + [x])[1..] == items[1..] + [x];
    }
  }

  // ----- a chain of relays -----

  /** One obfuscated connection: what is in flight on it, and what went in and came out so far. */
  datatype Link = Link(inflight: seq<Item>, wire: seq<byte>, sent: seq<seq<byte>>, got: seq<seq<byte>>)

  datatype RawConfig = RawConfig(maxPad: int, dummy: int)

  /** The padding settings of the connections; a maximal padding of -1 divides by zero. */
  type Config = c: RawConfig | c.maxPad != -1 witness RawConfig(0, 0)

  /** Relay k reads link k and writes link k + 1. */
  datatype Chain = Chain(cfg: Config, links: seq<Link>, stopped: set<nat>, shortBuffer: bool)

  datatype Event =
    | Send(payload: seq<byte>, noise: Noise)            // the source writes to link 0
    | Beat(k: nat, noise: Noise)                        // a heartbeat on link k
    | Forward(k: nat, noise: Noise, admitted: bool)     // relay k reads one chunk; it may be refused
    | Sink                                              // the far end reads the last link

  /** The frame of a Write, and that of a heartbeat. */
  function Written(c: Chain, payload: seq<byte>, noise: Noise): Item {
    Sent(WriteOp(payload, noise), c.cfg.maxPad, c.cfg.dummy)
  }

  function Dummy(c: Chain, noise: Noise): Item {
    Sent(BeatOp(noise), c.cfg.maxPad, c.cfg.dummy)
  }

  function Put(l: Link, x: Item): Link {
    Link(l.inflight + [x], l.wire + Frame(x.payload, x.padding),
         if x.payload == [] then l.sent else l.sent + [x.payload], l.got)
  }

  function Take(l: Link): Link
    requires ReadFrame(l.wire, BUFFER_SIZE).Data?
  {
    var r := ReadFrame(l.wire, BUFFER_SIZE);
    Link(AfterData(l.inflight), r.rest, l.sent, l.got + [r.payload])
  }

  predicate Enabled(c: Chain, e: Event) {
    match e
    case Send(p, _) => |c.links| > 0 && 1 <= |p| <= BUFFER_SIZE
    case Beat(k, _) => k < |c.links|
    case Forward(k, _, _) => k + 1 < |c.links| && k !in c.stopped
                             && !ReadFrame(c.links[k].wire, BUFFER_SIZE).Broken?
    case Sink => |c.links| > 0 && !ReadFrame(c.links[|c.links| - 1].wire, BUFFER_SIZE).Broken?
  }

  function Next(c: Chain, e: Event): Chain
    requires Enabled(c, e)
  {
    match e
    case Send(p, noise) => c.(links := c.links[0 := Put(c.links[0], Written(c, p, noise))])
    case Beat(k, noise) => c.(links := c.links[k := Put(c.links[k], Dummy(c, noise))])
    case Forward(k, noise, admitted) =>
      var r := ReadFrame(c.links[k].wire, BUFFER_SIZE);
      if r.ShortBuffer? then c.(shortBuffer := true, stopped := c.stopped + {k})
      else
        var links := c.links[k := Take(c.links[k])];
        if admitted then c.(links := links[k + 1 := Put(links[k + 1], Written(c, r.payload, noise))])
        else c.(links := links, stopped := c.stopped + {k})
    case Sink =>
      var last := |c.links| - 1;
      if ReadFrame(c.links[last].wire, BUFFER_SIZE).ShortBuffer? then c.(shortBuffer := true)
      else c.(links := c.links[last := Take(c.links[last])])
  }

  function Fresh(cfg: Config, n: nat): Chain {
    Chain(cfg, seq(n, i => Link([], [], [], [])), {}, false)
  }

  ghost predicate Run(c: Chain, es: seq<Event>, c': Chain)
    decreases |es|
  {
    if es == [] then c == c' else Enabled(c, es[0]) && Run(Next(c, es[0]), es[1..], c')
  }

  predicate Sized(x: Item) {
    x.Fits() && |x.payload| <= BUFFER_SIZE
  }

  ghost predicate LinkInv(l: Link) {
    && l.wire == Wire(l.inflight)
    && (forall i :: 0 <= i < |l.inflight| ==> Sized(l.inflight[i]))
    && l.sent == l.got + Payloads(l.inflight)
  }

  ghost predicate Inv(c: Chain) {
    && !c.shortBuffer && c.cfg.dummy <= 255
    && (forall k :: 0 <= k < |c.links| ==> LinkInv(c.links[k]))
    && (forall k :: 0 <= k < |c.links| - 1 ==> c.links[k + 1].sent <= c.links[k].got)
    && (forall k :: 0 <= k < |c.links| - 1 && k !in c.stopped ==> c.links[k + 1].sent == c.links[k].got)
  }

  lemma PutKeeps(l: Link, x: Item)
    requires LinkInv(l) && Sized(x)
    ensures LinkInv(Put(l, x))
  {
    hide Wire, Payloads, Frame, Sized;
    WireAppend(l.inflight, x);
    PayloadsAppend(l.inflight, x);
  }

  /** A reader with a pooled buffer always gets the oldest payload in flight. */
  lemma TakeKeeps(l: Link)
    requires LinkInv(l)
    ensures !ReadFrame(l.wire, BUFFER_SIZE).ShortBuffer?
    ensures ReadFrame(l.wire, BUFFER_SIZE).Data? ==>
              && LinkInv(Take(l)) && Take(l).sent == l.sent
              && |l.got| < |l.sent| && Take(l).got == l.got + [l.sent[|l.got|]]
              && 1 <= |l.sent[|l.got|]| <= BUFFER_SIZE
              && ReadFrame(l.wire, BUFFER_SIZE).payload == l.sent[|l.got|]
  {
    ReadItems(l.inflight, BUFFER_SIZE);
    PayloadsSized(l.inflight, BUFFER_SIZE);
    AfterDataSuffix(l.inflight);
    if ReadFrame(l.wire, BUFFER_SIZE).Data? {
      ReadBounded(l.wire, BUFFER_SIZE);
    }
    hide ReadFrame, Wire, Payloads, AfterData, Item.Fits;
    var ps := Payloads(l.inflight);
    if ps != [] {
      assert ps == [ps[0]] + ps[1..];
      assert l.sent == l.got + [ps[0]] + ps[1..];
    }
  }

  lemma SentSized(c: Chain, payload: seq<byte>, noise: Noise)
    ensures |payload| <= BUFFER_SIZE ==> Sized(Written(c, payload, noise))
    ensures c.cfg.dummy <= 255 ==> Sized(Dummy(c, noise))
  {
    hide PadLen;
  }

  lemma ForwardKeeps(c: Chain, k: nat, noise: Noise, admitted: bool)
    requires Inv(c) && Enabled(c, Forward(k, noise, admitted))
    ensures Inv(Next(c, Forward(k, noise, admitted)))
  {
    hide LinkInv, ReadFrame, Frame, Padding, Sized;
    TakeKeeps(c.links[k]);
    if admitted {
      var payload := ReadFrame(c.links[k].wire, BUFFER_SIZE).payload;
      SentSized(c, payload, noise);
      PutKeeps(c.links[k + 1], Written(c, payload, noise));
    }
  }

  lemma StepKeeps(c: Chain, e: Event)
    requires Inv(c) && Enabled(c, e)
    ensures Inv(Next(c, e)) && |Next(c, e).links| == |c.links|
  {
    hide LinkInv, ReadFrame, Frame, Padding, Sized;
    match e {
      case Send(p, noise) =>
        SentSized(c, p, noise);
        PutKeeps(c.links[0], Written(c, p, noise));
      case Beat(k, noise) =>
        SentSized(c, [], noise);
        PutKeeps(c.links[k], Dummy(c, noise));
      case Forward(k, noise, admitted) => ForwardKeeps(c, k, noise, admitted);
      case Sink => TakeKeeps(c.links[|c.links| - 1]);
    }
  }

  lemma {:induction false} RunKeeps(c: Chain, es: seq<Event>, c': Chain)
    requires Inv(c) && Run(c, es, c')
    ensures Inv(c') && |c'.links| == |c.links|
    decreases |es|
  {
    hide Inv, Enabled;
    if es != [] {
      StepKeeps(c, es[0]);
      RunKeeps(Next(c, es[0]), es[1..], c');
    }
  }

  lemma FreshInv(cfg: Config, n: nat)
    requires cfg.dummy <= 255
    ensures Inv(Fresh(cfg, n)) && |Fresh(cfg, n).links| == n
  {
  }

  lemma {:induction false} PrefixDownTo(c: Chain, k: nat)
    requires Inv(c) && k < |c.links|
    ensures c.links[k].got <= c.links[0].sent && c.links[k].sent <= c.links[0].sent
    ensures c.stopped == {} && (forall j :: 0 <= j <= k ==> Payloads(c.links[j].inflight) == [])
            ==> c.links[k].got == c.links[0].sent
  {
    hide Wire, Payloads, Sized;
    assert LinkInv(c.links[k]);
    if k > 0 {
      PrefixDownTo(c, k - 1);
      assert c.links[k - 1 + 1].sent <= c.links[k - 1].got;
    }
  }

  lemma {:induction false} FlattenPrefix<T>(a: seq<seq<T>>, b: seq<seq<T>>)
    requires a <= b
    ensures Flatten(a) <= Flatten(b)
  {
    assert b == a + b[|a|..];
    FlattenConcat(a, b[|a|..]);
  }

  /** The bytes that came out of the chain are a prefix of those that went in, and no read lacked buffer. */
  ghost predicate Lossless(c: Chain) {
    c.links != [] ==> !c.shortBuffer && Flatten(c.links[|c.links| - 1].got) <= Flatten(c.links[0].sent)
  }

  /**
   * In every run of a chain of relays, with heartbeats anywhere and relays stopped by quota at
   * any time, no read is refused for lack of buffer and the bytes that come out are a prefix
   * of the bytes that went in; all of them, once nothing is in flight and no relay stopped.
   */
  lemma ChainLosesNothing(cfg: Config, n: nat, es: seq<Event>, c: Chain)
    requires cfg.dummy <= 255 && n >= 1 && Run(Fresh(cfg, n), es, c)
    ensures |c.links| == n && Lossless(c)
    ensures c.stopped == {} && (forall j :: 0 <= j < n ==> Payloads(c.links[j].inflight) == [])
            ==> Flatten(c.links[n - 1].got) == Flatten(c.links[0].sent)
  {
    hide LinkInv, Payloads, Flatten, Fresh;
    FreshInv(cfg, n);
    RunKeeps(Fresh(cfg, n), es, c);
    PrefixDownTo(c, n - 1);
    FlattenPrefix(c.links[n - 1].got, c.links[0].sent);
  }

  /** One heartbeat of more than 255 bytes can put bytes into the stream that nobody sent. */
  lemma LongHeartbeatInvents(cfg: Config) returns (es: seq<Event>, c: Chain)
    requires cfg.dummy > 255
    ensures Run(Fresh(cfg, 1), es, c) && !Lossless(c)
  {
    hide ReadFrame, Frame, Padding, PadLen;
    MimicReads(cfg.maxPad, cfg.dummy, BUFFER_SIZE);
    var c0 := Fresh(cfg, 1);
    var beat := Beat(0, Mimic(cfg.dummy));
    var c1 := Next(c0, beat);
    var frame := Frame([], Padding(Mimic(cfg.dummy), cfg.maxPad, cfg.dummy));
    assert c1.links[0].wire == frame + [];
    ReadPositive(frame + [], BUFFER_SIZE);
    c := Next(c1, Sink);
    var p := ReadFrame(frame + [], BUFFER_SIZE).payload;
    assert c.links[0].got == [p] && c.links[0].sent == [];
    assert Flatten([p]) == p + Flatten([]);
    es := [beat, Sink];
    assert es[1..] == [Sink] && es[1..][1..] == [];
    assert Run(c, [], c) && Run(c1, [Sink], c);
  }

  /** No run of any chain loses or invents anything, if and only if the dummy size is at most 255. */
  lemma ChainLosslessIff(cfg: Config)
    ensures (forall n: nat, es, c :: n >= 1 && Run(Fresh(cfg, n), es, c) ==> Lossless(c)) <==> cfg.dummy <= 255
  {
    hide Run, Lossless, Fresh;
    if cfg.dummy <= 255 {
      forall n: nat, es, c | n >= 1 && Run(Fresh(cfg, n), es, c)
        ensures Lossless(c)
      {
        ChainLosesNothing(cfg, n, es, c);
      }
    } else {
      var es, c := LongHeartbeatInvents(cfg);
    }
  }

  /**
   * One turn of the relay loop between two links is one step of the chain, refused exactly
   * when the quota or the write stopped it.
   */
  lemma PassIsForward(c: Chain, k: nat, noise: Noise, metered: bool, limit: int, used: int, fails: bool)
    requires Inv(c) && Enabled(c, Forward(k, noise, true))
    ensures var p := PassOn(c.links[k].wire, c.links[k + 1].wire, BUFFER_SIZE, metered, limit, used, fails,
                            Padding(noise, c.cfg.maxPad, 0));
            var c' := Next(c, Forward(k, noise, p.end == Passed));
            && p.end != SourceEnded
            && c'.links[k].wire == p.inbox && c'.links[k + 1].wire == p.outbox
            && (k in c'.stopped <==> p.end != Passed)
            && forall j :: 0 <= j < |c.links| && j != k && j != k + 1 ==> c'.links[j] == c.links[j]
  {
    hide ReadFrame, Frame, Padding, LinkInv;
    TakeKeeps(c.links[k]);
  }
}
