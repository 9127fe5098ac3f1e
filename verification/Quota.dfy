/**
 * Traffic quotas: the manager's per-user counters, and every interleaving of the relay loops
 * of one user with limit changes and resets.
 */
module Quota {

  class QuotaManager {
    var used: map<string, int>
    var limits: map<string, int>

    constructor ()
      ensures used == map[] && limits == map[]
    {
      used, limits := map[], map[];
    }

    function Used(user: string): int
      reads this
    {
      OrZero(used, user)
    }

    function Limit(user: string): int
      reads this
    {
      OrZero(limits, user)
    }

    method AddUsage(user: string, n: int) returns (exceeded: bool)
      modifies this`used
      ensures (used, exceeded) == Usage(old(used), limits, user, n)
      ensures Used(user) == old(Used(user)) + n
      ensures exceeded <==> Limit(user) > 0 && Used(user) > Limit(user)
    {
      if user !in used {
        used := used[user := 0];
      }
      var limit := Limit(user);
      used := used[user := used[user] + n];
      exceeded := limit > 0 && used[user] > limit;
      assert used == old(used)[user := used[user]];
    }

    method SetLimit(user: string, limit: int)
      modifies this`limits
      ensures limits == old(limits)[user := limit]
    {
      limits := limits[user := limit];
    }

    method Reset(user: string)
      modifies this`used
      ensures used == if user in old(used) then old(used)[user := 0] else old(used)
      ensures Used(user) == 0
    {
      if user in used {
        used := used[user := 0];
      }
    }

    method GetStatus(user: string) returns (u: int, l: int)
      ensures u == Used(user) && l == Limit(user)
    {
      u, l := Used(user), Limit(user);
    }
  }

  /** Go's zero value for a missing key. */
  function OrZero(m: map<string, int>, k: string): int {
    if k in m then m[k] else 0
  }

  /** The counters after `n` more bytes of `user`, and whether its limit is now exceeded. */
  function Usage(used: map<string, int>, limits: map<string, int>, user: string, n: int): (map<string, int>, bool) {
    var current := OrZero(used, user) + n;
    (used[user := current], Exceeds(OrZero(limits, user), current))
  }

  predicate Exceeds(limit: int, current: int) {
    limit > 0 && current > limit
  }

  // ----- interleaved relay loops -----

  /**
   * AddUsage is two steps: it loads the limit, then adds to the counter and compares, and
   * anything may happen in between.
   */
  datatype Loop = Idle | Loaded(n: nat, limit: int) | Stopped

  datatype Account = Account(
    counter: int,
    limit: int,
    loops: seq<Loop>,
    admitted: nat,    // bytes passed on since the last Reset
    refused: nat)     // bytes of the reads that were refused since the last Reset

  datatype Event = Load(i: nat, n: nat) | Commit(i: nat) | SetLimit(limit: int) | Reset

  predicate Enabled(a: Account, e: Event) {
    match e
    case Load(i, _) => i < |a.loops| && a.loops[i].Idle?
    case Commit(i) => i < |a.loops| && a.loops[i].Loaded?
    case SetLimit(_) => true
    case Reset => true
  }

  function Next(a: Account, e: Event): Account
    requires Enabled(a, e)
  {
    match e
    case Load(i, n) => a.(loops := a.loops[i := Loaded(n, a.limit)])
    case Commit(i) =>
      var l := a.loops[i];
      var current := a.counter + l.n;
      if Exceeds(l.limit, current)
      then a.(counter := current, refused := a.refused + l.n, loops := a.loops[i := Stopped])
      else a.(counter := current, admitted := a.admitted + l.n, loops := a.loops[i := Idle])
    case SetLimit(limit) => a.(limit := limit)
    case Reset => a.(counter := 0, admitted := 0, refused := 0)
  }

  function Fresh(limit: int, loops: nat): Account {
    Account(0, limit, seq(loops, i => Idle), 0, 0)
  }

  ghost predicate Run(a: Account, es: seq<Event>, a': Account)
    decreases |es|
  {
    if es == [] then a == a' else Enabled(a, es[0]) && Run(Next(a, es[0]), es[1..], a')
  }

  /** Every limit set in the run is positive and at most `bound`. */
  ghost predicate LimitsWithin(es: seq<Event>, bound: int) {
    forall e :: e in es && e.SetLimit? ==> 0 < e.limit <= bound
  }

  ghost predicate Bounded(a: Account, bound: int) {
    && 0 < a.limit <= bound
    && (forall i :: 0 <= i < |a.loops| && a.loops[i].Loaded? ==> 0 < a.loops[i].limit <= bound)
    && a.counter == a.admitted + a.refused
    && a.admitted <= bound
  }

  lemma StepBounded(a: Account, e: Event, bound: int)
    requires Bounded(a, bound) && Enabled(a, e) && (e.SetLimit? ==> 0 < e.limit <= bound)
    ensures Bounded(Next(a, e), bound)
  {
  }

  lemma {:induction false} RunBounded(a: Account, es: seq<Event>, a': Account, bound: int)
    requires Bounded(a, bound) && Run(a, es, a') && LimitsWithin(es, bound)
    ensures Bounded(a', bound)
    decreases |es|
  {
    hide Bounded;
    if es != [] {
      assert es[0] in es;
      StepBounded(a, es[0], bound);
      assert forall e :: e in es[1..] ==> e in es;
      RunBounded(Next(a, es[0]), es[1..], a', bound);
    }
  }

  /**
   * However the loops of a user interleave, the bytes admitted since the last Reset never
   * exceed the largest limit in force during the run; with a fixed limit, they never exceed
   * that limit.  The counter is exactly what was admitted plus what was refused.
   */
  lemma QuotaBound(limit: int, loops: nat, es: seq<Event>, a: Account, bound: int)
    requires 0 < limit <= bound && LimitsWithin(es, bound)
    requires Run(Fresh(limit, loops), es, a)
    ensures a.admitted <= bound
    ensures a.counter == a.admitted + a.refused
  {
    RunBounded(Fresh(limit, loops), es, a, bound);
  }

  /** Once the counter is past every limit in force, nothing more is admitted before a Reset. */
  lemma {:induction false} ExceededSticks(a: Account, es: seq<Event>, a': Account, bound: int)
    requires Bounded(a, bound) && a.counter > bound
    requires Run(a, es, a') && LimitsWithin(es, bound) && Reset !in es
    ensures Bounded(a', bound) && a'.admitted == a.admitted && a'.counter > bound
    decreases |es|
  {
    if es != [] {
      assert es[0] in es;
      StepBounded(a, es[0], bound);
      assert forall e :: e in es[1..] ==> e in es;
      ExceededSticks(Next(a, es[0]), es[1..], a', bound);
    }
  }

  ghost predicate NoLimitSet(es: seq<Event>) {
    forall e :: e in es ==> !e.SetLimit?
  }

  /** Every limit loaded so far is the one in force. */
  ghost predicate Fixed(a: Account, limit: int) {
    a.limit == limit && forall i :: 0 <= i < |a.loops| && a.loops[i].Loaded? ==> a.loops[i].limit == limit
  }

  lemma {:induction false} RunFixed(a: Account, es: seq<Event>, a': Account, limit: int)
    requires Fixed(a, limit) && Run(a, es, a') && NoLimitSet(es)
    ensures Fixed(a', limit)
    decreases |es|
  {
    if es != [] {
      assert es[0] in es;
      assert forall e :: e in es[1..] ==> e in es;
      RunFixed(Next(a, es[0]), es[1..], a', limit);
    }
  }

  /**
   * In any run under a fixed limit: once some loop's AddUsage has reported exceeded, every
   * later one of any loop reports it too, until a Reset or a raised limit.
   */
  lemma ExceededKeepsBeingReported(limit: int, loops: nat, es: seq<Event>, a: Account, i: nat,
                                   later: seq<Event>, b: Account, j: nat)
    requires limit > 0 && Run(Fresh(limit, loops), es, a) && NoLimitSet(es)
    requires Enabled(a, Commit(i)) && Next(a, Commit(i)).loops[i].Stopped?
    requires Run(Next(a, Commit(i)), later, b) && Reset !in later && LimitsWithin(later, limit)
    requires Enabled(b, Commit(j))
    ensures Next(b, Commit(j)).loops[j].Stopped?
    ensures b.admitted == a.admitted
  {
    var start := Fresh(limit, loops);
    assert LimitsWithin(es, limit);
    RunBounded(start, es, a, limit);
    RunFixed(start, es, a, limit);
    StepBounded(a, Commit(i), limit);
    ExceededSticks(Next(a, Commit(i)), later, b, limit);
  }

  /** The bytes of the latest Load of loop `i`. */
  function Pending(es: seq<Event>, i: nat): nat
    decreases |es|
  {
    if es == [] then 0
    else
      var e := es[|es| - 1];
      if e.Load? && e.i == i then e.n else Pending(es[..|es| - 1], i)
  }

  /** The bytes of all Commits since the last Reset, read off the events alone. */
  function Counted(es: seq<Event>): nat
    decreases |es|
  {
    if es == [] then 0
    else
      var prev, e := es[..|es| - 1], es[|es| - 1];
      match e
      case Commit(i) => Counted(prev) + Pending(prev, i)
      case Reset => 0
      case Load(_, _) => Counted(prev)
      case SetLimit(_) => Counted(prev)
  }

  /** The limit in force after the events, `limit` being the first. */
  function InForce(limit: int, es: seq<Event>): int
    decreases |es|
  {
    if es == [] then limit
    else
      var e := es[|es| - 1];
      if e.SetLimit? then e.limit else InForce(limit, es[..|es| - 1])
  }

  /** The limit that was in force at the latest Load of loop `i`. */
  function LimitLoaded(limit: int, es: seq<Event>, i: nat): int
    decreases |es|
  {
    if es == [] then limit
    else
      var prev, e := es[..|es| - 1], es[|es| - 1];
      if e.Load? && e.i == i then InForce(limit, prev) else LimitLoaded(limit, prev, i)
  }

  lemma {:induction false} LoadedLimits(a: Account, es: seq<Event>, b: Account)
    requires Run(a, es, b) && forall i :: 0 <= i < |a.loops| ==> a.loops[i].Idle?
    ensures b.limit == InForce(a.limit, es)
    ensures forall i :: 0 <= i < |b.loops| && b.loops[i].Loaded? ==> b.loops[i].limit == LimitLoaded(a.limit, es, i)
    decreases |es|
  {
    if es != [] {
      var mid := RunLast(a, es, b);
      LoadedLimits(a, es[..|es| - 1], mid);
    }
  }

  lemma {:induction false} RunLast(a: Account, es: seq<Event>, b: Account) returns (mid: Account)
    requires Run(a, es, b) && es != []
    ensures Run(a, es[..|es| - 1], mid) && Enabled(mid, es[|es| - 1]) && b == Next(mid, es[|es| - 1])
    decreases |es|
  {
    if |es| == 1 {
      mid := a;
    } else {
      mid := RunLast(Next(a, es[0]), es[1..], b);
      assert es[1..][..|es| - 2] == es[..|es| - 1][1..];
    }
  }

  /** The counter is what the events say, and each loaded loop holds its latest read. */
  lemma {:induction false} CounterIsCounted(a: Account, es: seq<Event>, b: Account)
    requires Run(a, es, b) && a.counter == 0 && forall i :: 0 <= i < |a.loops| ==> a.loops[i].Idle?
    ensures b.counter == Counted(es)
    ensures forall i :: 0 <= i < |b.loops| && b.loops[i].Loaded? ==> b.loops[i].n == Pending(es, i)
    decreases |es|
  {
    if es != [] {
      var mid := RunLast(a, es, b);
      CounterIsCounted(a, es[..|es| - 1], mid);
    }
  }

  /**
   * In any run, with any limit changes, a read is refused if and only if the limit in force when
   * its loop loaded it is positive and exceeded by the bytes of all reads accounted since the
   * last Reset, its own included.
   */
  lemma RefusedByLoadedLimit(limit: int, loops: nat, es: seq<Event>, a: Account, i: nat)
    requires Run(Fresh(limit, loops), es, a) && Enabled(a, Commit(i))
    ensures var loaded := LimitLoaded(limit, es, i);
            Next(a, Commit(i)).loops[i].Stopped? <==> loaded > 0 && Counted(es + [Commit(i)]) > loaded
  {
    LoadedLimits(Fresh(limit, loops), es, a);
    CounterIsCounted(Fresh(limit, loops), es, a);
    var all := es + [Commit(i)];
    assert all[..|all| - 1] == es;
  }

  /**
   * In any run under a fixed limit, a read is refused if and only if the limit is positive and
   * the bytes of all reads accounted since the last Reset, its own included, exceed it.
   */
  lemma RefusedIff(limit: int, loops: nat, es: seq<Event>, a: Account, i: nat)
    requires Run(Fresh(limit, loops), es, a) && NoLimitSet(es) && Enabled(a, Commit(i))
    ensures Next(a, Commit(i)).loops[i].Stopped? <==> limit > 0 && Counted(es + [Commit(i)]) > limit
  {
    RunFixed(Fresh(limit, loops), es, a, limit);
    CounterIsCounted(Fresh(limit, loops), es, a);
    var all := es + [Commit(i)];
    assert all[..|all| - 1] == es;
  }

  /** One call of AddUsage that nothing interrupts is a Load and a Commit of the caller's loop. */
  lemma AddUsageIsRun(used: map<string, int>, limits: map<string, int>, user: string, n: nat, a: Account, i: nat)
    returns (a': Account)
    requires a.counter == OrZero(used, user) && a.limit == OrZero(limits, user)
    requires i < |a.loops| && a.loops[i].Idle?
    ensures Run(a, [Load(i, n), Commit(i)], a')
    ensures var (used', exceeded) := Usage(used, limits, user, n);
            && |a'.loops| == |a.loops|
            && a'.counter == OrZero(used', user) && a'.limit == OrZero(limits, user)
            && (a'.loops[i].Stopped? <==> exceeded)
            && a'.admitted == a.admitted + (if exceeded then 0 else n)
            && forall other :: other != user ==> OrZero(used', other) == OrZero(used, other)
  {
    var a1 := Next(a, Load(i, n));
    a' := Next(a1, Commit(i));
    var es := [Load(i, n), Commit(i)];
    assert es[1..] == [Commit(i)] && es[1..][1..] == [];
    assert Run(a', [], a') && Run(a1, [Commit(i)], a');
  }
}
