/**
 * Reconciling the running inbound handlers with a new configuration, and what holds after
 * any history of configurations.
 *
 * A handler is its number in the order of creation.  Go walks both maps in an unspecified
 * order, so one sync is a relation: which handlers are created and stopped is determined,
 * the order is not.
 */
module Inbounds {

  datatype Inbound = Inbound(protocol: string, listen: string, settings: map<string, string>)

  function Key(i: Inbound): string {
    i.protocol + "-" + i.listen
  }

  predicate Buildable(protocol: string) {
    protocol in {"socks5", "http", "tcp-forward", "tcp-balance", "udp-forward", "udp-range", "redirect", "tproxy"}
  }

  /** The inbounds of a configuration by key; of two with one key the later counts. */
  function Wanted(cfg: seq<Inbound>): map<string, Inbound> {
    if cfg == [] then map[]
    else Wanted(cfg[..|cfg| - 1])[Key(cfg[|cfg| - 1]) := cfg[|cfg| - 1]]
  }

  /** Entry `i` is the last one with key `k`. */
  ghost predicate LastWith(cfg: seq<Inbound>, k: string, i: int) {
    && 0 <= i < |cfg| && Key(cfg[i]) == k
    && forall j :: i < j < |cfg| ==> Key(cfg[j]) != k
  }

  /** A key is wanted exactly when some entry has it, and then with the last such entry. */
  lemma {:induction false} WantedIsLast(cfg: seq<Inbound>, k: string)
    ensures k !in Wanted(cfg) ==> forall i :: 0 <= i < |cfg| ==> Key(cfg[i]) != k
    ensures k in Wanted(cfg) ==> exists i :: LastWith(cfg, k, i) && Wanted(cfg)[k] == cfg[i]
    decreases |cfg|
  {
    if cfg != [] {
      var n := |cfg| - 1;
      WantedIsLast(cfg[..n], k);
      hide Key;
      assert forall i :: 0 <= i < n ==> cfg[..n][i] == cfg[i];
      if Key(cfg[n]) == k {
        assert LastWith(cfg, k, n);
      } else if k in Wanted(cfg) {
        var i :| LastWith(cfg[..n], k, i) && Wanted(cfg[..n])[k] == cfg[..n][i];
        assert LastWith(cfg, k, i);
      }
    }
  }

  /** The creation of a handler: for which key, from which entry, in which sync. */
  datatype Start = Start(key: string, entry: Inbound, round: nat)

  datatype Fleet = Fleet(active: map<string, nat>, started: seq<Start>, stopped: seq<nat>, round: nat)

  const Empty := Fleet(map[], [], [], 0)

  predicate Running(f: Fleet, id: nat) {
    id < |f.started| && f.started[id].key in f.active && f.active[f.started[id].key] == id
  }

  /** How often a handler was stopped. */
  function Times(log: seq<int>, id: int): nat {
    multiset(log)[id]
  }

  ghost predicate Valid(f: Fleet) {
    && (forall k :: k in f.active ==> f.active[k] < |f.started| && f.started[f.active[k]].key == k)
    && (forall id :: id in f.stopped ==> 0 <= id < |f.started|)
    && (forall id :: 0 <= id < |f.started| ==>
          Times(f.stopped, id) == if Running(f, id) then 0 else 1)
  }

  // ----- one sync -----

  /** The keys that are active after a sync. */
  predicate Stays(f: Fleet, want: map<string, Inbound>, k: string) {
    k in want && (k in f.active || Buildable(want[k].protocol))
  }

  /** Handlers of keys that are no longer wanted. */
  predicate Dropped(f: Fleet, want: map<string, Inbound>, id: nat) {
    Running(f, id) && f.started[id].key !in want
  }

  ghost predicate Synced(f: Fleet, want: map<string, Inbound>, f': Fleet) {
    && f'.round == f.round + 1
    && (forall k :: k in f'.active <==> Stays(f, want, k))
    && (forall k :: k in f'.active && k in f.active ==> f'.active[k] == f.active[k])
    && f.started <= f'.started
    && (forall k :: k in f'.active && k !in f.active ==>
          |f.started| <= f'.active[k] < |f'.started| && f'.started[f'.active[k]] == Start(k, want[k], f.round))
    && (forall id :: |f.started| <= id < |f'.started| ==>
          Running(f', id) && f'.started[id].key !in f.active)
    && f.stopped <= f'.stopped
    && (forall id :: id in f'.stopped[|f.stopped|..] ==> 0 <= id && Dropped(f, want, id))
    && (forall id: nat :: Dropped(f, want, id) ==> Times(f'.stopped[|f.stopped|..], id) == 1)
  }

  lemma SyncValid(f: Fleet, want: map<string, Inbound>, f': Fleet)
    requires Valid(f) && Synced(f, want, f')
    ensures Valid(f')
  {
    var extra := f'.stopped[|f.stopped|..];
    assert f'.stopped == f.stopped + extra;
    forall id | 0 <= id < |f'.started|
      ensures Times(f'.stopped, id) == if Running(f', id) then 0 else 1
    {
      assert Times(f'.stopped, id) == Times(f.stopped, id) + Times(extra, id);
      CountOf(extra, id);
      CountOf(f.stopped, id);
      if id < |f.started| {
        assert f'.started[id] == f.started[id];
      }
    }
  }

  lemma CountOf(s: seq<int>, x: int)
    ensures Times(s, x) == 0 <==> x !in s
  {
    assert x in multiset(s) <==> x in s;
  }

  lemma NoElements(s: seq<int>)
    requires forall x :: x !in s
    ensures s == []
  {
    var x: int := if s == [] then 0 else s[0];
    assert s == [] || x in s;
  }

  /** Syncing the same configuration again changes nothing. */
  lemma SyncIdempotent(f: Fleet, want: map<string, Inbound>, f': Fleet, f'': Fleet)
    requires Valid(f) && Synced(f, want, f') && Synced(f', want, f'')
    ensures f'' == f'.(round := f''.round)
  {
    hide Valid;
    assert forall k :: k in f''.active <==> k in f'.active;
    assert |f''.started| > |f'.started| ==> Running(f'', |f'.started|);
    assert f''.started == f'.started;
    var extra := f''.stopped[|f'.stopped|..];
    assert forall id: nat :: !Dropped(f', want, id);
    NoElements(extra);
    assert f''.stopped == f'.stopped + extra;
    assert f''.active == f'.active;
  }

  // ----- histories of configurations -----

  /** `fs` are the fleets before, between and after the syncs of `cfgs`. */
  ghost predicate History(cfgs: seq<seq<Inbound>>, fs: seq<Fleet>) {
    && |fs| == |cfgs| + 1 && fs[0] == Empty
    && forall i :: 0 <= i < |cfgs| ==> Synced(fs[i], Wanted(cfgs[i]), fs[i + 1])
  }

  /** `k` has been wanted in every configuration from `s` on, and could be built in `s`. */
  ghost predicate Unbroken(cfgs: seq<seq<Inbound>>, k: string, s: nat) {
    && s < |cfgs|
    && (forall j :: s <= j < |cfgs| ==> k in Wanted(cfgs[j]))
    && Buildable(Wanted(cfgs[s])[k].protocol)
  }

  ghost predicate Earliest(cfgs: seq<seq<Inbound>>, k: string, s: nat) {
    Unbroken(cfgs, k, s) && forall t :: 0 <= t < s ==> !Unbroken(cfgs, k, t)
  }

  /** The handler of `k` is the one built in the earliest round of its unbroken run. */
  ghost predicate BuiltEarliest(cfgs: seq<seq<Inbound>>, f: Fleet, k: string) {
    && k in f.active && f.active[k] < |f.started|
    && var st := f.started[f.active[k]];
       Earliest(cfgs, k, st.round) && st == Start(k, Wanted(cfgs[st.round])[k], st.round)
  }

  ghost predicate Explains(cfgs: seq<seq<Inbound>>, f: Fleet, k: string) {
    && (k in f.active ==> BuiltEarliest(cfgs, f, k))
    && (k !in f.active ==> forall s :: 0 <= s < |cfgs| ==> !Unbroken(cfgs, k, s))
  }

  lemma UnbrokenStep(cfgs: seq<seq<Inbound>>, k: string, s: nat)
    requires cfgs != []
    ensures var n := |cfgs| - 1;
            Unbroken(cfgs, k, s) <==>
              k in Wanted(cfgs[n]) && (if s == n then Buildable(Wanted(cfgs[n])[k].protocol)
                                       else s < n && Unbroken(cfgs[..n], k, s))
  {
    hide Wanted, Buildable;
  }

  lemma ExplainStep(cfgs: seq<seq<Inbound>>, mid: Fleet, f: Fleet, k: string)
    requires cfgs != [] && Valid(mid) && mid.round == |cfgs| - 1
    requires Synced(mid, Wanted(cfgs[|cfgs| - 1]), f) && Explains(cfgs[..|cfgs| - 1], mid, k)
    ensures Explains(cfgs, f, k)
  {
    hide Wanted, Buildable, Unbroken;
    var n, want := |cfgs| - 1, Wanted(cfgs[|cfgs| - 1]);
    var prev := cfgs[..n];
    forall s | 0 <= s < |cfgs|
      ensures Unbroken(cfgs, k, s) <==> k in want && (if s == n then Buildable(want[k].protocol) else Unbroken(prev, k, s))
    {
      UnbrokenStep(cfgs, k, s);
    }
    assert k in f.active <==> Stays(mid, want, k);
    if k in mid.active {
      InRange(prev, k, mid.started[mid.active[k]].round);
    }
  }

  lemma InRange(cfgs: seq<seq<Inbound>>, k: string, s: nat)
    requires Unbroken(cfgs, k, s)
    ensures s < |cfgs|
  {
  }

  lemma {:induction false} HistoryExplained(cfgs: seq<seq<Inbound>>, fs: seq<Fleet>, k: string)
    requires History(cfgs, fs)
    ensures Valid(fs[|cfgs|]) && fs[|cfgs|].round == |cfgs| && Explains(cfgs, fs[|cfgs|], k)
    decreases |cfgs|
  {
    if cfgs != [] {
      hide Valid, Explains, Wanted;
      var n := |cfgs| - 1;
      HistoryExplained(cfgs[..n], fs[..n + 1], k);
      assert Synced(fs[n], Wanted(cfgs[n]), fs[n + 1]);
      SyncValid(fs[n], Wanted(cfgs[n]), fs[n + 1]);
      ExplainStep(cfgs, fs[n], fs[n + 1], k);
    }
  }

  /**
   * After any history of configurations a key is active exactly when it has an unbroken run
   * of wanting configurations in which it could be built, its handler is the one built at
   * the earliest such point, and every handler ever created is either running and never
   * stopped, or stopped exactly once.
   */
  lemma ReconciliationHistory(cfgs: seq<seq<Inbound>>, fs: seq<Fleet>, f: Fleet, k: string)
    requires History(cfgs, fs) && f == fs[|cfgs|]
    ensures k in f.active <==> exists s :: 0 <= s < |cfgs| && Unbroken(cfgs, k, s)
    ensures k in f.active ==> BuiltEarliest(cfgs, f, k)
    ensures forall id :: 0 <= id < |f.started| ==> Times(f.stopped, id) == if Running(f, id) then 0 else 1
  {
    HistoryExplained(cfgs, fs, k);
    hide Wanted, Buildable, Unbroken;
    if k in f.active {
      InRange(cfgs, k, f.started[f.active[k]].round);
    }
  }

  // ----- keys -----

  /** Every key is buildable in all configurations that have it, or in none. */
  ghost predicate Unambiguous(cfgs: seq<seq<Inbound>>) {
    forall i, j, k :: 0 <= i < j < |cfgs| && k in Wanted(cfgs[i]) && k in Wanted(cfgs[j]) ==>
      Buildable(Wanted(cfgs[i])[k].protocol) == Buildable(Wanted(cfgs[j])[k].protocol)
  }

  /**
   * The active keys are the buildable keys of the last configuration, except exactly for a
   * key whose last entry cannot be built but whose unbroken run has an earlier one that could.
   */
  lemma ActiveIsLastConfigIff(cfgs: seq<seq<Inbound>>, fs: seq<Fleet>, f: Fleet, k: string)
    requires cfgs != [] && History(cfgs, fs) && f == fs[|cfgs|]
    ensures var n, last := |cfgs| - 1, Wanted(cfgs[|cfgs| - 1]);
            (k in f.active <==> k in last && Buildable(last[k].protocol))
            <==> !(k in last && !Buildable(last[k].protocol) && exists s :: 0 <= s < n && Unbroken(cfgs, k, s))
  {
    HistoryExplained(cfgs, fs, k);
    hide Wanted, Buildable;
    var n, last := |cfgs| - 1, Wanted(cfgs[|cfgs| - 1]);
    assert Unbroken(cfgs, k, n) <==> k in last && Buildable(last[k].protocol);
    if k in f.active {
      assert Unbroken(cfgs, k, f.started[f.active[k]].round);
    }
  }

  /** In particular there is no exception when each key is always or never buildable. */
  lemma ActiveIsLastConfig(cfgs: seq<seq<Inbound>>, fs: seq<Fleet>, f: Fleet, k: string)
    requires cfgs != [] && History(cfgs, fs) && f == fs[|cfgs|] && Unambiguous(cfgs)
    ensures var last := Wanted(cfgs[|cfgs| - 1]);
            k in f.active <==> k in last && Buildable(last[k].protocol)
  {
    ActiveIsLastConfigIff(cfgs, fs, f, k);
    hide Wanted, Buildable;
    var n := |cfgs| - 1;
    forall s | 0 <= s < n && Unbroken(cfgs, k, s)
      ensures Buildable(Wanted(cfgs[n])[k].protocol)
    {
      assert Buildable(Wanted(cfgs[s])[k].protocol) == Buildable(Wanted(cfgs[n])[k].protocol);
    }
  }

  /** The first five characters of a key with a buildable protocol tell the protocol. */
  function Tag(protocol: string): string
    requires |protocol| >= 4
  {
    (protocol + "-")[..5]
  }

  lemma TagsDiffer(p: string, q: string)
    requires Buildable(p) && Buildable(q) && Tag(p) == Tag(q)
    ensures p == q
  {
    assert Tag(p)[0] == Tag(q)[0] && Tag(p)[1] == Tag(q)[1] && Tag(p)[4] == Tag(q)[4];
  }

  /** Keys of buildable inbounds never collide. */
  lemma KeyInjective(a: Inbound, b: Inbound)
    requires Buildable(a.protocol) && Buildable(b.protocol) && Key(a) == Key(b)
    ensures a.protocol == b.protocol && a.listen == b.listen
  {
    assert Key(a)[..5] == Tag(a.protocol) && Key(b)[..5] == Tag(b.protocol);
    TagsDiffer(a.protocol, b.protocol);
    var n := |a.protocol| + 1;
    assert Key(a)[n..] == a.listen && Key(b)[n..] == b.listen;
  }

  /** From nothing, a configuration of one inbound starts its handler exactly for these eight protocols. */
  lemma WhichProtocolsRun(i: Inbound, f: Fleet)
    requires Synced(Empty, Wanted([i]), f)
    ensures (f.active.Keys == {Key(i)} && |f.started| == 1 && f.started[0].entry == i)
            <==> || i.protocol == "socks5" || i.protocol == "http"
                 || i.protocol == "tcp-forward" || i.protocol == "tcp-balance"
                 || i.protocol == "udp-forward" || i.protocol == "udp-range"
                 || i.protocol == "redirect" || i.protocol == "tproxy"
    ensures f.active == map[] || f.active.Keys == {Key(i)}
  {
    SingleWanted(i);
    hide Key;
    var k := Key(i);
    assert forall x :: x in f.active <==> x == k && Buildable(i.protocol);
    if Buildable(i.protocol) {
      OnlyOne(i, f);
    }
  }

  lemma OnlyOne(i: Inbound, f: Fleet)
    requires Wanted([i]) == map[Key(i) := i] && Synced(Empty, Wanted([i]), f) && Buildable(i.protocol)
    ensures |f.started| == 1 && f.started[0].entry == i
  {
    hide Key, Buildable;
    var k := Key(i);
    assert k in f.active;
    var id := f.active[k];
    assert forall x :: 0 <= x < |f.started| ==> Running(f, x) && f.started[x].key == k;
    var other := if id == 0 then 1 else 0;
    assert |f.started| > 1 ==> Running(f, other);
  }

  /** An unbuildable one can collide, and then keeps the other's handler running. */
  lemma CollisionKeepsHandler(fs: seq<Fleet>, a: Inbound, b: Inbound)
    requires a == Inbound("tcp-forward", ":80", map[]) && b == Inbound("tcp", "forward-:80", map[])
    requires History([[a], [b]], fs)
    ensures Key(a) == Key(b) && !Buildable(b.protocol)
    ensures Wanted([b]) == map[Key(b) := b] && Key(b) in fs[2].active
  {
    var cfgs, k := [[a], [b]], Key(b);
    assert Key(a) == "tcp-forward-:80" == k;
    SingleWanted(a);
    SingleWanted(b);
    HistoryExplained(cfgs, fs, k);
    assert Unbroken(cfgs, k, 0);
  }

  lemma SingleWanted(i: Inbound)
    ensures Wanted([i]) == map[Key(i) := i]
  {
    assert [i][..0] == [];
  }

  // ----- the agent -----

  class Agent {
    var active: map<string, nat>
    var started: seq<Start>
    var stopped: seq<nat>
    var round: nat

    constructor ()
      ensures View() == Empty
    {
      active, started, stopped, round := map[], [], [], 0;
    }

    function View(): Fleet
      reads this
    {
      Fleet(active, started, stopped, round)
    }

    method SyncInbounds(cfg: seq<Inbound>)
      requires Valid(View())
      modifies this
      ensures Valid(View()) && Synced(old(View()), Wanted(cfg), View())
    {
      ghost var before := View();
      var want := ByKey(cfg);
      StopRemoved(want);
      ghost var middle := View();
      StartAdded(want);
      round := round + 1;
      Combine(before, want, middle, View());
      SyncValid(before, want, View());
    }

    method StopRemoved(want: map<string, Inbound>)
      requires Valid(View())
      modifies this
      ensures Pruned(old(View()), want, View())
    {
      hide Pruning;
      ghost var before := View();
      ghost var log: seq<nat>, gone: set<string> := [], {};
      PruningStarts(before, want);
      var todo := active.Keys;
      while todo != {}
        invariant Pruning(before, want, todo, log, gone, View())
        decreases |todo|
      {
        var k :| k in todo;
        PruningStep(before, want, todo, log, gone, View(), k);
        if k !in want {
          log, gone := log + [active[k]], gone + {k};
          stopped := stopped + [active[k]];
          active := active - {k};
        }
        todo := todo - {k};
      }
      PruningEnds(before, want, log, gone, View());
    }

    method StartAdded(want: map<string, Inbound>)
      modifies this
      ensures Grown(old(View()), want, View())
    {
      hide Growing;
      ghost var before := View();
      GrowingStarts(before, want);
      var todo := want.Keys;
      while todo != {}
        invariant todo <= want.Keys && Growing(before, want, todo, View())
        decreases |todo|
      {
        var k :| k in todo;
        GrowingStep(before, want, todo, View(), k);
        if k !in active && Buildable(want[k].protocol) {
          active := active[k := |started|];
          started := started + [Start(k, want[k], round)];
        }
        todo := todo - {k};
      }
      GrowingEnds(before, want, View());
    }
  }

  /** The first loop with the keys `todo` still ahead, having stopped `log`, the handlers of `gone`. */
  ghost predicate Pruning(f: Fleet, want: map<string, Inbound>, todo: set<string>,
                          log: seq<nat>, gone: set<string>, now: Fleet) {
    && now.round == f.round && now.started == f.started
    && todo <= now.active.Keys && gone <= f.active.Keys
    && (forall k :: k in now.active <==> k in f.active && k !in gone)
    && (forall k :: k in now.active ==> now.active[k] == f.active[k])
    && (forall k :: k in f.active && k !in todo ==> (k in gone <==> k !in want))
    && now.stopped == f.stopped + log && StoppedExactly(f, log, gone)
  }

  lemma PruningStarts(f: Fleet, want: map<string, Inbound>)
    ensures Pruning(f, want, f.active.Keys, [], {}, f)
  {
  }

  lemma PruningStep(f: Fleet, want: map<string, Inbound>, todo: set<string>, log: seq<nat>, gone: set<string>,
                    now: Fleet, k: string)
    requires Valid(f) && Pruning(f, want, todo, log, gone, now) && k in todo
    ensures k in now.active
    ensures if k in want then Pruning(f, want, todo - {k}, log, gone, now)
            else Pruning(f, want, todo - {k}, log + [now.active[k]], gone + {k},
                         now.(active := now.active - {k}, stopped := now.stopped + [now.active[k]]))
  {
    hide StoppedExactly, Valid;
    if k !in want {
      StopOne(f, log, gone, k);
      assert now.stopped + [now.active[k]] == f.stopped + (log + [now.active[k]]);
    }
  }

  lemma PruningEnds(f: Fleet, want: map<string, Inbound>, log: seq<nat>, gone: set<string>, now: Fleet)
    requires Pruning(f, want, {}, log, gone, now)
    ensures Pruned(f, want, now)
  {
    hide StoppedExactly;
    assert now.stopped[|f.stopped|..] == log;
    assert f.active.Keys - now.active.Keys == gone;
  }

  /** The second loop with the keys `todo` still ahead. */
  ghost predicate Growing(f: Fleet, want: map<string, Inbound>, todo: set<string>, now: Fleet) {
    && now.round == f.round && now.stopped == f.stopped && f.started <= now.started
    && (forall k :: k in f.active ==> k in now.active && now.active[k] == f.active[k])
    && (forall k :: k in now.active && k !in f.active ==>
          k in want && k !in todo && Buildable(want[k].protocol)
          && |f.started| <= now.active[k] < |now.started| && now.started[now.active[k]] == Start(k, want[k], f.round))
    && (forall k :: k in want && k !in todo && k !in now.active ==> !Buildable(want[k].protocol))
    && (forall id :: |f.started| <= id < |now.started| ==>
          Running(now, id) && now.started[id].key !in f.active)
  }

  lemma GrowingStarts(f: Fleet, want: map<string, Inbound>)
    ensures Growing(f, want, want.Keys, f)
  {
  }

  lemma GrowingStep(f: Fleet, want: map<string, Inbound>, todo: set<string>, now: Fleet, k: string)
    requires Growing(f, want, todo, now) && k in todo && k in want
    ensures if k !in now.active && Buildable(want[k].protocol)
            then Growing(f, want, todo - {k}, now.(active := now.active[k := |now.started|],
                                                   started := now.started + [Start(k, want[k], now.round)]))
            else Growing(f, want, todo - {k}, now)
  {
    hide Buildable;
    if k !in now.active && Buildable(want[k].protocol) {
      var next := now.(active := now.active[k := |now.started|],
                       started := now.started + [Start(k, want[k], now.round)]);
      forall id | |f.started| <= id < |next.started|
        ensures Running(next, id) && next.started[id].key !in f.active
      {
        if id < |now.started| {
          assert Running(now, id);
        }
      }
    }
  }

  lemma GrowingEnds(f: Fleet, want: map<string, Inbound>, now: Fleet)
    requires Growing(f, want, {}, now)
    ensures Grown(f, want, now)
  {
    hide Buildable;
  }

  method ByKey(cfg: seq<Inbound>) returns (want: map<string, Inbound>)
    ensures want == Wanted(cfg)
  {
    want := map[];
    for i := 0 to |cfg|
      invariant want == Wanted(cfg[..i])
    {
      assert cfg[..i + 1][..i] == cfg[..i];
      want := want[Key(cfg[i]) := cfg[i]];
    }
    assert cfg[..|cfg|] == cfg;
  }

  /** `log` stops the handlers of the keys `gone` of `f`, each once. */
  ghost predicate StoppedExactly(f: Fleet, log: seq<nat>, gone: set<string>) {
    && gone <= f.active.Keys
    && (forall id :: id in log ==> exists k :: k in gone && f.active[k] == id)
    && (forall k :: k in gone ==> Times(log, f.active[k]) == 1)
  }

  lemma StopOne(f: Fleet, log: seq<nat>, gone: set<string>, k: string)
    requires Valid(f) && StoppedExactly(f, log, gone) && k in f.active && k !in gone
    ensures StoppedExactly(f, log + [f.active[k]], gone + {k})
  {
    var id := f.active[k];
    CountOf(log, id);
    forall j | j in gone
      ensures f.active[j] != id
    {
      assert f.started[f.active[j]].key == j && f.started[id].key == k;
    }
    assert id !in log;
  }

  /** After the first loop: unwanted handlers stopped and removed, nothing else. */
  ghost predicate Pruned(f: Fleet, want: map<string, Inbound>, f': Fleet) {
    && f'.round == f.round && f'.started == f.started
    && (forall k :: k in f'.active <==> k in f.active && k in want)
    && (forall k :: k in f'.active ==> f'.active[k] == f.active[k])
    && f.stopped <= f'.stopped
    && StoppedExactly(f, f'.stopped[|f.stopped|..], f.active.Keys - f'.active.Keys)
  }

  /** After the second loop: every wanted buildable key runs, nothing else changed. */
  ghost predicate Grown(f: Fleet, want: map<string, Inbound>, f': Fleet) {
    && f'.round == f.round && f'.stopped == f.stopped
    && f.started <= f'.started
    && (forall k :: k in f.active ==> k in f'.active && f'.active[k] == f.active[k])
    && (forall k :: k in f'.active && k !in f.active ==>
          k in want && Buildable(want[k].protocol)
          && |f.started| <= f'.active[k] < |f'.started| && f'.started[f'.active[k]] == Start(k, want[k], f.round))
    && (forall k :: k in want && k !in f'.active ==> !Buildable(want[k].protocol))
    && (forall id :: |f.started| <= id < |f'.started| ==>
          Running(f', id) && f'.started[id].key !in f.active)
  }

  lemma Combine(f: Fleet, want: map<string, Inbound>, mid: Fleet, f': Fleet)
    requires Valid(f) && Pruned(f, want, mid) && f'.round == f.round + 1 && Grown(mid, want, f'.(round := mid.round))
    ensures Synced(f, want, f')
  {
    hide Buildable;
    var log := f'.stopped[|f.stopped|..];
    forall id | id in log
      ensures 0 <= id && Dropped(f, want, id)
    {
      var k :| k in f.active.Keys - mid.active.Keys && f.active[k] == id;
    }
    forall id: nat | Dropped(f, want, id)
      ensures Times(log, id) == 1
    {
      assert f.started[id].key in f.active.Keys - mid.active.Keys;
    }
    forall id | |f.started| <= id < |f'.started|
      ensures Running(f', id) && f'.started[id].key !in f.active
    {
      assert Running(f'.(round := mid.round), id);
    }
  }
}
