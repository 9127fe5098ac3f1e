/**
 * The resolver's answer cache and its race between upstreams.
 *
 * Times are whole seconds and come in as parameters, as do the upstreams' replies; a message
 * is its ID and its answer records.
 */
module Dns {
  import opened Basics
  import opened FakeIP

  const TYPE_A := 1

  datatype Question = Question(name: string, qtype: nat)
  datatype Record = Record(ttl: nat, data: nat)
  datatype Msg = Msg(id: nat, answers: seq<Record>)

  function Distance(a: int, b: int): nat {
    if a <= b then b - a else a - b
  }

  /** How long an answer may be kept: the time in 10..3600 nearest to the first record's TTL. */
  function Lifetime(m: Msg): (t: nat)
    ensures 10 <= t <= 3600
    ensures m.answers == [] ==> t == 600
    ensures m.answers != [] ==> forall u :: 10 <= u <= 3600 ==>
              Distance(t, m.answers[0].ttl) <= Distance(u, m.answers[0].ttl)
  {
    var ttl := if m.answers == [] then 600 else m.answers[0].ttl;
    if ttl < 10 then 10 else if ttl > 3600 then 3600 else ttl
  }

  // ----- the cache key -----

  function Digit(d: nat): char
    requires d < 10
  {
    "0123456789"[d]
  }

  function Decimal(n: nat): string {
    if n < 10 then [Digit(n)] else Decimal(n / 10) + [Digit(n % 10)]
  }

  /** `fmt.Sprintf("%s-%d", name, qtype)`. */
  function CacheKey(q: Question): string {
    q.name + "-" + Decimal(q.qtype)
  }

  lemma {:induction false} DecimalHasNoDash(n: nat)
    ensures |Decimal(n)| >= 1 && '-' !in Decimal(n)
  {
    if n >= 10 {
      DecimalHasNoDash(n / 10);
    }
  }

  /** The last digit and the digits before it. */
  lemma DecimalSplit(n: nat)
    ensures var s := Decimal(n);
            && |s| >= 1 && s[|s| - 1] == Digit(n % 10)
            && (n < 10 <==> |s| == 1) && (n >= 10 ==> s[..|s| - 1] == Decimal(n / 10))
  {
    hide Digit;
    if n >= 10 {
      DecimalHasNoDash(n / 10);
    }
  }

  lemma DigitInjective(a: nat, b: nat)
    requires a < 10 && b < 10 && Digit(a) == Digit(b)
    ensures a == b
  {
  }

  lemma {:induction false} DecimalInjective(m: nat, n: nat)
    requires Decimal(m) == Decimal(n)
    ensures m == n
  {
    DecimalSplit(m);
    DecimalSplit(n);
    DigitInjective(m % 10, n % 10);
    if m >= 10 && n >= 10 {
      DecimalInjective(m / 10, n / 10);
    }
  }

  /** Different questions never share a cache entry, whatever dashes their names contain. */
  lemma CacheKeyInjective(p: Question, q: Question)
    requires CacheKey(p) == CacheKey(q)
    ensures p == q
  {
    DecimalHasNoDash(p.qtype);
    DecimalHasNoDash(q.qtype);
    var a, b, k := Decimal(p.qtype), Decimal(q.qtype), CacheKey(p);
    assert k[|k| - |a| - 1] == '-' && k[|k| - |a|..] == a && k[..|k| - |a| - 1] == p.name;
    assert k[|k| - |b| - 1] == '-' && k[|k| - |b|..] == b && k[..|k| - |b| - 1] == q.name;
    DashDecides(k, a, b);
    DashDecides(k, b, a);
    DecimalInjective(p.qtype, q.qtype);
  }

  /** A dash further right than a suffix is long lies inside that suffix. */
  lemma DashDecides(k: string, a: string, b: string)
    requires |a| < |k| && |b| < |k| && k[|k| - |a|..] == a && k[|k| - |b| - 1] == '-'
    ensures |b| < |a| ==> '-' in a
  {
    if |b| < |a| {
      assert a[|a| - |b| - 1] == '-';
    }
  }

  // ----- every interleaving of queries, replies and flushes -----

  /** A cache entry with what it came from. */
  datatype Entry = Entry(msg: Msg, expiry: int, question: Question, storedAt: int)

  /** An answer served from the cache, with the time of the last Flush before it. */
  datatype Serve = Serve(question: Question, reply: Msg, requestId: nat, entry: Entry, at: int, flushedAt: int)

  datatype World = World(
    now: int,
    cache: map<string, Entry>,
    flushedAt: int,
    answers: seq<(Question, Msg)>,   // what upstreams have answered, to whom
    served: seq<Serve>)

  datatype Event =
    | Pass(seconds: nat)
    | Upstream(question: Question, msg: Msg)   // an upstream answers a query that missed
    | Store(i: nat)                            // that query writes the cache, at any later time
    | Hit(question: Question, id: nat)         // a query finds a live entry
    | Flush

  predicate Enabled(w: World, e: Event) {
    match e
    case Store(i) => i < |w.answers|
    case Hit(q, _) => CacheKey(q) in w.cache && w.now < w.cache[CacheKey(q)].expiry
    case _ => true
  }

  function Next(w: World, e: Event): World
    requires Enabled(w, e)
  {
    match e
    case Pass(t) => w.(now := w.now + t)
    case Upstream(q, m) => w.(answers := w.answers + [(q, m)])
    case Store(i) =>
      var (q, m) := w.answers[i];
      w.(cache := w.cache[CacheKey(q) := Entry(m, w.now + Lifetime(m), q, w.now)])
    case Hit(q, id) =>
      var e := w.cache[CacheKey(q)];
      w.(served := w.served + [Serve(q, e.msg.(id := id), id, e, w.now, w.flushedAt)])
    case Flush => w.(cache := map[], flushedAt := w.now)
  }

  function Begin(now: int): World {
    World(now, map[], now, [], [])
  }

  ghost predicate Run(w: World, es: seq<Event>, w': World)
    decreases |es|
  {
    if es == [] then w == w' else Enabled(w, es[0]) && Run(Next(w, es[0]), es[1..], w')
  }

  ghost predicate GoodEntry(w: World, k: string) {
    k in w.cache &&
    var e := w.cache[k];
    && k == CacheKey(e.question) && (e.question, e.msg) in w.answers
    && e.expiry == e.storedAt + Lifetime(e.msg)
    && w.flushedAt <= e.storedAt <= w.now
  }

  /** An upstream gave this answer for this very question, stored since the last Flush and still alive. */
  ghost predicate GoodServe(answers: seq<(Question, Msg)>, s: Serve) {
    && (s.question, s.entry.msg) in answers
    && s.reply == s.entry.msg.(id := s.requestId)
    && s.flushedAt <= s.entry.storedAt <= s.at < s.entry.storedAt + Lifetime(s.entry.msg)
  }

  ghost predicate Inv(w: World) {
    && w.flushedAt <= w.now
    && (forall k :: k in w.cache ==> GoodEntry(w, k))
    && (forall i :: 0 <= i < |w.served| ==> GoodServe(w.answers, w.served[i]))
  }

  lemma StepKeeps(w: World, e: Event)
    requires Inv(w) && Enabled(w, e)
    ensures Inv(Next(w, e))
  {
    hide CacheKey, Lifetime;
    var w' := Next(w, e);
    if e.Hit? {
      var k := CacheKey(e.question);
      assert GoodEntry(w, k);
      CacheKeyInjective(e.question, w.cache[k].question);
    }
    assert forall x :: x in w.answers ==> x in w'.answers;
    if e.Store? {
      var a := w.answers[e.i];
      assert a == (a.0, a.1) && a in w.answers;
    }
    forall k | k in w'.cache
      ensures GoodEntry(w', k)
    {
      if k in w.cache {
        assert GoodEntry(w, k);
      }
    }
    forall i | 0 <= i < |w'.served|
      ensures GoodServe(w'.answers, w'.served[i])
    {
      if i < |w.served| {
        assert GoodServe(w.answers, w.served[i]) && w'.served[i] == w.served[i];
      } else {
        assert w'.served[i].entry == w.cache[CacheKey(e.question)];
      }
    }
  }

  lemma {:induction false} RunKeeps(w: World, es: seq<Event>, w': World)
    requires Inv(w) && Run(w, es, w')
    ensures Inv(w')
    decreases |es|
  {
    hide Inv, Enabled;
    if es != [] {
      StepKeeps(w, es[0]);
      RunKeeps(Next(w, es[0]), es[1..], w');
    }
  }

  /**
   * In every run, every answer served from the cache was given by an upstream for the same
   * name and type, was stored since the last Flush, and is within its lifetime.
   */
  lemma CacheAgrees(start: int, es: seq<Event>, w: World, i: nat)
    requires Run(Begin(start), es, w) && i < |w.served|
    ensures var s := w.served[i];
            && (s.question, s.entry.msg) in w.answers
            && s.reply == s.entry.msg.(id := s.requestId)
            && s.flushedAt <= s.entry.storedAt <= s.at < s.entry.storedAt + Lifetime(s.entry.msg)
  {
    RunKeeps(Begin(start), es, w);
  }

  // ----- the race -----

  datatype Reply = Answered(msg: Msg) | Failed(upstream: nat) | Cancelled

  /**
   * `replies[u]` is what upstream u sends on its channel (`Failed` for an error), `order` the
   * order in which select receives them, and `cancelAt` the turn at which the context is found
   * done, if that is before the end.
   */
  method RaceQuery(replies: seq<Reply>, order: seq<nat>, cancelAt: nat) returns (r: Reply)
    requires replies != [] && forall u :: 0 <= u < |replies| ==> !replies[u].Cancelled?
    requires forall u: nat :: u < |replies| ==> u in order
    requires |order| == |replies| && forall i :: 0 <= i < |order| ==> order[i] < |replies|
    ensures r.Answered? ==> r in replies
    ensures r.Failed? ==> forall u :: 0 <= u < |replies| ==> replies[u].Failed?
    ensures r.Cancelled? ==> |replies| > 1 && cancelAt < |replies|
    ensures |replies| == 1 ==> r == replies[0]
    ensures |replies| > 1 ==>
              (r.Answered? <==> exists i :: 0 <= i < |order| && i < cancelAt && replies[order[i]].Answered?)
  {
    if |replies| == 1 {
      return replies[0];
    }
    r := replies[order[0]];
    for i := 0 to |replies|
      invariant i <= cancelAt
      invariant forall j :: 0 <= j < i ==> replies[order[j]].Failed?
      invariant i > 0 ==> r.Failed?
    {
      if i == cancelAt {
        return Cancelled;
      }
      r := replies[order[i]];
      if r.Answered? {
        return;
      }
    }
    forall u: nat | u < |replies|
      ensures replies[u].Failed?
    {
      assert u in order;
      var i :| 0 <= i < |order| && order[i] == u;
    }
  }

  /**
   * The upstreams a query is raced over: its group, else the local group, else two defaults.
   * `outbound` is the name of the outbound the queried name is routed to, if there is one.
   */
  function Upstreams(groups: map<string, seq<string>>, outbound: Option<string>): (ups: seq<string>)
    ensures ups != []
    ensures outbound !in {None, Some("direct")} && "remote" in groups && groups["remote"] != [] ==> ups == groups["remote"]
    ensures outbound in {None, Some("direct")} && "local" in groups && groups["local"] != [] ==> ups == groups["local"]
    ensures "local" in groups && groups["local"] != [] && ("remote" !in groups || groups["remote"] == [])
            ==> ups == groups["local"]
    ensures groups == map[] ==> ups == ["119.29.29.29:53", "223.5.5.5:53"]
  {
    var own := if outbound == None || outbound == Some("direct") then "local" else "remote";
    if own in groups && groups[own] != [] then groups[own]
    else if "local" in groups && groups["local"] != [] then groups["local"]
    else ["119.29.29.29:53", "223.5.5.5:53"]
  }

  // ----- the resolver -----

  datatype QueryResult = NoQuestion | Response(msg: Msg) | Fake(ip: nat) | UpstreamError

  /** The cache and the result of a query outside the fake-IP path. */
  function Answer(cache: map<string, Entry>, q: Question, id: nat, now: int, later: int, race: Reply)
    : (map<string, Entry>, QueryResult)
  {
    var k := CacheKey(q);
    if k in cache && now < cache[k].expiry then (cache, Response(cache[k].msg.(id := id)))
    else if !race.Answered? then (cache, UpstreamError)
    else (cache[k := Entry(race.msg, later + Lifetime(race.msg), q, later)], Response(race.msg))
  }

  /** A query is answered exactly from a live cache entry or by the race; a miss gives the race's message. */
  lemma AnsweredIff(cache: map<string, Entry>, q: Question, id: nat, now: int, later: int, race: Reply)
    ensures var live := CacheKey(q) in cache && now < cache[CacheKey(q)].expiry;
            var (cache', r) := Answer(cache, q, id, now, later, race);
            && (r.Response? <==> live || race.Answered?)
            && (!live && race.Answered? ==> r == Response(race.msg) && CacheKey(q) in cache')
            && (live ==> r == Response(cache[CacheKey(q)].msg.(id := id)) && cache' == cache)
            && (!r.Response? ==> r == UpstreamError && cache' == cache)
  {
  }

  /** A call on the resolver. */
  datatype Call = Ask(q: Question, id: nat, now: int, later: int, race: Reply) | FlushAll

  function Called(cache: map<string, Entry>, calls: seq<Call>): map<string, Entry> {
    if calls == [] then cache
    else
      var prev, c := Called(cache, calls[..|calls| - 1]), calls[|calls| - 1];
      match c
      case Ask(q, id, now, later, race) => Answer(prev, q, id, now, later, race).0
      case FlushAll => map[]
  }

  /** None of the calls flushes, or asks the question again after its lifetime. */
  ghost predicate Undisturbed(calls: seq<Call>, q: Question, expiry: int) {
    forall i :: 0 <= i < |calls| ==> calls[i].Ask? && (calls[i].q == q ==> calls[i].now < expiry)
  }

  lemma {:induction false} EntrySurvives(cache: map<string, Entry>, calls: seq<Call>, q: Question)
    requires CacheKey(q) in cache && Undisturbed(calls, q, cache[CacheKey(q)].expiry)
    ensures CacheKey(q) in Called(cache, calls) && Called(cache, calls)[CacheKey(q)] == cache[CacheKey(q)]
    decreases |calls|
  {
    if calls != [] {
      var n := |calls| - 1;
      EntrySurvives(cache, calls[..n], q);
      if CacheKey(calls[n].q) == CacheKey(q) {
        CacheKeyInjective(calls[n].q, q);
      }
    }
  }

  /**
   * A question whose race was won by `m` keeps being answered with `m`, under the ID of each
   * request, for the lifetime of `m`, whatever other questions are asked and whatever later
   * races say, until a Flush.
   */
  lemma AskAgain(cache: map<string, Entry>, q: Question, id: nat, now: int, later: int, m: Msg,
                 calls: seq<Call>, id': nat, t: int, later': int, race: Reply)
    requires CacheKey(q) !in cache || now >= cache[CacheKey(q)].expiry
    requires Undisturbed(calls, q, later + Lifetime(m)) && t < later + Lifetime(m)
    ensures var first := Answer(cache, q, id, now, later, Answered(m));
            && first.1 == Response(m)
            && Answer(Called(first.0, calls), q, id', t, later', race)
               == (Called(first.0, calls), Response(m.(id := id')))
  {
    hide CacheKey, Lifetime;
    EntrySurvives(Answer(cache, q, id, now, later, Answered(m)).0, calls, q);
  }

  /** A query that nothing interrupts is a run of the step system with the same cache and answer. */
  lemma QueryIsRun(w: World, q: Question, id: nat, later: int, race: Reply) returns (es: seq<Event>, w': World)
    requires later >= w.now
    ensures Run(w, es, w')
    ensures var (cache, r) := Answer(w.cache, q, id, w.now, later, race);
            && w'.cache == cache
            && (r.Response? ==> if |w'.served| > |w.served|
                                then r.msg == w'.served[|w.served|].reply && w'.served[|w.served|].question == q
                                else race == Answered(r.msg) && (q, r.msg) in w'.answers && w'.now == later)
  {
    hide CacheKey, Lifetime;
    var k := CacheKey(q);
    if k in w.cache && w.now < w.cache[k].expiry {
      es, w' := [Hit(q, id)], Next(w, Hit(q, id));
      assert es[1..] == [] && Run(w', [], w');
    } else if !race.Answered? {
      es, w' := [], w;
    } else {
      var w1 := Next(w, Upstream(q, race.msg));
      var w2 := Next(w1, Pass(later - w.now));
      var store := Store(|w.answers|);
      w' := Next(w2, store);
      es := [Upstream(q, race.msg), Pass(later - w.now), store];
      assert w2.answers[|w.answers|] == (q, race.msg);
      assert es[1..] == [Pass(later - w.now), store] && es[1..][1..] == [store] && es[1..][1..][1..] == [];
      assert Run(w', [], w') && Run(w2, [store], w') && Run(w1, [Pass(later - w.now), store], w');
    }
  }

  class SmartResolver {
    var cache: map<string, Entry>
    const fake: FakeIPPool?

    constructor (pool: FakeIPPool?)
      ensures cache == map[] && fake == pool
    {
      cache, fake := map[], pool;
    }

    /** `now` is when the cache is consulted, `later` when the winner of the race is stored. */
    method Query(id: nat, questions: seq<Question>, now: int, later: int, race: Reply) returns (r: QueryResult)
      modifies this`cache, if fake == null then {} else {fake}
      ensures questions == [] ==> r == NoQuestion && cache == old(cache)
      ensures questions != [] && fake != null && questions[0].qtype == TYPE_A ==>
                cache == old(cache) && r.Fake?
                && (fake.View(), r.ip) == Get(old(fake.View()), TrimDot(questions[0].name))
      ensures questions != [] && !(fake != null && questions[0].qtype == TYPE_A) ==>
                && (fake != null ==> fake.View() == old(fake.View()))
                && (cache, r) == Answer(old(cache), questions[0], id, now, later, race)
                && (r.Response? <==> race.Answered? || (CacheKey(questions[0]) in old(cache)
                                                        && now < old(cache)[CacheKey(questions[0])].expiry))
    {
      if |questions| == 0 {
        return NoQuestion;
      }
      var q := questions[0];
      var key := CacheKey(q);
      if fake != null && q.qtype == TYPE_A {
        var ip := fake.GetIP(TrimDot(q.name));
        return Fake(ip);
      }
      if key in cache && now < cache[key].expiry {
        return Response(cache[key].msg.(id := id));
      }
      if !race.Answered? {
        return UpstreamError;
      }
      var ttl := 600;
      if |race.msg.answers| > 0 {
        ttl := race.msg.answers[0].ttl;
      }
      if ttl < 10 {
        ttl := 10;
      }
      if ttl > 3600 {
        ttl := 3600;
      }
      cache := cache[key := Entry(race.msg, later + ttl, q, later)];
      r := Response(race.msg);
    }

    method FlushCache()
      modifies this`cache
      ensures cache == map[]
    {
      cache := map[];
    }
  }

  /** `strings.TrimSuffix(name, ".")`. */
  function TrimDot(name: string): (t: string)
    ensures name == t + "." || (name == t && !exists s :: name == s + ".")
  {
    if name != [] && name[|name| - 1] == '.' then name[..|name| - 1] else name
  }
}
