/**
 * The fake-IP allocator: a wrapping pool of IPv4 addresses with a map in each direction.
 * Addresses are 32-bit numbers and every operation on them is modulo 2^32.
 */
module FakeIP {
  import opened Basics

  const SPACE := 0x1_0000_0000

  // ----- 32-bit arithmetic -----

  function Pow2(n: nat): (p: nat)
    ensures p >= 1
  {
    if n == 0 then 1 else 2 * Pow2(n - 1)
  }

  /** Bitwise or of two numbers. */
  function BitOr(a: nat, b: nat): nat {
    if a == 0 && b == 0 then 0
    else 2 * BitOr(a / 2, b / 2) + if a % 2 == 1 || b % 2 == 1 then 1 else 0
  }

  lemma {:induction false} BitOrZero(a: nat)
    ensures BitOr(a, 0) == a
  {
    if a > 0 {
      BitOrZero(a / 2);
    }
  }

  /** `x >> n`. */
  function ShiftRight(x: nat, n: nat): nat {
    if n == 0 then x else ShiftRight(x / 2, n - 1)
  }

  /** `x` with its low `m` bits cleared. */
  function Clear(x: nat, m: nat): nat {
    if m == 0 then x else 2 * Clear(x / 2, m - 1)
  }

  /** Setting the low `m` bits where they are clear adds 2^m - 1. */
  lemma {:induction false} OrLowMask(x: nat, m: nat)
    ensures BitOr(Clear(x, m), Pow2(m) - 1) == Clear(x, m) + Pow2(m) - 1
  {
    if m == 0 {
      BitOrZero(x);
    } else {
      var c, h := Clear(x / 2, m - 1), Pow2(m - 1);
      OrLowMask(x / 2, m - 1);
      assert (2 * h - 1) / 2 == h - 1 && (2 * c) / 2 == c;
      assert BitOr(2 * c, 2 * h - 1) == 2 * BitOr(c, h - 1) + 1;
    }
  }

  lemma {:induction false} ShiftOnes(m: nat, n: nat)
    requires n <= m
    ensures ShiftRight(Pow2(m) - 1, n) == Pow2(m - n) - 1
  {
    if n > 0 {
      assert (Pow2(m) - 1) / 2 == Pow2(m - 1) - 1;
      ShiftOnes(m - 1, n - 1);
    }
  }

  lemma {:induction false} ClearBounds(x: nat, m: nat, w: nat)
    requires m <= w && x < Pow2(w)
    ensures Clear(x, m) <= x < Clear(x, m) + Pow2(m) <= Pow2(w)
  {
    if m == 0 {
    } else {
      ClearBounds(x / 2, m - 1, w - 1);
    }
  }

  lemma Pow2Is32()
    ensures Pow2(32) == SPACE
  {
    assert Pow2(8) == 256;
    assert Pow2(16) == 0x1_0000;
    assert Pow2(24) == 0x100_0000;
  }

  // ----- the pool -----

  datatype Pool = Pool(minIP: nat, maxIP: nat, current: nat, ipToDomain: map<nat, string>, domainToIP: map<string, nat>)

  /** The network number of `ip` under a prefix of `ones` bits. */
  function Base(ip: nat, ones: nat): nat
    requires ones <= 32
  {
    Clear(ip, 32 - ones)
  }

  function NewPool(ip: nat, ones: nat): Pool
    requires ip < SPACE && ones <= 32
  {
    var base := Base(ip, ones);
    var top := BitOr(base, ShiftRight(SPACE - 1, ones));
    Pool((base + 1) % SPACE, (top - 1) % SPACE, (base + 1) % SPACE, map[], map[])
  }

  function Get(p: Pool, domain: string): (Pool, nat) {
    if domain in p.domainToIP then (p, p.domainToIP[domain])
    else
      var next := (p.current + 1) % SPACE;
      (p.(ipToDomain := p.ipToDomain[p.current := domain],
          domainToIP := p.domainToIP[domain := p.current],
          current := if next > p.maxIP then p.minIP else next),
       p.current)
  }

  /** An address as `net.ParseIP` gives it: with a four-byte form, or without. */
  datatype Addr = V4(n: nat) | V6(bits: nat)

  /** `ip.To4()`: nil for an address that has no four-byte form. */
  function To4(ip: Addr): Option<nat> {
    match ip
    case V4(n) => Some(n)
    case V6(_) => None
  }

  datatype Found = Known(domain: string) | Unknown | Panic

  /** The number is read off the four-byte form, and reading it off nil panics. */
  function Lookup(p: Pool, ip: Addr): Found {
    match To4(ip)
    case None => Panic
    case Some(n) => if n in p.ipToDomain then Known(p.ipToDomain[n]) else Unknown
  }

  /** The pool after asking for every domain of `ds` in turn. */
  function GetAll(p: Pool, ds: seq<string>): Pool {
    if ds == [] then p else Get(GetAll(p, ds[..|ds| - 1]), ds[|ds| - 1]).0
  }

  /** The distinct domains of `ds`, in order of first appearance: the allocation history. */
  function Firsts(ds: seq<string>): seq<string> {
    if ds == [] then []
    else
      var h := Firsts(ds[..|ds| - 1]);
      if ds[|ds| - 1] in h then h else h + [ds[|ds| - 1]]
  }

  /** The place of the i-th allocation among `n` addresses: a counter that wraps. */
  function Slot(i: nat, n: nat): (r: nat)
    requires n > 0
    ensures r < n
  {
    if i == 0 then 0
    else if Slot(i - 1, n) + 1 == n then 0 else Slot(i - 1, n) + 1
  }

  lemma {:induction false} SlotAfter(i: nat, t: nat, n: nat)
    requires 0 < n && t <= n
    ensures Slot(i + t, n) == if Slot(i, n) + t < n then Slot(i, n) + t else Slot(i, n) + t - n
  {
    if t > 0 {
      SlotAfter(i, t - 1, n);
    }
  }

  lemma {:induction false} SlotIsRemainder(i: nat, n: nat) returns (q: nat)
    requires n > 0
    ensures i == n * q + Slot(i, n)
  {
    if i == 0 {
      q := 0;
    } else {
      var q0 := SlotIsRemainder(i - 1, n);
      q := if Slot(i, n) == 0 then q0 + 1 else q0;
      assert n * (q0 + 1) == n * q0 + n;
    }
  }

  lemma SlotIsMod(i: nat, n: nat)
    requires n > 0
    ensures Slot(i, n) == i % n
  {
    var q := SlotIsRemainder(i, n);
    RemainderUnique(n, q, Slot(i, n), i / n, i % n);
  }

  /** The i-th domain of the history owns slot i. */
  ghost predicate Names(domainToIP: map<string, nat>, lo: nat, n: nat, h: seq<string>)
    requires n > 0
  {
    && (forall d :: d in domainToIP <==> d in h)
    && (forall i :: 0 <= i < |h| ==> h[i] in domainToIP && domainToIP[h[i]] == lo + Slot(i, n))
  }

  /** The last n domains of the history can be looked up. */
  ghost predicate Live(ipToDomain: map<nat, string>, lo: nat, n: nat, h: seq<string>)
    requires n > 0
  {
    && (forall i :: 0 <= i < |h| ==> lo + Slot(i, n) in ipToDomain)
    && (forall i :: 0 <= i < |h| && |h| - i <= n ==> ipToDomain[lo + Slot(i, n)] == h[i])
  }

  ghost predicate Owner(lo: nat, n: nat, h: seq<string>, a: nat, d: string, i: int)
    requires n > 0
  {
    0 <= i < |h| && |h| - i <= n && a == lo + Slot(i, n) && d == h[i]
  }

  /** Nothing else can be looked up. */
  ghost predicate Owned(ipToDomain: map<nat, string>, lo: nat, n: nat, h: seq<string>)
    requires n > 0
  {
    forall a :: a in ipToDomain ==> exists i :: Owner(lo, n, h, a, ipToDomain[a], i)
  }

  /** The closed form of a pool of `n` addresses from `lo` with allocation history `h`. */
  ghost predicate Allocated(p: Pool, lo: nat, n: nat, h: seq<string>) {
    && n > 0 && p.minIP == lo && p.maxIP == lo + n - 1
    && p.current == lo + Slot(|h|, n)
    && Distinct(h)
    && Names(p.domainToIP, lo, n, h)
    && Live(p.ipToDomain, lo, n, h)
    && Owned(p.ipToDomain, lo, n, h)
  }

  lemma NamesNext(m: map<string, nat>, lo: nat, n: nat, h: seq<string>, d: string)
    requires n > 0 && Names(m, lo, n, h) && d !in h && Distinct(h)
    ensures Names(m[d := lo + Slot(|h|, n)], lo, n, h + [d]) && Distinct(h + [d])
  {
    hide Slot;
  }

  lemma LiveNext(m: map<nat, string>, lo: nat, n: nat, h: seq<string>, d: string)
    requires n > 0 && Live(m, lo, n, h)
    ensures Live(m[lo + Slot(|h|, n) := d], lo, n, h + [d])
  {
    hide Slot;
    var k := |h|;
    forall i | 0 <= i < k && k + 1 - i <= n
      ensures Slot(i, n) != Slot(k, n)
    {
      SlotAfter(i, k - i, n);
    }
  }

  lemma OwnedNext(m: map<nat, string>, lo: nat, n: nat, h: seq<string>, d: string)
    requires n > 0 && Owned(m, lo, n, h)
    ensures Owned(m[lo + Slot(|h|, n) := d], lo, n, h + [d])
  {
    hide Slot;
    var k, m', h' := |h|, m[lo + Slot(|h|, n) := d], h + [d];
    forall a | a in m'
      ensures exists i :: Owner(lo, n, h', a, m'[a], i)
    {
      if a == lo + Slot(k, n) {
        assert Owner(lo, n, h', a, d, k);
      } else {
        var i :| Owner(lo, n, h, a, m[a], i);
        SlotAfter(i, k - i, n);
        assert Owner(lo, n, h', a, m'[a], i);
      }
    }
  }

  lemma GetAllocates(p: Pool, lo: nat, n: nat, h: seq<string>, d: string)
    requires Allocated(p, lo, n, h) && d !in h && lo + n < SPACE
    ensures Allocated(Get(p, d).0, lo, n, h + [d])
  {
    hide Names, Live, Owned, Distinct, Slot;
    NamesOnly(p.domainToIP, lo, n, h, d);
    assert (p.current + 1) % SPACE == p.current + 1;
    NamesNext(p.domainToIP, lo, n, h, d);
    LiveNext(p.ipToDomain, lo, n, h, d);
    OwnedNext(p.ipToDomain, lo, n, h, d);
    SlotAfter(|h|, 1, n);
  }

  lemma {:induction false} GetAllAllocates(p: Pool, lo: nat, n: nat, ds: seq<string>)
    requires Allocated(p, lo, n, []) && lo + n < SPACE
    ensures Allocated(GetAll(p, ds), lo, n, Firsts(ds))
    decreases |ds|
  {
    hide Allocated;
    if ds != [] {
      var prev := ds[..|ds| - 1];
      var d := ds[|ds| - 1];
      GetAllAllocates(p, lo, n, prev);
      if d in Firsts(prev) {
        KnownDomain(GetAll(p, prev), lo, n, Firsts(prev), d);
      } else {
        GetAllocates(GetAll(p, prev), lo, n, Firsts(prev), d);
      }
    }
  }

  lemma KnownDomain(p: Pool, lo: nat, n: nat, h: seq<string>, d: string)
    requires Allocated(p, lo, n, h) && d in h
    ensures Get(p, d).0 == p
  {
  }

  lemma NewPoolShape(ip: nat, ones: nat)
    requires ip < SPACE && ones <= 30
    ensures var base, size := Base(ip, ones), Pow2(32 - ones);
            && size >= 4 && base <= ip && base + size <= SPACE
            && NewPool(ip, ones) == Pool(base + 1, base + size - 2, base + 1, map[], map[])
  {
    assert Pow2(32 - ones) == 4 * Pow2(30 - ones);
    hide Pow2, BitOr, Clear, ShiftRight;
    Pow2Is32();
    OrLowMask(ip, 32 - ones);
    ShiftOnes(32, ones);
    ClearBounds(ip, 32 - ones, 32);
    InRange(Base(ip, ones) + 1);
    InRange(Base(ip, ones) + Pow2(32 - ones) - 2);
  }

  lemma InRange(x: nat)
    requires x < SPACE
    ensures x % SPACE == x
  {
  }

  lemma NamesAt(m: map<string, nat>, lo: nat, n: nat, h: seq<string>, i: nat)
    requires n > 0 && Names(m, lo, n, h) && i < |h|
    ensures h[i] in m && m[h[i]] == lo + Slot(i, n)
  {
  }

  lemma NamesOnly(m: map<string, nat>, lo: nat, n: nat, h: seq<string>, d: string)
    requires n > 0 && Names(m, lo, n, h)
    ensures d in m <==> d in h
  {
  }

  lemma LiveAt(m: map<nat, string>, lo: nat, n: nat, h: seq<string>, i: nat)
    requires n > 0 && Live(m, lo, n, h) && i < |h|
    ensures var a := lo + Slot(i, n);
            a in m && (|h| - i <= n ==> m[a] == h[i])
  {
  }

  lemma OwnerOf(m: map<nat, string>, lo: nat, n: nat, h: seq<string>, a: nat) returns (i: nat)
    requires n > 0 && Owned(m, lo, n, h) && a in m
    ensures Owner(lo, n, h, a, m[a], i)
  {
    i :| Owner(lo, n, h, a, m[a], i);
  }

  lemma LiveIff(p: Pool, lo: nat, n: nat, h: seq<string>, i: nat)
    requires Allocated(p, lo, n, h) && i < |h|
    ensures h[i] in p.domainToIP
    ensures Lookup(p, V4(p.domainToIP[h[i]])).Known?
    ensures Lookup(p, V4(p.domainToIP[h[i]])) == Known(h[i]) <==> |h| - 1 - i < n
  {
    hide Slot, Names, Live, Owned;
    NamesAt(p.domainToIP, lo, n, h, i);
    LiveAt(p.ipToDomain, lo, n, h, i);
    if |h| - i > n {
      var j := OwnerOf(p.ipToDomain, lo, n, h, p.domainToIP[h[i]]);
      assert h[i] != h[j];
    }
  }

  // ----- the properties, over every run -----

  /** The pool of a prefix of `ones` bits around `ip`, after any requests. */
  function After(ip: nat, ones: nat, ds: seq<string>): Pool
    requires ip < SPACE && ones <= 32
  {
    GetAll(NewPool(ip, ones), ds)
  }

  /** The number of addresses the pool hands out. */
  function Capacity(ones: nat): (n: int)
    requires ones <= 32
    ensures ones <= 30 ==> n >= 2
  {
    assert ones <= 30 ==> Pow2(31 - ones) == 2 * Pow2(30 - ones);
    Pow2(32 - ones) - 2
  }

  lemma Reached(ip: nat, ones: nat, ds: seq<string>)
    requires ip < SPACE && ones <= 30
    ensures Base(ip, ones) + Capacity(ones) + 2 <= SPACE
    ensures Allocated(After(ip, ones, ds), Base(ip, ones) + 1, Capacity(ones), Firsts(ds))
  {
    NewPoolShape(ip, ones);
    assert Allocated(NewPool(ip, ones), Base(ip, ones) + 1, Capacity(ones), []);
    hide Allocated;
    GetAllAllocates(NewPool(ip, ones), Base(ip, ones) + 1, Capacity(ones), ds);
  }

  /** The i-th distinct domain owns minIP + i mod N, strictly inside the network. */
  lemma ClosedForm(ip: nat, ones: nat, ds: seq<string>, i: nat)
    requires ip < SPACE && ones <= 30 && i < |Firsts(ds)|
    ensures var p := After(ip, ones, ds);
            var network, broadcast := Base(ip, ones), Base(ip, ones) + Pow2(32 - ones) - 1;
            && Firsts(ds)[i] in p.domainToIP
            && p.domainToIP[Firsts(ds)[i]] == network + 1 + i % Capacity(ones)
            && network < p.domainToIP[Firsts(ds)[i]] < broadcast < SPACE
            && network < p.current < broadcast
  {
    hide Slot, Firsts, GetAll, NewPool, Base, Pow2;
    Reached(ip, ones, ds);
    SlotIsMod(i, Capacity(ones));
  }

  /**
   * What Get answers, after any run: the address minIP + i mod N for the place i of the domain
   * in the allocation history, known or new; and a new domain can be looked up by it at once.
   */
  lemma GetAnswers(ip: nat, ones: nat, ds: seq<string>, d: string) returns (i: nat)
    requires ip < SPACE && ones <= 30
    ensures var (p, a) := Get(After(ip, ones, ds), d);
            var h := Firsts(ds + [d]);
            && p == After(ip, ones, ds + [d])
            && i < |h| && h[i] == d && (forall j :: 0 <= j < |h| && h[j] == d ==> j == i)
            && a == Base(ip, ones) + 1 + i % Capacity(ones)
            && (d !in Firsts(ds) ==> i == |Firsts(ds)| && Lookup(p, V4(a)) == Known(d))
  {
    var all := ds + [d];
    assert all[..|all| - 1] == ds;
    Reached(ip, ones, ds);
    i := GetAt(After(ip, ones, ds), Base(ip, ones) + 1, Capacity(ones), Firsts(ds), d);
    SlotIsMod(i, Capacity(ones));
  }

  lemma GetAt(p: Pool, lo: nat, n: nat, h: seq<string>, d: string) returns (i: nat)
    requires Allocated(p, lo, n, h) && lo + n < SPACE
    ensures var (p', a) := Get(p, d);
            var h' := if d in h then h else h + [d];
            && i < |h'| && h'[i] == d && (forall j :: 0 <= j < |h'| && h'[j] == d ==> j == i)
            && a == lo + Slot(i, n)
            && (d !in h ==> i == |h| && Lookup(p', V4(a)) == Known(d))
  {
    hide Slot, Names, Live, Owned;
    NamesOnly(p.domainToIP, lo, n, h, d);
    if d in h {
      i :| 0 <= i < |h| && h[i] == d;
      NamesAt(p.domainToIP, lo, n, h, i);
    } else {
      i := |h|;
    }
  }

  /** Looking a domain's address up gives it back exactly while fewer than N were allocated after it. */
  lemma RoundTripWindow(ip: nat, ones: nat, ds: seq<string>, i: nat)
    requires ip < SPACE && ones <= 30 && i < |Firsts(ds)|
    ensures var p, d := After(ip, ones, ds), Firsts(ds)[i];
            && d in p.domainToIP
            && Get(p, d) == (p, p.domainToIP[d])
            && (Lookup(p, V4(Get(p, d).1)) == Known(d) <==> |Firsts(ds)| - 1 - i < Capacity(ones))
            && Lookup(p, V4(Get(p, d).1)).Known?
  {
    hide Slot, Firsts, GetAll, NewPool, Base, Pow2, Allocated;
    Reached(ip, ones, ds);
    LiveIff(After(ip, ones, ds), Base(ip, ones) + 1, Capacity(ones), Firsts(ds), i);
  }

  /** The domain an address stands for always stands for that address. */
  lemma AddressOwnerAgrees(ip: nat, ones: nat, ds: seq<string>, a: nat)
    requires ip < SPACE && ones <= 30 && a in After(ip, ones, ds).ipToDomain
    ensures var p := After(ip, ones, ds);
            p.ipToDomain[a] in p.domainToIP && p.domainToIP[p.ipToDomain[a]] == a
  {
    hide Slot, Firsts, GetAll, NewPool, Base, Pow2, Names, Live, Owned, Distinct;
    Reached(ip, ones, ds);
    var p, h, lo, n := After(ip, ones, ds), Firsts(ds), Base(ip, ones) + 1, Capacity(ones);
    var j := OwnerOf(p.ipToDomain, lo, n, h, a);
    NamesAt(p.domainToIP, lo, n, h, j);
  }

  /** Strictly between the network and the broadcast address. */
  predicate Inside(ip: nat, ones: nat, a: nat)
    requires ones <= 32
  {
    Base(ip, ones) < a < Base(ip, ones) + Pow2(32 - ones) - 1
  }

  /** Every address ever handed out is an inner one, if and only if the prefix has at most 30 bits. */
  lemma InsideIff(ip: nat, ones: nat)
    requires ip < SPACE && ones <= 32
    ensures (forall ds, d :: Inside(ip, ones, Get(After(ip, ones, ds), d).1)) <==> ones <= 30
  {
    if ones <= 30 {
      forall ds, d
        ensures Inside(ip, ones, Get(After(ip, ones, ds), d).1)
      {
        InsideAlways(ip, ones, ds, d);
      }
    } else {
      assert Pow2(1) == 2 && Pow2(0) == 1;
      assert After(ip, ones, []) == NewPool(ip, ones);
      assert !Inside(ip, ones, Get(After(ip, ones, []), "").1);
    }
  }

  lemma InsideAlways(ip: nat, ones: nat, ds: seq<string>, d: string)
    requires ip < SPACE && ones <= 30
    ensures Inside(ip, ones, Get(After(ip, ones, ds), d).1)
  {
    hide Slot, Firsts, GetAll, NewPool, Base, Pow2, Names, Live, Owned, Distinct;
    Reached(ip, ones, ds);
    var p, h, lo, n := After(ip, ones, ds), Firsts(ds), Base(ip, ones) + 1, Capacity(ones);
    NamesOnly(p.domainToIP, lo, n, h, d);
    if d in h {
      var i :| 0 <= i < |h| && h[i] == d;
      NamesAt(p.domainToIP, lo, n, h, i);
    }
  }

  // ----- the class -----

  class FakeIPPool {
    const minIP: nat
    const maxIP: nat
    var current: nat
    var ipToDomain: map<nat, string>
    var domainToIP: map<string, nat>

    constructor (ip: nat, ones: nat)
      requires ip < SPACE && ones <= 32
      ensures View() == NewPool(ip, ones)
    {
      var low := Clear(ip, 32 - ones);
      var high := BitOr(low, ShiftRight(SPACE - 1, ones));
      minIP := (low + 1) % SPACE;
      maxIP := (high - 1) % SPACE;
      current := (low + 1) % SPACE;
      ipToDomain, domainToIP := map[], map[];
    }

    function View(): Pool
      reads this
    {
      Pool(minIP, maxIP, current, ipToDomain, domainToIP)
    }

    method GetIP(domain: string) returns (ip: nat)
      modifies this
      ensures (View(), ip) == Get(old(View()), domain)
    {
      if domain in domainToIP {
        return domainToIP[domain];
      }
      ip := current;
      ipToDomain := ipToDomain[ip := domain];
      domainToIP := domainToIP[domain := ip];
      current := (current + 1) % SPACE;
      if current > maxIP {
        current := minIP;
      }
    }

    method LookupIP(ip: Addr) returns (r: Found)
      ensures r == Lookup(View(), ip)
    {
      var four := To4(ip);
      if four.None? {
        return Panic;
      }
      if four.value in ipToDomain {
        return Known(ipToDomain[four.value]);
      }
      r := Unknown;
    }
  }
}
