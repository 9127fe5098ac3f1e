/** Small concepts several components share. */
module Basics {

  datatype Option<+T> = None | Some(value: T)

  ghost predicate Distinct<T>(s: seq<T>) {
    forall i, j :: 0 <= i < j < |s| ==> s[i] != s[j]
  }

  // ----- remainders -----

  lemma MulStep(n: nat, a: int, b: int)
    requires a < b
    ensures n * b >= n * a + n
  {
    assert n * b == n * a + n * (b - a);
    assert n * (b - a) == n + n * (b - a - 1);
  }

  lemma RemainderUnique(n: nat, q: int, r: nat, q': int, r': nat)
    requires r < n && r' < n && n * q + r == n * q' + r'
    ensures r == r'
  {
    if q < q' {
      MulStep(n, q, q');
    } else if q' < q {
      MulStep(n, q', q);
    }
  }

  /** Counting up by one moves the remainder up by one, and round to zero. */
  lemma ModNext(x: nat, n: nat)
    requires n > 0
    ensures (x + 1) % n == if x % n + 1 == n then 0 else x % n + 1
  {
    var q, r := x / n, x % n;
    Successor(x, n, q, r, (x + 1) / n, (x + 1) % n);
  }

  lemma Successor(x: nat, n: nat, q: int, r: nat, q': int, r': nat)
    requires r < n && r' < n && x == n * q + r && x + 1 == n * q' + r'
    ensures r' == if r + 1 == n then 0 else r + 1
  {
    if r + 1 == n {
      assert n * (q + 1) == n * q + n;
      RemainderUnique(n, q + 1, 0, q', r');
    } else {
      RemainderUnique(n, q, r + 1, q', r');
    }
  }
}
