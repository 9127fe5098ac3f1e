/** Bytes, byte strings and the big-endian fields every wire format of the system uses. */
module Bytes {

  type byte = x: int | 0 <= x < 256

  function Min(a: int, b: int): int {
    if a <= b then a else b
  }

  /** `uint16(n)` written big-endian: the value is truncated to 16 bits. */
  function U16(n: nat): (b: seq<byte>)
    ensures |b| == 2
    ensures GetU16(b, 0) == n % 0x1_0000
  {
    [n / 256 % 256, n % 256]
  }

  /** `uint32(n)` written big-endian: the value is truncated to 32 bits. */
  function U32(n: nat): (b: seq<byte>)
    ensures |b| == 4
    ensures GetU32(b, 0) == n % 0x1_0000_0000
  {
    U16(n / 0x1_0000) + U16(n)
  }

  function GetU16(s: seq<byte>, i: nat): (n: nat)
    requires i + 2 <= |s|
    ensures n < 0x1_0000
  {
    var hi: int, lo: int := s[i], s[i + 1];
    hi * 256 + lo
  }

  /** Reading a field and writing it again. */
  lemma U16Again(s: seq<byte>, i: nat)
    requires i + 2 <= |s|
    ensures U16(GetU16(s, i)) == s[i..i + 2]
  {
  }

  lemma U32Again(s: seq<byte>, i: nat)
    requires i + 4 <= |s|
    ensures U32(GetU32(s, i)) == s[i..i + 4]
  {
    U16Again(s, i);
    U16Again(s, i + 2);
    Halves(GetU16(s, i), GetU16(s, i + 2));
    hide GetU16, U16;
  }

  lemma Halves(hi: nat, lo: nat)
    requires lo < 0x1_0000
    ensures var n := hi * 0x1_0000 + lo;
            n / 0x1_0000 == hi && U16(n) == U16(lo)
  {
    var n := hi * 0x1_0000 + lo;
    assert n / 256 == hi * 256 + lo / 256;
  }

  function GetU32(s: seq<byte>, i: nat): (n: nat)
    requires i + 4 <= |s|
    ensures n < 0x1_0000_0000
  {
    GetU16(s, i) * 0x1_0000 + GetU16(s, i + 2)
  }

  /** The concatenation of a list of byte strings. */
  function Flatten<T>(parts: seq<seq<T>>): seq<T> {
    if parts == [] then [] else parts[0] + Flatten(parts[1..])
  }

  lemma {:induction false} FlattenConcat<T>(a: seq<seq<T>>, b: seq<seq<T>>)
    ensures Flatten(a + b) == Flatten(a) + Flatten(b)
  {
    if a == [] {
      assert a + b == b;
    } else {
      FlattenConcat(a[1..], b);
      assert (a + b)[1..] == a[1..] + b && (a + b)[0] == a[0];
    }
  }

  lemma FlattenAppend<T>(a: seq<seq<T>>, x: seq<T>)
    ensures Flatten(a + [x]) == Flatten(a) + x
  {
    FlattenConcat(a, [x]);
    assert Flatten([x]) == x;
  }
}
