/** Bytes, optional values and the big-endian numbers shared by the protocol modules. */
module Bytes {
  type byte = b: int | 0 <= b < 256

  type uint16 = n: int | 0 <= n < 0x1_0000

  type uint32 = n: int | 0 <= n < 0x1_0000_0000

  datatype Option<+T> = None | Some(value: T)

  /** Most significant byte first. */
  function U16(n: uint16): seq<byte> {
    [n / 256, n % 256]
  }

  function FromU16(hi: byte, lo: byte): uint16 {
    hi * 256 + lo
  }

  /** The time between two readings of a 32-bit clock that wraps. */
  function Elapsed(now: uint32, before: uint32): (r: uint32)
    ensures r == (now - before) % 0x1_0000_0000
  {
    if now >= before then now - before else now - before + 0x1_0000_0000
  }

  function Min(a: int, b: int): int {
    if a <= b then a else b
  }

  /** What is left of a number in 8 bits. */
  function Mod8(n: nat): byte {
    n % 256
  }

  function Sum(s: seq<nat>): nat {
    if s == [] then 0 else Sum(s[..|s| - 1]) + s[|s| - 1]
  }

  lemma SumNext(s: seq<nat>, n: nat)
    requires n < |s|
    ensures Sum(s[..n + 1]) == Sum(s[..n]) + s[n]
  {
    assert s[..n + 1][..n] == s[..n];
  }

  /** The sequences of a list, one after the other. */
  function Flatten<T>(parts: seq<seq<T>>): seq<T> {
    if parts == [] then [] else parts[0] + Flatten(parts[1..])
  }

  lemma Associative<T>(a: seq<T>, b: seq<T>, c: seq<T>)
    ensures (a + b) + c == a + (b + c)
  {
  }

  lemma {:induction false} FlattenLast<T>(parts: seq<seq<T>>)
    requires parts != []
    ensures Flatten(parts) == Flatten(parts[..|parts| - 1]) + parts[|parts| - 1]
  {
    if |parts| > 1 {
      FlattenLast(parts[1..]);
      assert parts[1..][..|parts| - 2] == parts[..|parts| - 1][1..];
      Associative(parts[0], Flatten(parts[..|parts| - 1][1..]), parts[|parts| - 1]);
    }
  }

  lemma {:induction false} FlattenAppend<T>(a: seq<seq<T>>, b: seq<seq<T>>)
    ensures Flatten(a + b) == Flatten(a) + Flatten(b)
  {
    if a == [] {
      assert a + b == b;
    } else {
      assert (a + b)[1..] == a[1..] + b;
      FlattenAppend(a[1..], b);
      Associative(a[0], Flatten(a[1..]), Flatten(b));
    }
  }

  lemma FlattenNext<T>(parts: seq<seq<T>>, n: nat)
    requires n < |parts|
    ensures Flatten(parts[..n + 1]) == Flatten(parts[..n]) + parts[n]
  {
    FlattenLast(parts[..n + 1]);
    assert parts[..n + 1][..n] == parts[..n];
  }

  lemma FlattenGrows<T>(parts: seq<seq<T>>, n: nat)
    requires n <= |parts|
    ensures |Flatten(parts[..n])| <= |Flatten(parts)|
  {
    assert parts[..n] + parts[n..] == parts;
    FlattenAppend(parts[..n], parts[n..]);
  }
}
