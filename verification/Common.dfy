/** Vocabulary shared by every module: bytes, optional values, C memory comparison. */
module Common {

  type byte = x: int | 0 <= x < 256

  datatype Option<+T> = None | Some(value: T)

  const NUL: byte := 0
  const SPACE: byte := 32
  const SLASH: byte := 47

  /** The bytes of a string literal, all of whose characters fit a byte. */
  function Bytes(s: string): (b: seq<byte>)
    ensures |b| == |s| && forall i :: 0 <= i < |s| && s[i] as int < 256 ==> b[i] == s[i] as int
  {
    seq(|s|, i requires 0 <= i < |s| => s[i] as int % 256)
  }

  function Zeros(n: nat): (z: seq<byte>)
    ensures |z| == n && forall i :: 0 <= i < n ==> z[i] == NUL
  {
    seq(n, i => NUL)
  }

  /** `memcpy` of a name into a zeroed buffer of `n` bytes. */
  function Pad(b: seq<byte>, n: nat): (p: seq<byte>)
    requires |b| <= n
    ensures |p| == n && p[..|b|] == b
    ensures forall i :: |b| <= i < n ==> p[i] == NUL
  {
    b + Zeros(n - |b|)
  }

  /** `memcmp(a, b, n) == 0`. */
  predicate SameBytes(a: seq<byte>, b: seq<byte>, n: nat)
    requires n <= |a| && n <= |b|
  {
    a[..n] == b[..n]
  }

  /** The C string held in a buffer: the bytes before the first NUL. */
  function CString(b: seq<byte>): (c: seq<byte>)
    ensures |c| <= |b| && c == b[..|c|] && NUL !in c
    ensures |c| < |b| ==> b[|c|] == NUL
  {
    if |b| == 0 || b[0] == NUL then [] else [b[0]] + CString(b[1..])
  }

  predicate StartsWith<X(==)>(s: seq<X>, p: seq<X>) {
    |p| <= |s| && s[..|p|] == p
  }

  predicate Distinct<X(==)>(s: seq<X>) {
    forall i, j :: 0 <= i < j < |s| ==> s[i] != s[j]
  }

  function Reverse<X>(s: seq<X>): (r: seq<X>)
    ensures |r| == |s| && forall i :: 0 <= i < |s| ==> r[i] == s[|s| - 1 - i]
  {
    if s == [] then [] else [s[|s| - 1]] + Reverse(s[..|s| - 1])
  }

  lemma Associative<X>(a: seq<X>, b: seq<X>, c: seq<X>)
    ensures a + (b + c) == (a + b) + c
  {
  }

  lemma Cancel<X>(a: seq<X>, b: seq<X>, c: seq<X>)
    requires a + b == a + c
    ensures b == c
  {
    assert b == (a + b)[|a|..] && c == (a + c)[|a|..];
  }
}
