/** The vocabulary every other module shares: bytes, text as bytes, and the two
    failure-carrying datatypes. */
module Prelude {

  /** One byte. Arithmetic on bytes is done in `int` and stays in range. */
  type byte = b: int | 0 <= b < 256

  /** A Rust `&str` as the bytes it is made of. A `&str` is always well-formed
      UTF-8 (section 3 of RFC 3629); most results below do not need that and are
      stated for every byte string. */
  type Text = seq<byte>

  datatype Option<+T> = None | Some(value: T)

  datatype Result<+T, +E> = Ok(value: T) | Err(error: E)

  const PERCENT: byte := 0x25
  const STAR: byte := 0x2A
  const DASH: byte := 0x2D
  const DOT: byte := 0x2E
  const SLASH: byte := 0x2F
  const SEMICOLON: byte := 0x3B
  const EQUALS: byte := 0x3D
  const QUESTION: byte := 0x3F
  const HASH: byte := 0x23
  const BACKSLASH: byte := 0x5C
  const UNDERSCORE: byte := 0x5F
  const BAR: byte := 0x7C

  /** Of two permutations of one another, the first element of the one can be
      taken out of both. */
  lemma RemoveOne<T>(a: seq<T>, b: seq<T>) returns (k: nat)
    requires a != [] && multiset(a) == multiset(b)
    ensures k < |b| && b[k] == a[0]
    ensures b == b[..k] + [b[k]] + b[k + 1..]
    ensures multiset(a[1..]) == multiset(b[..k] + b[k + 1..])
  {
    assert a == [a[0]] + a[1..];
    assert a[0] in multiset(a);
    assert a[0] in multiset(b);
    k :| 0 <= k < |b| && b[k] == a[0];
    assert b == b[..k] + [b[k]] + b[k + 1..];
    assert multiset(b) == multiset(b[..k]) + multiset([b[k]]) + multiset(b[k + 1..]);
    assert multiset(a) == multiset([a[0]]) + multiset(a[1..]);
    assert multiset(b[..k] + b[k + 1..]) == multiset(b) - multiset([b[k]]);
    assert multiset(a[1..]) == multiset(a) - multiset([a[0]]);
  }
}
