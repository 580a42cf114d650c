/** The string operations the backend leans on: splitting on a separator and
    joining again, cutting at a character, trimming, and ASCII lower-casing. */
module TextOps {
  import opened Prelude

  /** `str::split(c)`: always at least one piece, none of which holds `c`. */
  function Split(s: Text, c: byte): (parts: seq<Text>)
    ensures |parts| >= 1
  {
    if s == [] then [[]]
    else
      var rest := Split(s[1..], c);
      if s[0] == c then [[]] + rest
      else [[s[0]] + rest[0]] + rest[1..]
  }

  /** `[&str]::join(c)`. */
  function Join(parts: seq<Text>, c: byte): Text {
    if parts == [] then []
    else if |parts| == 1 then parts[0]
    else parts[0] + [c] + Join(parts[1..], c)
  }

  /** `s.split(c).next()`: the text before the first `c`. */
  function Before(s: Text, c: byte): (r: Text)
    ensures c !in r
    ensures |r| <= |s| && r == s[..|r|]
    ensures |r| < |s| ==> s[|r|] == c
  {
    if s == [] || s[0] == c then [] else [s[0]] + Before(s[1..], c)
  }

  predicate StartsWith(s: Text, prefix: Text) {
    |prefix| <= |s| && s[..|prefix|] == prefix
  }

  predicate EndsWith(s: Text, suffix: Text) {
    |suffix| <= |s| && s[|s| - |suffix|..] == suffix
  }

  /** `str::trim_end_matches(c)`. */
  function TrimEnd(s: Text, c: byte): (r: Text)
    ensures |r| <= |s| && r == s[..|r|]
    ensures r != [] ==> r[|r| - 1] != c
  {
    if s != [] && s[|s| - 1] == c then TrimEnd(s[..|s| - 1], c) else s
  }

  /** `str::replace(from, to)` for single characters. */
  function Replace(s: Text, from: byte, to: byte): (r: Text)
    ensures |r| == |s|
    ensures forall i :: 0 <= i < |s| ==> r[i] == if s[i] == from then to else s[i]
  {
    seq(|s|, i requires 0 <= i < |s| => if s[i] == from then to else s[i])
  }

  function LowerByte(b: byte): byte {
    if 0x41 <= b <= 0x5A then b + 0x20 else b
  }

  /** `make_ascii_lowercase`. */
  function Lower(s: Text): (r: Text)
    ensures |r| == |s|
    ensures forall i :: 0 <= i < |s| ==> r[i] == LowerByte(s[i])
  {
    seq(|s|, i requires 0 <= i < |s| => LowerByte(s[i]))
  }

  const CAPITALS := "ABCDEFGHIJKLMNOPQRSTUVWXYZ"
  const LETTERS := "abcdefghijklmnopqrstuvwxyz"
  const DIGITS := "0123456789"

  lemma LetterCodes(i: nat)
    requires i < 26
    ensures |CAPITALS| == |LETTERS| == 26
    ensures CAPITALS[i] as int == 0x41 + i && LETTERS[i] as int == 0x61 + i
  {}

  lemma DigitCodes(i: nat)
    requires i < 10
    ensures |DIGITS| == 10 && DIGITS[i] as int == 0x30 + i
  {}

  /** The 26 capital letters become their small ones; no other byte changes. */
  lemma LowerByteExactly(b: byte)
    ensures forall i :: 0 <= i < |CAPITALS| && b == CAPITALS[i] as int ==>
      i < |LETTERS| && LowerByte(b) == LETTERS[i] as int
    ensures (forall i :: 0 <= i < |CAPITALS| ==> b != CAPITALS[i] as int) ==> LowerByte(b) == b
  {
    forall i | 0 <= i < 26 ensures CAPITALS[i] as int == 0x41 + i && LETTERS[i] as int == 0x61 + i {
      LetterCodes(i);
    }
    LetterCodes(0);
    assert 0x41 <= b <= 0x5A ==> b == CAPITALS[b - 0x41] as int;
  }

  /** `make_ascii_lowercase` as the loop it is, in place. */
  method MakeAsciiLowercase(a: array<byte>)
    modifies a
    ensures a[..] == Lower(old(a[..]))
  {
    var i := 0;
    while i < a.Length
      invariant 0 <= i <= a.Length
      invariant forall k :: 0 <= k < i ==> a[k] == LowerByte(old(a[k]))
      invariant forall k :: i <= k < a.Length ==> a[k] == old(a[k])
    {
      a[i] := LowerByte(a[i]);
      i := i + 1;
    }
  }

  // --- Split and Join ---

  /** No piece holds the separator. */
  lemma SplitPieces(s: Text, c: byte)
    ensures forall p :: p in Split(s, c) ==> c !in p
  {
    if s != [] {
      SplitPieces(s[1..], c);
      var rest := Split(s[1..], c);
      forall p | p in Split(s, c) ensures c !in p {
        if s[0] != c {
          assert p == [s[0]] + rest[0] || p in rest[1..];
        }
      }
    }
  }

  /** One character more at the front of split text. */
  function ConsPiece(b: byte, parts: seq<Text>, c: byte): seq<Text>
    requires parts != []
  {
    if b == c then [[]] + parts else [[b] + parts[0]] + parts[1..]
  }

  lemma SplitCons(b: byte, s: Text, c: byte)
    ensures Split([b] + s, c) == ConsPiece(b, Split(s, c), c)
  {
    assert ([b] + s)[1..] == s;
  }

  lemma ConsConcat(b: byte, l: seq<Text>, r: seq<Text>, c: byte)
    requires l != []
    ensures ConsPiece(b, l + r, c) == ConsPiece(b, l, c) + r
  {
    assert (l + r)[0] == l[0] && (l + r)[1..] == l[1..] + r;
  }

  /** The law the path proofs run on: a separator is exactly a seam. */
  lemma {:induction false} SplitAround(a: Text, c: byte, b: Text)
    ensures Split(a + [c] + b, c) == Split(a, c) + Split(b, c)
    decreases |a|
  {
    if a == [] {
      SplitCons(c, b, c);
      assert a + [c] + b == [c] + b;
    } else {
      var rest := a[1..];
      SplitAround(rest, c, b);
      SplitCons(a[0], rest + [c] + b, c);
      SplitCons(a[0], rest, c);
      ConsConcat(a[0], Split(rest, c), Split(b, c), c);
      assert a == [a[0]] + rest;
      assert a + [c] + b == [a[0]] + (rest + [c] + b);
    }
  }

  lemma SplitAtom(s: Text, c: byte)
    requires c !in s
    ensures Split(s, c) == [s]
  {
    if s != [] {
      SplitAtom(s[1..], c);
      assert [s[0]] + s[1..] == s;
    }
  }

  /** Join undoes Split. */
  lemma {:induction false} JoinSplit(s: Text, c: byte)
    ensures Join(Split(s, c), c) == s
  {
    if s != [] {
      JoinSplit(s[1..], c);
      var rest := Split(s[1..], c);
      if s[0] == c {
        assert ([[]] + rest)[1..] == rest;
        assert [] + [c] + s[1..] == s;
      } else {
        var parts := [[s[0]] + rest[0]] + rest[1..];
        assert parts[1..] == rest[1..];
        assert [s[0]] + s[1..] == s;
        if |rest| > 1 {
          assert Join(parts, c) == [s[0]] + rest[0] + [c] + Join(rest[1..], c);
        }
      }
    }
  }

  ghost predicate Atoms(parts: seq<Text>, c: byte) {
    forall p :: p in parts ==> c !in p
  }

  /** Split undoes Join, when no piece hides a separator. */
  lemma {:induction false} SplitJoin(parts: seq<Text>, c: byte)
    requires parts != [] && Atoms(parts, c)
    ensures Split(Join(parts, c), c) == parts
  {
    if |parts| == 1 {
      SplitAtom(parts[0], c);
    } else {
      SplitJoin(parts[1..], c);
      SplitAround(parts[0], c, Join(parts[1..], c));
      SplitAtom(parts[0], c);
      assert [parts[0]] + parts[1..] == parts;
    }
  }

  lemma {:induction false} JoinConcat(a: seq<Text>, b: seq<Text>, c: byte)
    requires a != [] && b != []
    ensures Join(a + b, c) == Join(a, c) + [c] + Join(b, c)
  {
    if |a| == 1 {
      assert (a + b)[1..] == b;
    } else {
      JoinConcat(a[1..], b, c);
      assert (a + b)[1..] == a[1..] + b;
      assert a[0] + [c] + (Join(a[1..], c) + [c] + Join(b, c)) == a[0] + [c] + Join(a[1..], c) + [c] + Join(b, c);
    }
  }

  /** The first piece is the text before the first separator. */
  lemma SplitFirst(s: Text, c: byte)
    ensures Split(s, c)[0] == Before(s, c)
  {
    if s != [] { SplitFirst(s[1..], c); }
  }

  lemma BeforeCut(s: Text, c: byte, rest: Text)
    requires c !in s
    requires rest == [] || rest[0] == c
    ensures Before(s + rest, c) == s
  {
    var t, r := s + rest, Before(s + rest, c);
    assert forall k :: 0 <= k < |s| ==> t[k] == s[k];
    assert rest != [] ==> t[|s|] == rest[0];
    assert t[..|s|] == s;
  }

  lemma SplitsInOrder(base: Text, s: Text, c: byte)
    requires Split(base, c) <= Split(s, c)
    ensures s == base || StartsWith(s, base + [c])
  {
    JoinSplit(base, c);
    JoinSplit(s, c);
    var p, q := Split(base, c), Split(s, c);
    var tail := q[|p|..];
    assert q == p + tail;
    if tail != [] {
      JoinConcat(p, tail, c);
      assert s == (base + [c]) + Join(tail, c);
    } else {
      assert p == q;
    }
  }

  /** The pieces of `base` are the first pieces of `s` exactly when `s` is
      `base` or goes on from it at a separator. */
  lemma SplitPrefix(base: Text, s: Text, c: byte)
    ensures Split(base, c) <= Split(s, c)
       <==> s == base || StartsWith(s, base + [c])
  {
    if StartsWith(s, base + [c]) {
      var rest := s[|base| + 1..];
      assert s == base + [c] + rest;
      SplitAround(base, c, rest);
    }
    if Split(base, c) <= Split(s, c) {
      SplitsInOrder(base, s, c);
    }
  }

  // --- Lower ---

  lemma LowerConcat(a: Text, b: Text)
    ensures Lower(a + b) == Lower(a) + Lower(b)
  {}

  lemma LowerIdempotent(s: Text)
    ensures Lower(Lower(s)) == Lower(s)
  {}

  function LowerAll(parts: seq<Text>): (r: seq<Text>)
    ensures |r| == |parts|
    ensures forall i :: 0 <= i < |parts| ==> r[i] == Lower(parts[i])
  {
    seq(|parts|, i requires 0 <= i < |parts| => Lower(parts[i]))
  }

  lemma {:induction false} LowerSplit(s: Text, c: byte)
    requires c < 0x41
    ensures Split(Lower(s), c) == LowerAll(Split(s, c))
  {
    if s != [] {
      LowerSplit(s[1..], c);
      assert Lower(s)[1..] == Lower(s[1..]);
      var rest := Split(s[1..], c);
      if s[0] == c {
        assert LowerAll([[]] + rest) == [[]] + LowerAll(rest);
      } else {
        assert Lower([s[0]] + rest[0]) == [LowerByte(s[0])] + Lower(rest[0]);
        assert LowerAll(rest)[1..] == LowerAll(rest[1..]);
      }
    }
  }

  lemma {:induction false} LowerJoin(parts: seq<Text>, c: byte)
    requires c < 0x41
    ensures Lower(Join(parts, c)) == Join(LowerAll(parts), c)
  {
    if |parts| > 1 {
      LowerJoin(parts[1..], c);
      assert LowerAll(parts)[1..] == LowerAll(parts[1..]);
    }
  }
}
