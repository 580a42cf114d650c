/** `resolve`: the segment stack that collapses repeated separators and applies
    `.` and `..`, clamped at the root. */
module Path {
  import opened Prelude
  import opened TextOps

  const ONE_DOT: Text := [DOT]
  const TWO_DOTS: Text := [DOT, DOT]

  predicate Ordinary(seg: Text) { seg != [] && seg != ONE_DOT && seg != TWO_DOTS }

  /** What one segment does to the stack. */
  function Push(stack: seq<Text>, seg: Text): seq<Text> {
    if seg == [] || seg == ONE_DOT then stack
    else if seg == TWO_DOTS then (if stack == [] then [] else stack[..|stack| - 1])
    else stack + [seg]
  }

  function Walk(stack: seq<Text>, segs: seq<Text>): seq<Text>
    decreases |segs|
  {
    if segs == [] then stack else Walk(Push(stack, segs[0]), segs[1..])
  }

  predicate KeepsSlash(path: Text) {
    EndsWith(path, [SLASH]) || EndsWith(path, [SLASH, DOT]) || EndsWith(path, [SLASH, DOT, DOT])
  }

  function Resolved(path: Text): (out: Text)
    ensures StartsWith(out, [SLASH])
  {
    var segments := Walk([], Split(path, SLASH));
    [SLASH] + Join(segments, SLASH)
      + if segments != [] && KeepsSlash(path) then [SLASH] else []
  }

  method Resolve(path: Text) returns (out: Text)
    ensures out == Resolved(path)
  {
    var segments: seq<Text> := [];
    var parts := Split(path, SLASH);
    var i := 0;
    while i < |parts|
      invariant 0 <= i <= |parts|
      invariant Walk([], parts) == Walk(segments, parts[i..])
    {
      var seg := parts[i];
      assert parts[i..][0] == seg && parts[i..][1..] == parts[i + 1..];
      if seg == [] || seg == ONE_DOT {
      } else if seg == TWO_DOTS {
        if segments != [] { segments := segments[..|segments| - 1]; }
      } else {
        segments := segments + [seg];
      }
      i := i + 1;
    }
    out := [SLASH] + Join(segments, SLASH);
    if segments != [] && KeepsSlash(path) {
      out := out + [SLASH];
    }
  }

  // --- The stack ---

  lemma {:induction false} WalkConcat(stack: seq<Text>, a: seq<Text>, b: seq<Text>)
    ensures Walk(stack, a + b) == Walk(Walk(stack, a), b)
    decreases |a|
  {
    if a == [] {
      assert a + b == b;
    } else {
      assert (a + b)[1..] == a[1..] + b;
      WalkConcat(Push(stack, a[0]), a[1..], b);
    }
  }

  ghost predicate AllOrdinary(parts: seq<Text>) {
    forall p :: p in parts ==> Ordinary(p)
  }

  /** Only ordinary segments of the input are ever on the stack. */
  lemma {:induction false} WalkKeeps(stack: seq<Text>, segs: seq<Text>)
    requires AllOrdinary(stack)
    ensures AllOrdinary(Walk(stack, segs))
    ensures forall p :: p in Walk(stack, segs) ==> p in stack || p in segs
    decreases |segs|
  {
    if segs != [] {
      var next := Push(stack, segs[0]);
      assert forall p :: p in next ==> p in stack || p == segs[0];
      WalkKeeps(next, segs[1..]);
    }
  }

  lemma {:induction false} WalkOrdinary(stack: seq<Text>, segs: seq<Text>)
    requires AllOrdinary(segs)
    ensures Walk(stack, segs) == stack + segs
    decreases |segs|
  {
    if segs != [] {
      assert segs[0] in segs;
      WalkOrdinary(stack + [segs[0]], segs[1..]);
      assert stack + [segs[0]] + segs[1..] == stack + segs;
    } else {
      assert stack + segs == stack;
    }
  }

  lemma {:induction false} WalkLower(stack: seq<Text>, segs: seq<Text>)
    ensures Walk(LowerAll(stack), LowerAll(segs)) == LowerAll(Walk(stack, segs))
    decreases |segs|
  {
    if segs != [] {
      var seg := segs[0];
      DotsLower(seg);
      assert Push(LowerAll(stack), Lower(seg)) == LowerAll(Push(stack, seg));
      assert LowerAll(segs)[1..] == LowerAll(segs[1..]);
      WalkLower(Push(stack, seg), segs[1..]);
    }
  }

  // --- The result, from the last segment ---

  /** The result, said through the segments alone: the stack they leave, and a
      trailing slash when the last of them is no ordinary segment. */
  function Rendered(stack: seq<Text>, last: Text): Text {
    [SLASH] + Join(stack, SLASH) + if stack != [] && !Ordinary(last) then [SLASH] else []
  }

  function Last(parts: seq<Text>): Text
    requires parts != []
  {
    parts[|parts| - 1]
  }

  /** The last segment decides the trailing slash. */
  lemma {:induction false} EndsAtSegment(path: Text, tail: Text)
    requires SLASH !in tail
    ensures EndsWith(path, [SLASH] + tail) <==>
      |Split(path, SLASH)| > 1 && Last(Split(path, SLASH)) == tail
  {
    var parts := Split(path, SLASH);
    JoinSplit(path, SLASH);
    SplitPieces(path, SLASH);
    if |parts| > 1 {
      var front := parts[..|parts| - 1];
      assert parts == front + [Last(parts)];
      JoinConcat(front, [Last(parts)], SLASH);
      if Last(parts) == tail {
        assert path == Join(front, SLASH) + ([SLASH] + tail);
      }
    }
    if EndsWith(path, [SLASH] + tail) {
      var head := path[..|path| - |tail| - 1];
      assert path[|head|..] == [SLASH] + tail;
      assert path == head + [SLASH] + tail;
      SplitAround(head, SLASH, tail);
      SplitAtom(tail, SLASH);
    }
  }

  lemma ResolvedRendered(path: Text)
    ensures Resolved(path) == Rendered(Walk([], Split(path, SLASH)), Last(Split(path, SLASH)))
  {
    var parts := Split(path, SLASH);
    EndsAtSegment(path, []);
    EndsAtSegment(path, ONE_DOT);
    EndsAtSegment(path, TWO_DOTS);
    assert [SLASH] + [] == [SLASH];
    assert [SLASH] + ONE_DOT == [SLASH, DOT];
    assert [SLASH] + TWO_DOTS == [SLASH, DOT, DOT];
    if |parts| == 1 && !Ordinary(parts[0]) {
      assert Walk([], parts) == [];
    }
  }

  lemma DotsLower(seg: Text)
    ensures Lower(seg) == ONE_DOT <==> seg == ONE_DOT
    ensures Lower(seg) == TWO_DOTS <==> seg == TWO_DOTS
    ensures Ordinary(Lower(seg)) <==> Ordinary(seg)
  {
    if |seg| == 1 { assert Lower(seg)[0] == LowerByte(seg[0]); }
    if |seg| == 2 { assert Lower(seg)[0] == LowerByte(seg[0]) && Lower(seg)[1] == LowerByte(seg[1]); }
  }

  lemma RenderedLower(stack: seq<Text>, last: Text)
    ensures Rendered(LowerAll(stack), Lower(last)) == Lower(Rendered(stack, last))
  {
    LowerJoin(stack, SLASH);
    DotsLower(last);
    var tail := if stack != [] && !Ordinary(last) then [SLASH] else [];
    LowerConcat([SLASH] + Join(stack, SLASH), tail);
    LowerConcat([SLASH], Join(stack, SLASH));
  }

  lemma ResolvedLower(path: Text)
    ensures Resolved(Lower(path)) == Lower(Resolved(path))
  {
    var parts := Split(path, SLASH);
    LowerSplit(path, SLASH);
    ResolvedRendered(path);
    ResolvedRendered(Lower(path));
    RenderedWalkLower(parts);
  }

  lemma RenderedWalkLower(parts: seq<Text>)
    requires parts != []
    ensures Rendered(Walk([], LowerAll(parts)), Last(LowerAll(parts))) == Lower(Rendered(Walk([], parts), Last(parts)))
  {
    assert LowerAll([]) == [];
    WalkLower([], parts);
    RenderedLower(Walk([], parts), Last(parts));
  }

  // --- Canonical paths ---

  ghost predicate NoSlashesMeet(s: Text) {
    forall i {:trigger s[i]} :: 0 <= i < |s| - 1 ==> !(s[i] == SLASH && s[i + 1] == SLASH)
  }

  /** Leading slash, no empty segment inside, no dot segment. */
  ghost predicate Canonical(s: Text) {
    && StartsWith(s, [SLASH])
    && NoSlashesMeet(s)
    && ONE_DOT !in Split(s, SLASH)
    && TWO_DOTS !in Split(s, SLASH)
  }

  /** Every segment with a slash in front of it. */
  function Slashed(segs: seq<Text>): Text {
    if segs == [] then [] else [SLASH] + segs[0] + Slashed(segs[1..])
  }

  lemma {:induction false} SlashedJoin(segs: seq<Text>)
    requires segs != []
    ensures Slashed(segs) == [SLASH] + Join(segs, SLASH)
  {
    if |segs| == 1 {
      assert Slashed(segs[1..]) == [];
    } else {
      SlashedJoin(segs[1..]);
    }
  }

  lemma {:induction false} SlashedConcat(a: seq<Text>, b: seq<Text>)
    ensures Slashed(a + b) == Slashed(a) + Slashed(b)
  {
    if a == [] {
      assert a + b == b;
    } else {
      assert (a + b)[1..] == a[1..] + b;
      SlashedConcat(a[1..], b);
    }
  }

  /** An absolute path is its segments, slashed. */
  lemma AbsoluteSegments(path: Text) returns (segs: seq<Text>)
    requires StartsWith(path, [SLASH])
    ensures segs != [] && Atoms(segs, SLASH)
    ensures Split(path, SLASH) == [[]] + segs
    ensures path == Slashed(segs)
  {
    var rest := path[1..];
    assert path == [] + [SLASH] + rest;
    SplitAround([], SLASH, rest);
    segs := Split(rest, SLASH);
    SplitPieces(rest, SLASH);
    JoinSplit(rest, SLASH);
    SlashedJoin(segs);
  }

  lemma SlashedSplit(segs: seq<Text>)
    requires segs != [] && Atoms(segs, SLASH)
    ensures Split(Slashed(segs), SLASH) == [[]] + segs
  {
    SlashedJoin(segs);
    SplitAround([], SLASH, Join(segs, SLASH));
    SplitJoin(segs, SLASH);
    assert [] + [SLASH] + Join(segs, SLASH) == [SLASH] + Join(segs, SLASH);
  }

  /** The segments a path resolves to: the stack, and an empty last segment
      where a trailing slash is kept or where nothing is left. */
  function FinalSegments(stack: seq<Text>, last: Text): (r: seq<Text>)
    ensures r != []
  {
    if stack != [] && Ordinary(last) then stack else stack + [[]]
  }

  /** The result is the slashed final segments. */
  lemma RenderedSlashed(stack: seq<Text>, last: Text)
    ensures Rendered(stack, last) == Slashed(FinalSegments(stack, last))
  {
    assert Slashed([[]]) == [SLASH];
    SlashedConcat(stack, [[]]);
    if stack != [] {
      SlashedJoin(stack);
    } else {
      assert stack + [[]] == [[]];
    }
  }

  lemma ResolvedSlashed(path: Text)
    ensures Resolved(path) == Slashed(FinalSegments(Walk([], Split(path, SLASH)), Last(Split(path, SLASH))))
    ensures AllOrdinary(Walk([], Split(path, SLASH)))
    ensures Atoms(Walk([], Split(path, SLASH)), SLASH)
  {
    var parts := Split(path, SLASH);
    ResolvedRendered(path);
    RenderedSlashed(Walk([], parts), Last(parts));
    WalkKeeps([], parts);
    SplitPieces(path, SLASH);
  }

  /** A leading empty segment changes nothing. */
  lemma WalkAbsolute(segs: seq<Text>)
    requires segs != []
    ensures Walk([], [[]] + segs) == Walk([], segs)
    ensures Last([[]] + segs) == Last(segs)
  {
    assert ([[]] + segs)[1..] == segs;
  }

  /** No two slashes meet exactly when only the last segment may be empty. */
  lemma {:induction false} NoDoubleSlash(segs: seq<Text>)
    requires Atoms(segs, SLASH)
    ensures NoSlashesMeet(Slashed(segs))
       <==> (forall k :: 0 <= k < |segs| - 1 ==> segs[k] != [])
  {
    if segs != [] {
      var s, t, n := Slashed(segs), Slashed(segs[1..]), |segs[0]|;
      assert s == [SLASH] + segs[0] + t;
      assert forall i :: 0 <= i < |t| ==> t[i] == s[i + n + 1];
      assert forall i :: 1 <= i <= n ==> s[i] == segs[0][i - 1];
      NoDoubleSlash(segs[1..]);
      assert forall k :: 1 <= k < |segs| ==> segs[k] == segs[1..][k - 1];
      assert forall k :: 0 <= k < |segs| - 1 ==> segs[1..][k] == segs[k + 1];
      if |segs| > 1 && segs[0] == [] {
        assert s[0] == SLASH && s[1] == SLASH;
      }
      if forall k :: 0 <= k < |segs| - 1 ==> segs[k] != [] {
        forall i | 0 <= i < |s| - 1 ensures !(s[i] == SLASH && s[i + 1] == SLASH) {
          if i == 0 {
            assert n > 0;
            assert s[1] == segs[0][0] && segs[0] in segs;
          } else if i <= n {
            assert s[i] == segs[0][i - 1] && segs[0] in segs;
          } else {
            assert s[i] == t[i - n - 1] && s[i + 1] == t[i - n];
          }
        }
      }
      if NoSlashesMeet(s) {
        forall i {:trigger t[i]} | 0 <= i < |t| - 1 ensures !(t[i] == SLASH && t[i + 1] == SLASH) {
          assert t[i] == s[i + n + 1] && t[i + 1] == s[i + 1 + n + 1];
        }
      }
    }
  }

  /** `resolve` leaves nothing to resolve, whatever it was given. */
  lemma ResolvedCanonical(path: Text)
    ensures Canonical(Resolved(path))
  {
    ResolvedSlashed(path);
    var stack, last := Walk([], Split(path, SLASH)), Last(Split(path, SLASH));
    var segs := FinalSegments(stack, last);
    assert forall p :: p in segs ==> p in stack || p == [];
    assert forall k :: 0 <= k < |segs| - 1 ==> segs[k] in stack;
    SlashedSplit(segs);
    NoDoubleSlash(segs);
  }

  /** Segments that are ordinary but for an empty last one walk to themselves. */
  lemma WalkProper(segs: seq<Text>)
    requires segs != []
    requires ONE_DOT !in segs && TWO_DOTS !in segs
    requires forall k :: 0 <= k < |segs| - 1 ==> segs[k] != []
    ensures FinalSegments(Walk([], segs), Last(segs)) == segs
  {
    var front, last := segs[..|segs| - 1], Last(segs);
    assert segs == front + [last];
    ProperFront(segs);
    WalkConcat([], front, [last]);
    WalkOrdinary([], front);
    WalkOne(front, last);
    assert [] + front == front;
    assert last in segs;
  }

  lemma ProperFront(segs: seq<Text>)
    requires segs != []
    requires ONE_DOT !in segs && TWO_DOTS !in segs
    requires forall k :: 0 <= k < |segs| - 1 ==> segs[k] != []
    ensures AllOrdinary(segs[..|segs| - 1])
  {
    var front := segs[..|segs| - 1];
    forall p | p in front ensures Ordinary(p) {
      var k :| 0 <= k < |front| && front[k] == p;
      assert segs[k] == p && p in segs;
    }
  }

  lemma WalkOne(stack: seq<Text>, seg: Text)
    ensures Walk(stack, [seg]) == Push(stack, seg)
  {
    assert [seg][1..] == [];
  }

  /** Canonical paths are exactly the fixed points. */
  lemma CanonicalFixed(s: Text)
    ensures Canonical(s) <==> Resolved(s) == s
  {
    if Canonical(s) {
      var segs := AbsoluteSegments(s);
      NoDoubleSlash(segs);
      assert forall p :: p in segs ==> p in Split(s, SLASH);
      WalkProper(segs);
      WalkAbsolute(segs);
      ResolvedSlashed(s);
    } else if Resolved(s) == s {
      ResolvedCanonical(s);
    }
  }

  lemma ResolvedIdempotent(path: Text)
    ensures Resolved(Resolved(path)) == Resolved(path)
  {
    ResolvedCanonical(path);
    CanonicalFixed(Resolved(path));
  }
}

/** The reference `resolve` is held against: remove_dot_segments, section 5.2.4
    of RFC 3986, step by step on its two buffers. */
module DotSegments {
  import opened Prelude
  import opened TextOps
  import opened Path

  /** Step 2C: the last segment of the output and the slash before it, if any. */
  function DropLastSegment(output: Text): Text {
    if output == [] then []
    else if output[|output| - 1] == SLASH then output[..|output| - 1]
    else DropLastSegment(output[..|output| - 1])
  }

  /** Step 2E: the first segment, with its leading slash and up to the next. */
  function FirstSegment(input: Text): (r: Text)
    requires input != []
    ensures 0 < |r| <= |input| && r == input[..|r|]
  {
    [input[0]] + Before(input[1..], SLASH)
  }

  function Removed(input: Text, output: Text): Text
    decreases |input|
  {
    if input == [] then output
    else if StartsWith(input, [DOT, DOT, SLASH]) then Removed(input[3..], output)
    else if StartsWith(input, [DOT, SLASH]) then Removed(input[2..], output)
    else if StartsWith(input, [SLASH, DOT, SLASH]) then Removed([SLASH] + input[3..], output)
    else if input == [SLASH, DOT] then Removed([SLASH], output)
    else if StartsWith(input, [SLASH, DOT, DOT, SLASH]) then
      Removed([SLASH] + input[4..], DropLastSegment(output))
    else if input == [SLASH, DOT, DOT] then Removed([SLASH], DropLastSegment(output))
    else if input == [DOT] || input == [DOT, DOT] then output
    else
      var first := FirstSegment(input);
      Removed(input[|first|..], output + first)
  }

  function RemoveDotSegments(path: Text): Text { Removed(path, []) }

  function CollapseSlashes(s: Text): Text {
    if |s| < 2 then s
    else if s[0] == SLASH && s[1] == SLASH then CollapseSlashes(s[1..])
    else [s[0]] + CollapseSlashes(s[1..])
  }

  lemma {:induction false} DropLastAtom(out: Text, seg: Text)
    requires SLASH !in seg
    ensures DropLastSegment(out + [SLASH] + seg) == out
    decreases |seg|
  {
    var s := out + [SLASH] + seg;
    if seg == [] {
      assert s[..|s| - 1] == out;
    } else {
      assert s[|s| - 1] == seg[|seg| - 1];
      assert s[..|s| - 1] == out + [SLASH] + seg[..|seg| - 1];
      DropLastAtom(out, seg[..|seg| - 1]);
    }
  }

  lemma DropLastSlashed(stack: seq<Text>)
    requires Atoms(stack, SLASH)
    ensures DropLastSegment(Slashed(stack)) == Slashed(Push(stack, TWO_DOTS))
  {
    if stack != [] {
      var front, top := stack[..|stack| - 1], Last(stack);
      assert stack == front + [top];
      SlashedConcat(front, [top]);
      assert Slashed([top]) == [SLASH] + top + [];
      assert Slashed(stack) == Slashed(front) + [SLASH] + top;
      DropLastAtom(Slashed(front), top);
    }
  }

  /** A segment is a dot segment as soon as the input spells one. */
  lemma DotsSpelled(seg: Text, tail: Text)
    requires SLASH !in seg && (tail == [] || tail[0] == SLASH)
    ensures var input := [SLASH] + seg + tail;
      && (StartsWith(input, [SLASH, DOT, SLASH]) || input == [SLASH, DOT] ==> seg == [DOT])
      && (StartsWith(input, [SLASH, DOT, DOT, SLASH]) || input == [SLASH, DOT, DOT] ==> seg == [DOT, DOT])
  {
    OneDotSpelled(seg, tail);
    TwoDotsSpelled(seg, tail);
  }

  lemma OneDotSpelled(seg: Text, tail: Text)
    requires SLASH !in seg && (tail == [] || tail[0] == SLASH)
    ensures var input := [SLASH] + seg + tail;
      StartsWith(input, [SLASH, DOT, SLASH]) || input == [SLASH, DOT] ==> seg == [DOT]
  {
    var input := [SLASH] + seg + tail;
    assert forall i :: 0 <= i < |seg| ==> input[i + 1] == seg[i] && seg[i] in seg;
    assert forall i :: 0 <= i < |tail| ==> input[|seg| + 1 + i] == tail[i];
    if StartsWith(input, [SLASH, DOT, SLASH]) { assert input[1] == DOT && input[2] == SLASH; }
  }

  lemma TwoDotsSpelled(seg: Text, tail: Text)
    requires SLASH !in seg && (tail == [] || tail[0] == SLASH)
    ensures var input := [SLASH] + seg + tail;
      StartsWith(input, [SLASH, DOT, DOT, SLASH]) || input == [SLASH, DOT, DOT] ==> seg == [DOT, DOT]
  {
    var input := [SLASH] + seg + tail;
    assert forall i :: 0 <= i < |seg| ==> input[i + 1] == seg[i] && seg[i] in seg;
    assert forall i :: 0 <= i < |tail| ==> input[|seg| + 1 + i] == tail[i];
    if StartsWith(input, [SLASH, DOT, DOT, SLASH]) {
      assert input[1] == DOT && input[2] == DOT && input[3] == SLASH;
    }
  }

  /** Steps 2B and 2C, as far as the input is concerned. */
  lemma DotStep(seg: Text, tail: Text, output: Text)
    requires seg == ONE_DOT || seg == TWO_DOTS
    requires tail == [] || tail[0] == SLASH
    ensures Removed([SLASH] + seg + tail, output)
         == Removed(if tail == [] then [SLASH] else tail, if seg == ONE_DOT then output else DropLastSegment(output))
  {
    var input := [SLASH] + seg + tail;
    assert input[0] == SLASH;
    assert !StartsWith(input, [DOT, DOT, SLASH]) && !StartsWith(input, [DOT, SLASH]);
    assert forall i :: 0 <= i < |tail| ==> input[|seg| + 1 + i] == tail[i];
    if seg == ONE_DOT {
      if tail == [] {
        assert input == [SLASH, DOT];
        assert !StartsWith(input, [SLASH, DOT, SLASH]);
      } else {
        assert input[..3] == [SLASH, DOT, SLASH];
        assert [SLASH] + input[3..] == tail;
      }
    } else {
      assert input[2] == DOT;
      assert !StartsWith(input, [SLASH, DOT, SLASH]) && input != [SLASH, DOT];
      if tail == [] {
        assert input == [SLASH, DOT, DOT];
        assert !StartsWith(input, [SLASH, DOT, DOT, SLASH]);
      } else {
        assert input[..4] == [SLASH, DOT, DOT, SLASH];
        assert [SLASH] + input[4..] == tail;
      }
    }
  }

  lemma RemovedLast(seg: Text, stack: seq<Text>)
    requires SLASH !in seg && Atoms(stack, SLASH)
    ensures Removed([SLASH] + seg, Slashed(stack))
         == Slashed(FinalSegments(Push(stack, seg), seg))
  {
    var next := Push(stack, seg);
    RootRemoved(Slashed(next));
    SlashedConcat(next, [[]]);
    assert Slashed([[]]) == [SLASH];
    assert [SLASH] + seg + [] == [SLASH] + seg;
    if seg == TWO_DOTS || seg == ONE_DOT {
      DropLastSlashed(stack);
      DotStep(seg, [], Slashed(stack));
    } else {
      PlainStep(seg, [], Slashed(stack));
      SlashedConcat(stack, [seg]);
      assert Slashed([seg]) == [SLASH] + seg + [];
      assert Removed([], Slashed(stack) + ([SLASH] + seg)) == Slashed(stack + [seg]);
    }
  }

  /** One pass of the loop of section 5.2.4 is one segment of the walk. */
  lemma {:induction false} RemovedWalk(segs: seq<Text>, stack: seq<Text>)
    requires segs != [] && Atoms(segs, SLASH) && Atoms(stack, SLASH)
    requires forall k :: 0 <= k < |segs| - 1 ==> segs[k] != []
    ensures Removed(Slashed(segs), Slashed(stack))
         == Slashed(FinalSegments(Walk(stack, segs), Last(segs)))
    decreases |segs|
  {
    var seg, rest := segs[0], segs[1..];
    var input, next := Slashed(segs), Push(stack, seg);
    assert input == [SLASH] + seg + Slashed(rest);
    assert seg in segs && Atoms(next, SLASH);
    assert forall k :: 0 <= k < |rest| ==> rest[k] == segs[k + 1];
    if rest == [] {
      assert input == [SLASH] + seg;
      RemovedLast(seg, stack);
      assert Walk(stack, segs) == next;
    } else {
      assert Slashed(rest) == [SLASH] + Slashed(rest)[1..];
      if seg == TWO_DOTS || seg == ONE_DOT {
        DropLastSlashed(stack);
        DotStep(seg, Slashed(rest), Slashed(stack));
      } else {
        PlainStep(seg, Slashed(rest), Slashed(stack));
        SlashedConcat(stack, [seg]);
        assert Slashed([seg]) == [SLASH] + seg;
        assert next == stack + [seg];
      }
      assert Removed(input, Slashed(stack)) == Removed(Slashed(rest), Slashed(next));
      assert Last(rest) == Last(segs);
      RemovedWalk(rest, next);
    }
  }

  lemma RootRemoved(output: Text)
    ensures Removed([SLASH], output) == output + [SLASH]
  {
    assert FirstSegment([SLASH]) == [SLASH];
    assert [SLASH][1..] == [];
  }

  /** Step 2E on an ordinary (or empty last) segment. */
  lemma PlainStep(seg: Text, tail: Text, output: Text)
    requires SLASH !in seg && seg != ONE_DOT && seg != TWO_DOTS
    requires tail == [] || tail[0] == SLASH
    ensures Removed([SLASH] + seg + tail, output) == Removed(tail, output + ([SLASH] + seg))
  {
    var input := [SLASH] + seg + tail;
    assert input[1..] == seg + tail;
    BeforeCut(seg, SLASH, tail);
    assert FirstSegment(input) == [SLASH] + seg;
    assert input[|seg| + 1..] == tail;
    DotsSpelled(seg, tail);
    StepE(input, output);
  }

  /** Step 2E, on its own conditions. */
  lemma StepE(input: Text, output: Text)
    requires input != [] && input[0] == SLASH
    requires !StartsWith(input, [SLASH, DOT, SLASH]) && input != [SLASH, DOT]
    requires !StartsWith(input, [SLASH, DOT, DOT, SLASH]) && input != [SLASH, DOT, DOT]
    ensures Removed(input, output) == Removed(input[|FirstSegment(input)|..], output + FirstSegment(input))
  {
    assert !StartsWith(input, [DOT, DOT, SLASH]) && !StartsWith(input, [DOT, SLASH]);
  }

  /** Segments with the empty ones before the last taken out. */
  function Squeezed(segs: seq<Text>): (r: seq<Text>)
    ensures segs != [] ==> r != [] && Last(r) == Last(segs)
    ensures forall k :: 0 <= k < |r| - 1 ==> r[k] != []
    ensures forall p :: p in r ==> p in segs
  {
    if |segs| <= 1 then segs
    else if segs[0] == [] then Squeezed(segs[1..])
    else [segs[0]] + Squeezed(segs[1..])
  }

  lemma {:induction false} WalkSqueezed(stack: seq<Text>, segs: seq<Text>)
    ensures Walk(stack, Squeezed(segs)) == Walk(stack, segs)
    decreases |segs|
  {
    if |segs| > 1 {
      WalkSqueezed(Push(stack, segs[0]), segs[1..]);
      assert ([segs[0]] + Squeezed(segs[1..]))[1..] == Squeezed(segs[1..]);
    }
  }

  lemma CollapseHead(b: byte, s: Text)
    requires b == SLASH && s != [] ==> s[0] != SLASH
    ensures CollapseSlashes([b] + s) == [b] + CollapseSlashes(s)
  {
    assert ([b] + s)[1..] == s;
  }

  lemma {:induction false} CollapseAtom(seg: Text, tail: Text)
    requires SLASH !in seg
    requires tail == [] || tail[0] == SLASH
    ensures CollapseSlashes(seg + tail) == seg + CollapseSlashes(tail)
    decreases |seg|
  {
    if seg == [] {
      assert seg + tail == tail;
    } else {
      CollapseAtom(seg[1..], tail);
      assert seg[0] in seg;
      CollapseHead(seg[0], seg[1..] + tail);
      assert [seg[0]] + (seg[1..] + tail) == seg + tail;
      assert [seg[0]] + (seg[1..] + CollapseSlashes(tail)) == seg + CollapseSlashes(tail);
    }
  }

  lemma Regroup(a: Text, b: Text, c: Text)
    ensures a + b + c == a + (b + c)
  {}

  lemma CollapseSegment(seg: Text, tail: Text)
    requires SLASH !in seg
    requires tail == [] || tail[0] == SLASH
    requires seg != [] || tail == []
    ensures CollapseSlashes([SLASH] + seg + tail) == [SLASH] + seg + CollapseSlashes(tail)
  {
    var body := seg + tail;
    assert body != [] ==> body[0] != SLASH by {
      if seg != [] { assert body[0] == seg[0] && seg[0] in seg; }
    }
    CollapseAtom(seg, tail);
    CollapseHead(SLASH, body);
    Regroup([SLASH], seg, tail);
    Regroup([SLASH], seg, CollapseSlashes(tail));
  }

  lemma {:induction false} CollapseSlashed(segs: seq<Text>)
    requires Atoms(segs, SLASH)
    ensures CollapseSlashes(Slashed(segs)) == Slashed(Squeezed(segs))
  {
    if segs != [] {
      var seg, rest := segs[0], segs[1..];
      CollapseSlashed(rest);
      if seg != [] || rest == [] { CollapseSegment(seg, Slashed(rest)); }
      assert Slashed(segs) == [SLASH] + seg + Slashed(rest);
      if rest == [] {
        assert Squeezed(segs) == segs;
      } else if seg == [] {
        assert Slashed(segs)[1..] == Slashed(rest);
      } else {
        assert ([seg] + Squeezed(rest))[1..] == Squeezed(rest);
      }
    }
  }

  /** On an absolute path, `resolve` is remove_dot_segments after repeated
      slashes have been collapsed. */
  lemma ResolvedIsRemoveDotSegments(path: Text)
    requires StartsWith(path, [SLASH])
    ensures Resolved(path) == RemoveDotSegments(CollapseSlashes(path))
  {
    var segs := AbsoluteSegments(path);
    CollapseSlashed(segs);
    WalkSqueezed([], segs);
    WalkAbsolute(segs);
    ResolvedSlashed(path);
    assert Slashed([]) == [];
    RemovedWalk(Squeezed(segs), []);
  }
}
