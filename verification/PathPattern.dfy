/** What the management plane stores as a `path_pattern`. A pattern that changes
    under normalisation could never equal a request path, and a deny rule on it
    would never fire. */
module PathPattern {
  import opened Prelude
  import opened TextOps
  import Utf8
  import opened Percent
  import opened Path
  import opened Policy
  import opened PolicyLaws
  import opened Rewrites

  datatype Refusal =
    | WholeApplication
    | SubtreeOnly(base: Text)
    | StarInside
    | WriteAs(seen: Text)
    | NotAPath

  const SUBTREE: Text := [SLASH, STAR]

  /** `trim_end_matches(['*', '/'])`. */
  function TrimEndStarsAndSlashes(s: Text): Text {
    if s != [] && (s[|s| - 1] == STAR || s[|s| - 1] == SLASH) then TrimEndStarsAndSlashes(s[..|s| - 1]) else s
  }

  function ValidatePathPattern(raw: Text): Result<(), Refusal> {
    if raw == [] then Ok(())
    else if !EndsWith(raw, SUBTREE) then
      var base := TrimEndStarsAndSlashes(raw);
      Err(if base == [] then WholeApplication else SubtreeOnly(base))
    else
      var probe := raw[..|raw| - 1];
      if STAR in probe then Err(StarInside)
      else
        match Normalised(probe)
        case Ok(seen) => if seen == probe then Ok(()) else Err(WriteAs(seen))
        case Err(_) => Err(NotAPath)
  }

  /** What every normalised path is. */
  ghost predicate NormalForm(p: Text) {
    Canonical(p) && Lower(p) == p && Acceptable(p) && BACKSLASH !in p
  }

  /** Text that normalisation leaves as it is. */
  ghost predicate AsMatched(p: Text) { NormalForm(p) && QUESTION !in p && HASH !in p }

  /** The fixed points of `normalise`, said without running it. */
  lemma FixedExactly(p: Text)
    ensures Normalised(p) == Ok(p) <==> AsMatched(p)
  {
    if Normalised(p) == Ok(p) {
      NormalisedShape(p);
      NormaliseIdempotent(p);
    }
    if AsMatched(p) {
      BeforeAbsent(p, QUESTION);
      DecodedPlain(p);
      FoldPlain(p);
      CanonicalFixed(p);
    }
  }

  lemma AcceptedSubtreeForm(s: Text)
    ensures ValidatePathPattern(s + SUBTREE).Ok? <==> STAR !in s && AsMatched(s + [SLASH])
  {
    var raw, probe := s + SUBTREE, s + [SLASH];
    assert raw[|raw| - 2..] == SUBTREE;
    assert raw[..|raw| - 1] == probe;
    assert STAR in probe <==> STAR in s;
    FixedExactly(probe);
  }

  /** Accepted: empty, or `S/` and one star after it, with no other star, where
      `S/` is already in the form requests are matched in. */
  lemma AcceptedExactly(raw: Text)
    ensures ValidatePathPattern(raw).Ok? <==>
      raw == [] || exists s :: raw == s + SUBTREE && STAR !in s && AsMatched(s + [SLASH])
  {
    if ValidatePathPattern(raw).Ok? && raw != [] {
      var s := raw[..|raw| - 2];
      assert raw == s + SUBTREE;
      AcceptedSubtreeForm(s);
    }
    forall s | raw == s + SUBTREE && STAR !in s && AsMatched(s + [SLASH])
      ensures ValidatePathPattern(raw).Ok?
    {
      AcceptedSubtreeForm(s);
    }
  }

  lemma NoSlashBeforeSlash(s: Text)
    requires NoSlashesMeet(s + [SLASH])
    ensures s == [] || s[|s| - 1] != SLASH
  {
    var p := s + [SLASH];
    if s != [] { assert p[|s| - 1] == s[|s| - 1] && p[|s|] == SLASH; }
  }

  lemma TrimEndOne(s: Text, c: byte)
    requires s == [] || s[|s| - 1] != c
    ensures TrimEnd(s, c) == s && TrimEnd(s + [c], c) == s
  {
    assert (s + [c])[..|s|] == s;
  }

  /** The base of an accepted pattern, subtree marker aside, is compared as written. */
  lemma AcceptedBase(s: Text)
    requires STAR !in s && AsMatched(s + [SLASH])
    ensures Base(s + SUBTREE) == s
  {
    var probe := s + [SLASH];
    assert s + SUBTREE == probe + [STAR];
    TrimEndOne(probe, STAR);
    CanonicalFixed(probe);
    NoSlashBeforeSlash(s);
    TrimEndOne(s, SLASH);
  }

  /** An accepted pattern matches the subtree it names and nothing else. */
  lemma AcceptedSubtree(s: Text, path: Text)
    requires STAR !in s && AsMatched(s + [SLASH]) && StartsWith(path, [SLASH])
    ensures Matches(s + SUBTREE, path) <==> path == s || StartsWith(path, s + [SLASH])
  {
    AcceptedBase(s);
    MatchesSegments(s + SUBTREE, path);
    SplitPrefix(s, path, SLASH);
  }

  // --- Refused patterns ---

  ghost predicate StarsAndSlashes(s: Text) { forall i :: 0 <= i < |s| ==> s[i] == STAR || s[i] == SLASH }

  lemma TailOneMore(s: Text, n: nat)
    requires n < |s| && StarsAndSlashes(s[..|s| - 1][n..]) && (s[|s| - 1] == STAR || s[|s| - 1] == SLASH)
    ensures StarsAndSlashes(s[n..])
  {
    var front, tail := s[..|s| - 1][n..], s[n..];
    assert forall i :: 0 <= i < |front| ==> tail[i] == front[i];
  }

  lemma {:induction false} TrimmedTail(s: Text)
    ensures var base := TrimEndStarsAndSlashes(s);
      && base <= s && StarsAndSlashes(s[|base|..])
      && (base != [] ==> base[|base| - 1] != STAR && base[|base| - 1] != SLASH)
  {
    if s != [] && (s[|s| - 1] == STAR || s[|s| - 1] == SLASH) {
      var front := s[..|s| - 1];
      TrimmedTail(front);
      TailOneMore(s, |TrimEndStarsAndSlashes(front)|);
    }
  }

  /** Where the stars and slashes at the end begin. */
  lemma TrimmedExactly(base: Text, tail: Text)
    requires StarsAndSlashes(tail)
    requires base == [] || (base[|base| - 1] != STAR && base[|base| - 1] != SLASH)
    ensures TrimEndStarsAndSlashes(base + tail) == base
    decreases |tail|
  {
    if tail == [] {
      assert base + tail == base;
    } else {
      assert (base + tail)[..|base + tail| - 1] == base + tail[..|tail| - 1];
      TrimmedExactly(base, tail[..|tail| - 1]);
    }
  }

  /** Which refusal, exactly, for a pattern without a slash and a star at its end:
      any such pattern is a base and the stars and slashes behind it, and the
      refusal names the base, or the whole application where there is none. */
  lemma RefusedWithoutMarker(base: Text, tail: Text)
    requires StarsAndSlashes(tail) && base + tail != [] && !EndsWith(base + tail, SUBTREE)
    requires base == [] || (base[|base| - 1] != STAR && base[|base| - 1] != SLASH)
    ensures ValidatePathPattern(base + tail) == Err(if base == [] then WholeApplication else SubtreeOnly(base))
  {
    TrimmedExactly(base, tail);
  }

  /** And with them: a further star comes first, then a path that does not
      normalise, then one that normalises to something else, which is named. */
  lemma RefusedWithMarker(s: Text)
    ensures ValidatePathPattern(s + SUBTREE) == Err(StarInside) <==> STAR in s
    ensures ValidatePathPattern(s + SUBTREE) == Err(NotAPath) <==> STAR !in s && Normalised(s + [SLASH]).Err?
    ensures forall seen :: ValidatePathPattern(s + SUBTREE) == Err(WriteAs(seen)) <==>
      STAR !in s && Normalised(s + [SLASH]) == Ok(seen) && seen != s + [SLASH]
  {
    var raw, probe := s + SUBTREE, s + [SLASH];
    assert raw[|raw| - 2..] == SUBTREE;
    assert raw[..|raw| - 1] == probe;
    assert STAR in probe <==> STAR in s;
  }

  lemma KeptSlash(path: Text)
    requires EndsWith(path, [SLASH])
    ensures EndsWith(Lower(Resolved(path)), [SLASH])
  {
    var r := Resolved(path);
    assert r[|r| - 1] == SLASH;
    assert Lower(r)[|r| - 1..] == [SLASH];
  }

  /** A path written with a slash at its end normalises to one. */
  lemma NormalisedKeepsSlash(s: Text)
    requires Normalised(s + [SLASH]).Ok? && QUESTION !in s
    ensures EndsWith(Normalised(s + [SLASH]).value, [SLASH])
  {
    var path := s + [SLASH];
    BeforeAbsent(path, QUESTION);
    DecodedAround(s, SLASH, []);
    assert s + [SLASH] + [] == path;
    var d := Decoded(path).value;
    assert d == Decoded(s).value + [SLASH];
    assert Fold(d)[|d| - 1..] == [SLASH];
    KeptSlash(Fold(d));
  }

  /** A star that follows no slash does not mark a subtree. */
  lemma UnmarkedRefused(p: Text)
    requires p != [] && p[|p| - 1] != SLASH
    ensures ValidatePathPattern(p + [STAR]).Err?
  {
    var raw := p + [STAR];
    assert raw[|raw| - 2..][0] == p[|p| - 1];
  }

  lemma MarkedAccepted(seen: Text)
    requires NormalForm(seen) && EndsWith(seen, [SLASH])
    ensures ValidatePathPattern(seen + [STAR]).Ok? <==> STAR !in seen && QUESTION !in seen && HASH !in seen
  {
    var stem := seen[..|seen| - 1];
    assert seen == stem + [SLASH];
    assert seen + [STAR] == stem + SUBTREE;
    AcceptedSubtreeForm(stem);
    assert STAR in stem <==> STAR in seen;
  }

  lemma WithStar(seen: Text)
    requires NormalForm(seen)
    ensures ValidatePathPattern(seen + [STAR]).Ok? <==>
      EndsWith(seen, [SLASH]) && STAR !in seen && QUESTION !in seen && HASH !in seen
  {
    assert seen != [];
    if EndsWith(seen, [SLASH]) {
      MarkedAccepted(seen);
    } else {
      assert seen[|seen| - 1..] == [seen[|seen| - 1]];
      UnmarkedRefused(seen);
    }
  }

  /** What the refusal names, with its star put back, is accepted exactly when it
      ends in a slash, as it does unless the pattern held a `?`, and no escape in
      the pattern stood for a star, a `?` or a `#`. */
  lemma AdviceAccepted(s: Text, seen: Text)
    requires ValidatePathPattern(s + SUBTREE) == Err(WriteAs(seen))
    ensures ValidatePathPattern(seen + [STAR]).Ok? <==>
      EndsWith(seen, [SLASH]) && STAR !in seen && QUESTION !in seen && HASH !in seen
    ensures QUESTION !in s ==> EndsWith(seen, [SLASH])
  {
    RefusedWithMarker(s);
    if QUESTION !in s { NormalisedKeepsSlash(s); }
    NormalisedShape(s + [SLASH]);
    WithStar(seen);
  }

  // --- Any stored pattern, accepted or older than the validator ---

  lemma {:induction false} EndsInSegment(stack: seq<Text>)
    requires AllOrdinary(stack) && Atoms(stack, SLASH)
    ensures Slashed(stack) == [] || Slashed(stack)[|Slashed(stack)| - 1] != SLASH
  {
    if stack != [] {
      var seg, rest := stack[0], Slashed(stack[1..]);
      EndsInSegment(stack[1..]);
      assert seg in stack && seg[|seg| - 1] in seg;
      EndOfConcat([SLASH] + seg, rest);
      EndOfConcat([SLASH], seg);
    }
  }

  lemma EndOfConcat(a: Text, b: Text)
    requires a != []
    ensures (a + b)[|a + b| - 1] == if b == [] then a[|a| - 1] else b[|b| - 1]
  {}

  lemma {:induction false} LowerSlashed(segs: seq<Text>)
    ensures Lower(Slashed(segs)) == Slashed(LowerAll(segs))
  {
    if segs != [] {
      LowerSlashed(segs[1..]);
      LowerConcat([SLASH] + segs[0], Slashed(segs[1..]));
      LowerConcat([SLASH], segs[0]);
      assert LowerAll(segs)[1..] == LowerAll(segs[1..]);
    }
  }

  lemma LowerAllFinal(stack: seq<Text>, last: Text)
    requires AllOrdinary(stack) && Atoms(stack, SLASH)
    ensures AllOrdinary(LowerAll(stack)) && Atoms(LowerAll(stack), SLASH)
    ensures LowerAll(FinalSegments(stack, last)) == FinalSegments(LowerAll(stack), Lower(last))
  {
    DotsLower(last);
    assert Lower([]) == [];
    forall i | 0 <= i < |stack| ensures Ordinary(LowerAll(stack)[i]) && SLASH !in LowerAll(stack)[i] {
      assert stack[i] in stack;
      DotsLower(stack[i]);
      assert forall k :: 0 <= k < |stack[i]| ==> stack[i][k] in stack[i];
    }
  }

  /** A trailing slash off, the stack is left. */
  lemma FinalTrimmed(stack: seq<Text>, last: Text)
    requires AllOrdinary(stack) && Atoms(stack, SLASH)
    ensures TrimEnd(Slashed(FinalSegments(stack, last)), SLASH) == Slashed(stack)
  {
    EndsInSegment(stack);
    TrimEndOne(Slashed(stack), SLASH);
    SlashedConcat(stack, [[]]);
    assert Slashed([[]]) == [SLASH];
  }

  /** The base is the segments the pattern resolves to, in lower case. */
  lemma BaseSegments(pattern: Text)
    ensures var stack := LowerAll(Walk([], Split(TrimEnd(pattern, STAR), SLASH)));
      Base(pattern) == Slashed(stack) && AllOrdinary(stack) && Atoms(stack, SLASH)
  {
    var p := TrimEnd(pattern, STAR);
    var stack, last := Walk([], Split(p, SLASH)), Last(Split(p, SLASH));
    ResolvedSlashed(p);
    LowerSlashed(FinalSegments(stack, last));
    LowerAllFinal(stack, last);
    FinalTrimmed(LowerAll(stack), Lower(last));
  }

  /** Which paths a pattern matches, said from its text: with the stars off its
      end, the segments it resolves to, in lower case, are the first segments of
      the path. */
  lemma MatchesExactly(pattern: Text, path: Text)
    requires StartsWith(path, [SLASH])
    ensures Matches(pattern, path) <==>
      LowerAll(Walk([], Split(TrimEnd(pattern, STAR), SLASH))) <= Split(path, SLASH)[1..]
  {
    var stack := LowerAll(Walk([], Split(TrimEnd(pattern, STAR), SLASH)));
    var segs := AbsoluteSegments(path);
    BaseSegments(pattern);
    MatchesSegments(pattern, path);
    if stack != [] {
      SlashedSplit(stack);
      PrefixBehind(stack, segs);
    } else {
      assert [[]] <= [[]] + segs;
    }
  }

  lemma PrefixBehind(a: seq<Text>, b: seq<Text>)
    ensures [[]] + a <= [[]] + b <==> a <= b
  {
    assert forall i :: 0 <= i < |a| ==> ([[]] + a)[i + 1] == a[i];
    assert forall i :: 0 <= i < |b| ==> ([[]] + b)[i + 1] == b[i];
  }

  /** The empty pattern is the whole application. */
  lemma EmptyMatchesAll(path: Text)
    requires StartsWith(path, [SLASH])
    ensures Matches([], path)
  {
    MatchesExactly([], path);
    WalkOne([], []);
  }

  /** A live whole-application deny closes every well-formed URI. */
  lemma WholeDeny(rules: seq<Rule>, deny: Rule, raw: Text, now: int)
    requires deny in rules && Live(deny, now) && deny.effect == Effect.Deny && deny.pathPattern == []
    ensures Decide(true, rules, raw, now) == Decision.Deny(ExplicitDeny) <==> Normalised(raw).Ok?
  {
    ReadingsExist(raw);
    DeniesExactly(true, rules, raw, now);
    if Normalised(raw).Ok? {
      var first := Readings(raw).value[0];
      NormalisedShape(raw);
      EmptyMatchesAll(first);
      assert first in Readings(raw).value && Fires(rules, Effect.Deny, first, now);
    }
  }

  /** A live whole-application allow, with no live deny beside it, opens every
      well-formed URI. */
  lemma WholeAllow(rules: seq<Rule>, grant: Rule, raw: Text, now: int)
    requires grant in rules && Live(grant, now) && grant.effect == Effect.Allow && grant.pathPattern == []
    requires forall r :: r in rules && Live(r, now) ==> r.effect == Effect.Allow
    ensures Decide(true, rules, raw, now) == Decision.Allow <==> Normalised(raw).Ok?
  {
    ReadingsExist(raw);
    AllowsExactly(true, rules, raw, now);
    if Normalised(raw).Ok? {
      forall p | p in Readings(raw).value ensures Granted(rules, p, now) {
        ReadingAbsolute(raw, p);
        EmptyMatchesAll(p);
      }
    }
  }

  /** Every reading begins with a slash. */
  lemma ReadingAbsolute(raw: Text, p: Text)
    requires Readings(raw).Ok? && p in Readings(raw).value
    ensures StartsWith(p, [SLASH])
  {
    var path := Before(raw, QUESTION);
    var bare := Join(Unparametered(Split(path, SLASH)), SLASH);
    DecodedAbsolute(Resolved(path));
    DecodedAbsolute(Resolved(bare));
    ReadingsExist(raw);
    NormalisedShape(raw);
  }

  lemma DecodedAbsolute(s: Text)
    requires StartsWith(s, [SLASH])
    ensures DecodeResolved(s).Ok? ==> StartsWith(DecodeResolved(s).value, [SLASH])
  {
    assert s[0] == s[..1][0] == SLASH;
    assert s == [] + [SLASH] + s[1..];
    DecodedAround([], SLASH, s[1..]);
  }

  /** One rule, however it is spelled: with no star of its own at the end, `S`,
      `S/`, `S` with a slash and a star, and S in other letters match the same
      paths. */
  lemma SpellingsMatchAlike(s: Text, other: Text, path: Text)
    requires s == [] || s[|s| - 1] != STAR
    requires Lower(other) == Lower(s)
    requires StartsWith(path, [SLASH])
    ensures Matches(s + [SLASH], path) == Matches(s, path)
    ensures Matches(s + SUBTREE, path) == Matches(s, path)
    ensures Matches(other, path) == Matches(s, path)
  {
    TrimEndOne(s, STAR);
    TrimEndOne(other, STAR) by { SameEnding(s, other); }
    TrimEndOne(s + [SLASH], STAR);
    assert s + SUBTREE == s + [SLASH] + [STAR];
    MatchesExactly(s, path);
    MatchesExactly(other, path);
    MatchesExactly(s + [SLASH], path);
    MatchesExactly(s + SUBTREE, path);
    TrailingSlashWalk(s);
    CaselessWalk(s, other);
  }

  lemma SameEnding(s: Text, other: Text)
    requires s == [] || s[|s| - 1] != STAR
    requires Lower(other) == Lower(s)
    ensures other == [] || other[|other| - 1] != STAR
  {
    assert |s| == |Lower(s)| == |other|;
    if s != [] { assert Lower(s)[|s| - 1] == Lower(other)[|s| - 1]; }
  }

  lemma TrailingSlashWalk(s: Text)
    ensures Walk([], Split(s + [SLASH], SLASH)) == Walk([], Split(s, SLASH))
  {
    SplitAround(s, SLASH, []);
    assert s + [SLASH] + [] == s + [SLASH];
    WalkConcat([], Split(s, SLASH), [[]]);
    WalkOne(Walk([], Split(s, SLASH)), []);
  }

  lemma CaselessWalk(s: Text, other: Text)
    requires Lower(other) == Lower(s)
    ensures LowerAll(Walk([], Split(other, SLASH))) == LowerAll(Walk([], Split(s, SLASH)))
  {
    assert LowerAll([]) == [];
    WalkLower([], Split(s, SLASH));
    WalkLower([], Split(other, SLASH));
    LowerSplit(s, SLASH);
    LowerSplit(other, SLASH);
  }

  /** No accepted deny is dead: it fires on the very path it was written for,
      and on every way of rewriting that path. */
  lemma AcceptedDenyFires(
    raw: Text, rules: seq<Rule>, deny: Rule, now: int, rewrites: seq<Rewrite>, to: Text)
    requires ValidatePathPattern(raw).Ok? && raw != []
    requires deny in rules && Live(deny, now) && deny.effect == Effect.Deny && deny.pathPattern == raw
    requires Reached(raw[..|raw| - 1], rewrites, to)
    ensures Decide(true, rules, to, now) == Decision.Deny(ExplicitDeny)
  {
    var path := raw[..|raw| - 1];
    AcceptedFixed(raw);
    RewritesKeepNormal(path, rewrites, to);
    ReadingsExist(to);
    assert Fires(rules, Effect.Deny, path, now);
    assert Readings(to).value[0] in Readings(to).value;
    DeniesExactly(true, rules, to, now);
  }

  /** The stem of an accepted pattern. */
  lemma StemOf(raw: Text) returns (s: Text)
    requires ValidatePathPattern(raw).Ok? && raw != []
    ensures raw == s + SUBTREE && raw[..|raw| - 1] == s + [SLASH]
    ensures STAR !in s && AsMatched(s + [SLASH])
  {
    AcceptedExactly(raw);
    s :| raw == s + SUBTREE && STAR !in s && AsMatched(s + [SLASH]);
  }

  lemma StemMatches(s: Text)
    requires STAR !in s && AsMatched(s + [SLASH])
    ensures Matches(s + SUBTREE, s + [SLASH])
  {
    var path := s + [SLASH];
    AcceptedSubtree(s, path);
    assert path[..|path|] == path;
  }

  /** An accepted pattern without its star is a path that normalises to itself,
      and the pattern matches it. */
  lemma AcceptedFixed(raw: Text)
    requires ValidatePathPattern(raw).Ok? && raw != []
    ensures AsMatched(raw[..|raw| - 1]) && Matches(raw, raw[..|raw| - 1])
    ensures Normalised(raw[..|raw| - 1]) == Ok(raw[..|raw| - 1])
  {
    var s := StemOf(raw);
    FixedExactly(s + [SLASH]);
    StemMatches(s);
  }
}
