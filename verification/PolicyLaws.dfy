/** What the decision promises, for every URI and every rule list. */
module PolicyLaws {
  import opened Prelude
  import opened TextOps
  import Utf8
  import opened Percent
  import opened Path
  import opened Policy

  // --- The later decodes cannot fail ---

  lemma SoundResolved(path: Text)
    requires Sound(path)
    ensures Sound(Resolved(path))
  {
    var stack, last := Walk([], Split(path, SLASH)), Last(Split(path, SLASH));
    JoinSplit(path, SLASH);
    SoundJoin(Split(path, SLASH), SLASH);
    WalkKeeps([], Split(path, SLASH));
    ResolvedSlashed(path);
    var segs := FinalSegments(stack, last);
    assert Sound([]);
    assert forall p :: p in segs ==> p in stack || p == [];
    SoundJoin(segs, SLASH);
    SlashedJoin(segs);
    SoundAround([], SLASH, Join(segs, SLASH));
    assert [] + [SLASH] + Join(segs, SLASH) == [SLASH] + Join(segs, SLASH);
  }

  lemma SoundUnparametered(path: Text)
    requires Sound(path)
    ensures Sound(Join(Unparametered(Split(path, SLASH)), SLASH))
  {
    var segs := Split(path, SLASH);
    JoinSplit(path, SLASH);
    SoundJoin(segs, SLASH);
    var bare := Unparametered(segs);
    forall p | p in bare ensures Sound(p) {
      var i :| 0 <= i < |bare| && bare[i] == p;
      assert segs[i] in segs;
      SoundBefore(segs[i]);
    }
    SoundJoin(bare, SLASH);
  }

  lemma SoundBefore(seg: Text)
    requires Sound(seg)
    ensures Sound(Before(seg, SEMICOLON))
  {
    var p := Before(seg, SEMICOLON);
    if |p| < |seg| {
      assert seg == p + [SEMICOLON] + seg[|p| + 1..];
      SoundAround(p, SEMICOLON, seg[|p| + 1..]);
    } else {
      assert p == seg;
    }
  }

  /** If the first reading exists, so do the other two. */
  lemma ReadingsExist(raw: Text)
    ensures Readings(raw).Ok? <==> Normalised(raw).Ok?
    ensures Normalised(raw).Err? ==> Normalised(raw) == Err(MalformedUri) && Readings(raw) == Err(MalformedUri)
    ensures Readings(raw).Ok? ==> Readings(raw).value[0] == Normalised(raw).value
  {
    if Normalised(raw).Ok? {
      var path := Before(raw, QUESTION);
      SoundResolved(path);
      SoundUnparametered(path);
      SoundResolved(Join(Unparametered(Split(path, SLASH)), SLASH));
    }
  }

  /** `malformed_uri` is the answer exactly when normalisation fails, whatever
      the application and the rules. */
  lemma MalformedExactly(enabled: bool, rules: seq<Rule>, raw: Text, now: int)
    ensures Decide(enabled, rules, raw, now) == Decision.Deny(MalformedUri) <==> Normalised(raw).Err?
  {
    ReadingsExist(raw);
    if Readings(raw).Ok? { ReadingsCases(rules, Readings(raw).value, now); }
  }

  /** The trace never disagrees with the decision: it carries the same verdict,
      one entry per rule, and no path exactly when the URI is malformed. */
  lemma ExplainAgrees(enabled: bool, rules: seq<Rule>, raw: Text, now: int)
    ensures var t := Explain(enabled, rules, raw, now);
      && t.decision == Decide(enabled, rules, raw, now)
      && |t.rules| == |rules|
      && (t.path.None? <==> t.decision == Decision.Deny(MalformedUri))
      && (t.path.None? ==> forall i :: 0 <= i < |rules| ==> !t.rules[i].matched)
      && (forall i :: 0 <= i < |rules| ==> (t.rules[i].expired <==> !Live(rules[i], now)))
      && (t.path.Some? && t.decision == Decision.Allow ==>
            exists i :: 0 <= i < |rules| && rules[i].effect == Effect.Allow
              && t.rules[i] == RuleTrace(true, false))
  {
    MalformedExactly(enabled, rules, raw, now);
    var t := Explain(enabled, rules, raw, now);
    if t.decision == Decision.Allow {
      AllowsExactly(enabled, rules, raw, now);
      ReadingsExist(raw);
      var p := Readings(raw).value[0];
      assert p in Readings(raw).value && Granted(rules, p, now);
      var r :| r in rules && Live(r, now) && r.effect == Effect.Allow && Matches(r.pathPattern, p);
      var i :| 0 <= i < |rules| && rules[i] == r;
      assert t.rules[i] == RuleTrace(true, false);
    }
  }

  // --- When the answer is allow, and when explicit deny ---

  lemma CombinedCases(a: Decision, b: Decision, c: Decision)
    ensures Combined([a, b, c]) in [a, b, c]
    ensures Combined([a, b, c]) == Decision.Allow <==> a == b == c == Decision.Allow
    ensures Combined([a, b, c]) == Decision.Deny(ExplicitDeny)
       <==> Decision.Deny(ExplicitDeny) in [a, b, c]
  {
    var ds := [a, b, c];
    assert a in ds && b in ds && c in ds;
  }

  ghost predicate Granted(rules: seq<Rule>, path: Text, now: int) {
    Fires(rules, Effect.Allow, path, now) && !Fires(rules, Effect.Deny, path, now)
  }

  /** The three-way combination, over any way of judging one path. */
  lemma VerdictCases(paths: seq<Text>, denied: Text -> bool, allowed: Text -> bool, d: Decision)
    requires |paths| == 3
    requires d == Combined([
      Verdict(denied(paths[0]), allowed(paths[0])),
      Verdict(denied(paths[1]), allowed(paths[1])),
      Verdict(denied(paths[2]), allowed(paths[2]))])
    ensures d == Decision.Allow || d == Decision.Deny(ExplicitDeny) || d == Decision.Deny(NoMatchingGrant)
    ensures d == Decision.Allow <==> forall p :: p in paths ==> allowed(p) && !denied(p)
    ensures d == Decision.Deny(ExplicitDeny) <==> exists p :: p in paths && denied(p)
  {
    var a, b, c := paths[0], paths[1], paths[2];
    CombinedCases(Verdict(denied(a), allowed(a)), Verdict(denied(b), allowed(b)), Verdict(denied(c), allowed(c)));
    assert forall p :: p in paths <==> p == a || p == b || p == c;
  }

  lemma ReadingsCases(rules: seq<Rule>, paths: seq<Text>, now: int)
    requires |paths| == 3
    ensures var d := DecideReadings(rules, paths, now);
      && (d == Decision.Allow || d == Decision.Deny(ExplicitDeny) || d == Decision.Deny(NoMatchingGrant))
      && (d == Decision.Allow <==> forall p :: p in paths ==> Granted(rules, p, now))
      && (d == Decision.Deny(ExplicitDeny) <==> exists p :: p in paths && Fires(rules, Effect.Deny, p, now))
  {
    var denied := (p: Text) => Fires(rules, Effect.Deny, p, now);
    var allowed := (p: Text) => Fires(rules, Effect.Allow, p, now);
    VerdictCases(paths, denied, allowed, DecideReadings(rules, paths, now));
    assert forall p :: Granted(rules, p, now) <==> allowed(p) && !denied(p);
  }

  /** Allow means: enabled, well-formed, and under each of the three readings
      some live allow matches and no live deny does. */
  lemma AllowsExactly(enabled: bool, rules: seq<Rule>, raw: Text, now: int)
    ensures Decide(enabled, rules, raw, now) == Decision.Allow <==>
      && enabled
      && Normalised(raw).Ok?
      && Readings(raw).Ok?
      && forall p :: p in Readings(raw).value ==> Granted(rules, p, now)
  {
    ReadingsExist(raw);
    if Readings(raw).Ok? { ReadingsCases(rules, Readings(raw).value, now); }
  }

  /** An explicit deny under any one reading is the answer. */
  lemma DeniesExactly(enabled: bool, rules: seq<Rule>, raw: Text, now: int)
    ensures Decide(enabled, rules, raw, now) == Decision.Deny(ExplicitDeny) <==>
      && enabled
      && Readings(raw).Ok?
      && exists p :: p in Readings(raw).value && Fires(rules, Effect.Deny, p, now)
  {
    ReadingsExist(raw);
    if Readings(raw).Ok? { ReadingsCases(rules, Readings(raw).value, now); }
  }

  /** The other two answers: a disabled application refuses every well-formed URI
      whatever the rules, and on an enabled one what is neither denied nor granted
      under all readings has no grant. There are no further answers. */
  lemma OtherRefusalsExactly(enabled: bool, rules: seq<Rule>, raw: Text, now: int)
    ensures var d := Decide(enabled, rules, raw, now);
      && (d == Decision.Deny(ApplicationDisabled) <==> !enabled && Normalised(raw).Ok?)
      && (d == Decision.Deny(NoMatchingGrant) <==>
            && enabled && Readings(raw).Ok?
            && (forall p :: p in Readings(raw).value ==> !Fires(rules, Effect.Deny, p, now))
            && exists p :: p in Readings(raw).value && !Fires(rules, Effect.Allow, p, now))
      && (d == Decision.Allow || d.reason in {MalformedUri, ApplicationDisabled, ExplicitDeny, NoMatchingGrant})
  {
    ReadingsExist(raw);
    if Readings(raw).Ok? {
      ReadingsCases(rules, Readings(raw).value, now);
      assert forall p :: Granted(rules, p, now) ==> Fires(rules, Effect.Allow, p, now);
    }
  }

  /** What the trace marks: a rule is matched exactly when its pattern matches the
      normalised path, expired or not, allow or deny; and a matched deny that has
      not expired is the answer of an enabled application. */
  lemma ExplainMarks(enabled: bool, rules: seq<Rule>, raw: Text, now: int, i: int)
    requires 0 <= i < |rules|
    ensures var t := Explain(enabled, rules, raw, now);
      && (forall p :: t.path == Some(p) <==> Normalised(raw) == Ok(p))
      && (t.rules[i].matched <==> exists p :: Normalised(raw) == Ok(p) && Matches(rules[i].pathPattern, p))
      && (enabled && rules[i].effect == Effect.Deny && t.rules[i] == RuleTrace(true, false) ==>
            t.decision == Decision.Deny(ExplicitDeny))
  {
    ReadingsExist(raw);
    DeniesExactly(enabled, rules, raw, now);
    if Normalised(raw).Ok? && Matches(rules[i].pathPattern, Normalised(raw).value) && Live(rules[i], now) {
      assert Readings(raw).value[0] in Readings(raw).value;
      assert rules[i] in rules;
    }
  }

  // --- Rules as a set ---

  /** Two rule lists with the same live rules decide alike: order, duplicates
      and expired rules do not matter. */
  lemma LiveRulesDecide(enabled: bool, a: seq<Rule>, b: seq<Rule>, raw: Text, now: int)
    requires forall r :: Live(r, now) ==> (r in a <==> r in b)
    ensures Decide(enabled, a, raw, now) == Decide(enabled, b, raw, now)
  {
    if Readings(raw).Ok? {
      forall i | 0 <= i < 3
        ensures DecidePath(a, Readings(raw).value[i], now) == DecidePath(b, Readings(raw).value[i], now)
      {
        SameFires(a, b, Readings(raw).value[i], now, now);
      }
    }
  }

  lemma SameFires(a: seq<Rule>, b: seq<Rule>, path: Text, t1: int, t2: int)
    requires forall r :: (r in a && Live(r, t1)) <==> (r in b && Live(r, t2))
    ensures forall e :: Fires(a, e, path, t1) <==> Fires(b, e, path, t2)
  {
    forall e ensures Fires(a, e, path, t1) <==> Fires(b, e, path, t2) {
      if Fires(a, e, path, t1) {
        var r :| r in a && Live(r, t1) && r.effect == e && Matches(r.pathPattern, path);
        assert r in b && Live(r, t2);
      }
      if Fires(b, e, path, t2) {
        var r :| r in b && Live(r, t2) && r.effect == e && Matches(r.pathPattern, path);
        assert r in a && Live(r, t1);
      }
    }
  }

  lemma PermutedRulesDecide(enabled: bool, a: seq<Rule>, b: seq<Rule>, raw: Text, now: int)
    requires multiset(a) == multiset(b)
    ensures Decide(enabled, a, raw, now) == Decide(enabled, b, raw, now)
  {
    forall r ensures r in a <==> r in b {
      assert r in a <==> r in multiset(a);
      assert r in b <==> r in multiset(b);
    }
    LiveRulesDecide(enabled, a, b, raw, now);
  }

  /** Denies only ever take access away, allows only ever give it. */
  lemma RulesAreMonotone(enabled: bool, fewer: seq<Rule>, more: seq<Rule>, raw: Text, now: int)
    requires forall r :: r in fewer ==> r in more
    ensures (forall r :: r in more && r !in fewer ==> r.effect == Effect.Deny)
      && Decide(enabled, more, raw, now) == Decision.Allow
      ==> Decide(enabled, fewer, raw, now) == Decision.Allow
    ensures (forall r :: r in more && r !in fewer ==> r.effect == Effect.Allow)
      && Decide(enabled, fewer, raw, now) == Decision.Allow
      ==> Decide(enabled, more, raw, now) == Decision.Allow
  {
    AllowsExactly(enabled, fewer, raw, now);
    AllowsExactly(enabled, more, raw, now);
    if forall r :: r in more && r !in fewer ==> r.effect == Effect.Deny {
      forall p ensures Granted(more, p, now) ==> Granted(fewer, p, now) {}
    }
    if forall r :: r in more && r !in fewer ==> r.effect == Effect.Allow {
      forall p ensures Granted(fewer, p, now) ==> Granted(more, p, now) {}
    }
  }

  /** Between two instants with no expiry after the first and up to the second,
      the answer does not move: a cached rule list is as good as a fresh one. */
  lemma SteadyBetweenExpiries(enabled: bool, rules: seq<Rule>, raw: Text, t1: int, t2: int)
    requires t1 <= t2
    requires forall r :: r in rules && r.expiresAt.Some? ==> !(t1 < r.expiresAt.value <= t2)
    ensures Decide(enabled, rules, raw, t1) == Decide(enabled, rules, raw, t2)
  {
    if Readings(raw).Ok? {
      forall i | 0 <= i < 3
        ensures DecidePath(rules, Readings(raw).value[i], t1) == DecidePath(rules, Readings(raw).value[i], t2)
      {
        SameFires(rules, rules, Readings(raw).value[i], t1, t2);
      }
    }
  }

  // --- Matching, by segments ---

  /** On a path that begins with `/`, a pattern matches exactly when the
      segments of its base are the first segments of the path. */
  lemma MatchesSegments(pattern: Text, path: Text)
    requires StartsWith(path, [SLASH])
    ensures Matches(pattern, path) <==> Split(Base(pattern), SLASH) <= Split(path, SLASH)
  {
    var base := Base(pattern);
    SplitPrefix(base, path, SLASH);
    PrefixThenSlash(base, path);
  }

  lemma PrefixThenSlash(base: Text, path: Text)
    ensures StartsWith(path, base + [SLASH]) <==> StartsWith(path, base) && StartsWith(path[|base|..], [SLASH])
  {
    if StartsWith(path, base + [SLASH]) {
      assert path[..|base| + 1] == base + [SLASH];
      assert path[..|base|] == base && path[|base|] == SLASH;
      assert path[|base|..][..1] == [SLASH];
    }
    if StartsWith(path, base) && StartsWith(path[|base|..], [SLASH]) {
      assert path[|base|] == path[|base|..][0] == SLASH;
      assert path[..|base| + 1] == base + [SLASH];
    }
  }

  // --- The shape of a normalised path ---

  /** Every segment of a printable text is printable, and conversely. */
  lemma {:induction false} PrintableJoin(parts: seq<Text>, c: byte)
    requires 0x20 <= c < 0x7F
    ensures Utf8.Printable(Join(parts, c)) <==> forall p :: p in parts ==> Utf8.Printable(p)
  {
    if |parts| > 1 {
      PrintableJoin(parts[1..], c);
      Utf8.ValidAround(parts[0], c, Join(parts[1..], c));
      assert forall p :: p in parts <==> p == parts[0] || p in parts[1..];
    }
  }

  lemma {:induction false} FoldPrintable(d: Text)
    ensures Utf8.Printable(Fold(d)) == Utf8.Printable(d)
    decreases |d|
  {
    if d != [] {
      var w := Utf8.Width(d);
      assert Utf8.Width(Fold(d)) == w;
      if w > 0 {
        assert Fold(d)[w..] == Fold(d[w..]);
        FoldPrintable(d[w..]);
      }
    }
  }

  lemma ResolvedPrintable(path: Text)
    requires Utf8.Printable(path)
    ensures Utf8.Printable(Resolved(path))
  {
    var parts := Split(path, SLASH);
    var stack := Walk([], parts);
    JoinSplit(path, SLASH);
    PrintableJoin(parts, SLASH);
    WalkKeeps([], parts);
    ResolvedSlashed(path);
    var segs := FinalSegments(stack, Last(parts));
    assert forall p :: p in segs ==> p in stack || p == [];
    PrintableJoin(segs, SLASH);
    SlashedJoin(segs);
    Utf8.ValidAround([], SLASH, Join(segs, SLASH));
    assert [] + [SLASH] + Join(segs, SLASH) == [SLASH] + Join(segs, SLASH);
  }

  /** Resolving brings in no byte but `/`. */
  lemma ResolvedBytes(path: Text, b: byte)
    requires b in Resolved(path)
    ensures b == SLASH || b in path
  {
    var parts := Split(path, SLASH);
    var stack := Walk([], parts);
    WalkKeeps([], parts);
    ResolvedSlashed(path);
    var segs := FinalSegments(stack, Last(parts));
    var p := SlashedByte(segs, b);
    if b != SLASH {
      assert p in stack || p == [];
      JoinSplit(path, SLASH);
      JoinByte(parts, SLASH, p, b);
    }
  }

  lemma SlashedByte(segs: seq<Text>, b: byte) returns (p: Text)
    requires b in Slashed(segs)
    ensures b == SLASH || (p in segs && b in p)
  {
    p := segs[0];
    if b != SLASH && b !in segs[0] {
      p := SlashedByte(segs[1..], b);
    }
  }

  lemma {:induction false} JoinByte(parts: seq<Text>, c: byte, p: Text, b: byte)
    requires p in parts && b in p
    ensures b in Join(parts, c)
  {
    if |parts| > 1 && p != parts[0] {
      JoinByte(parts[1..], c, p, b);
    }
  }

  lemma FoldBytes(d: Text)
    ensures BACKSLASH !in Fold(d)
    ensures PERCENT !in d ==> PERCENT !in Fold(d)
  {}

  /** A normalised path is canonical, lower-case, printable, and free of `%`
      and `\`. */
  lemma NormalisedShape(raw: Text)
    requires Normalised(raw).Ok?
    ensures var p := Normalised(raw).value;
      Canonical(p) && Lower(p) == p && Acceptable(p) && BACKSLASH !in p
  {
    var d := Decoded(Before(raw, QUESTION)).value;
    var f := Fold(d);
    var r := Resolved(f);
    FoldPrintable(d);
    ResolvedPrintable(f);
    Utf8.ValidLower(r);
    ResolvedLower(f);
    ResolvedCanonical(Lower(f));
    LowerIdempotent(r);
    forall b: byte | b == PERCENT || b == BACKSLASH ensures b !in Lower(r) {
      if b in Lower(r) {
        var i :| 0 <= i < |Lower(r)| && Lower(r)[i] == b;
        assert LowerByte(r[i]) == b && r[i] == b;
        ResolvedBytes(f, b);
        FoldBytes(d);
      }
    }
  }

  lemma BeforeAbsent(s: Text, c: byte)
    ensures Before(s, c) == s <==> c !in s
  {}

  lemma FoldPlain(s: Text)
    requires BACKSLASH !in s
    ensures Fold(s) == s
  {}

  /** Normalising twice is normalising once, exactly when the result holds
      neither `?` nor `#` (an escaped one decodes to itself, and would then cut
      or spoil the path). */
  lemma NormaliseIdempotent(raw: Text)
    requires Normalised(raw).Ok?
    ensures var p := Normalised(raw).value;
      Normalised(p) == Ok(p) <==> QUESTION !in p && HASH !in p
  {
    var p := Normalised(raw).value;
    NormalisedShape(raw);
    BeforeAbsent(p, QUESTION);
    if QUESTION !in p && HASH !in p {
      DecodedPlain(p);
      FoldPlain(p);
      CanonicalFixed(p);
    } else if Normalised(p) == Ok(p) {
      ShorterNormalised(p);
    }
  }

  /** Where it is not: `/%3F` normalises to `/?`, and that to `/`. */
  lemma EscapedQuestionMark()
    ensures Normalised([SLASH, PERCENT, 0x33, 0x46]) == Ok([SLASH, QUESTION])
    ensures Normalised([SLASH, QUESTION]) == Ok([SLASH])
  {
    var raw: Text := [SLASH, PERCENT, 0x33, 0x46];
    var escape, cut: Text := [PERCENT, 0x33, 0x46], [SLASH, QUESTION];
    BeforeAbsent(raw, QUESTION);
    assert raw[1..] == escape && escape[3..] == [];
    assert EscapeValue(0x33, 0x46) == QUESTION;
    assert Decoded(escape) == Prepend([QUESTION], Decoded([]));
    assert Decoded(raw) == Prepend([SLASH], Decoded(escape));
    assert [SLASH] + ([QUESTION] + []) == cut;
    FinishedShort([QUESTION]);
    BeforeCut([SLASH], QUESTION, [QUESTION]);
    assert [SLASH] + [QUESTION] == cut;
    assert [SLASH][1..] == [];
    assert Decoded([SLASH]) == Prepend([SLASH], Decoded([]));
    FinishedShort([]);
  }

  lemma AcceptableShort(seg: Text)
    requires seg == [] || seg == [QUESTION]
    ensures Acceptable([SLASH] + seg)
  {
    Utf8.ValidAround([], QUESTION, []);
    assert [] + [QUESTION] + [] == [QUESTION];
    Utf8.ValidAround([], SLASH, seg);
    assert [] + [SLASH] + seg == [SLASH] + seg;
  }

  /** A slash and at most a question mark after it finish as they are. */
  lemma FinishedShort(seg: Text)
    requires seg == [] || seg == [QUESTION]
    ensures Acceptable([SLASH] + seg) && Finished([SLASH] + seg) == [SLASH] + seg
  {
    var d := [SLASH] + seg;
    AcceptableShort(seg);
    SplitCons(SLASH, seg, SLASH);
    SplitAtom(seg, SLASH);
    assert Split(d, SLASH) == [[]] + [seg];
    CanonicalFixed(d);
    FoldPlain(d);
    assert Lower(d) == d;
  }

  /** Text without escapes never grows under normalisation by more than the
      slash it already has. */
  lemma ShorterNormalised(s: Text)
    requires Normalised(s).Ok? && PERCENT !in s
    ensures |Normalised(s).value| <= |Before(s, QUESTION)|
  {
    var path := Before(s, QUESTION);
    assert PERCENT !in path;
    DecodedPlain(path);
    ResolvedShorter(Fold(path));
  }

  lemma ResolvedShorter(path: Text)
    requires StartsWith(path, [SLASH])
    ensures |Resolved(path)| <= |path|
  {
    var segs := AbsoluteSegments(path);
    ResolvedSlashed(path);
    WalkAbsolute(segs);
    WalkShorter([], segs);
    assert Slashed([]) == [];
  }

  lemma PushShorter(stack: seq<Text>, seg: Text)
    ensures |Slashed(Push(stack, seg))| <= |Slashed(stack)| + 1 + |seg|
    ensures !Ordinary(seg) ==> |Slashed(Push(stack, seg))| <= |Slashed(stack)|
  {
    SlashedConcat(stack, [seg]);
    assert Slashed([seg]) == [SLASH] + seg + Slashed([]);
    if stack != [] {
      assert stack == stack[..|stack| - 1] + [Last(stack)];
      SlashedConcat(stack[..|stack| - 1], [Last(stack)]);
    }
  }

  lemma {:induction false} WalkShorter(stack: seq<Text>, segs: seq<Text>)
    requires segs != []
    ensures |Slashed(FinalSegments(Walk(stack, segs), Last(segs)))| <= |Slashed(stack)| + |Slashed(segs)|
    decreases |segs|
  {
    var seg := segs[0];
    assert Slashed(segs) == [SLASH] + seg + Slashed(segs[1..]);
    if |segs| == 1 {
      assert Walk(stack, segs) == Push(stack, seg);
      FinalShorter(stack, seg);
    } else {
      PushShorter(stack, seg);
      WalkShorter(Push(stack, seg), segs[1..]);
    }
  }

  lemma FinalShorter(stack: seq<Text>, seg: Text)
    ensures |Slashed(FinalSegments(Push(stack, seg), seg))| <= |Slashed(stack)| + 1 + |seg|
  {
    PushShorter(stack, seg);
    SlashedConcat(Push(stack, seg), [[]]);
    assert Slashed([[]]) == [SLASH];
  }
}
