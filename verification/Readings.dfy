/** What the three readings hold, said through the segments of the request path,
    and what a deny is therefore worth against escapes. */
module ReadingLaws {
  import opened Prelude
  import opened TextOps
  import Utf8
  import opened Percent
  import opened Path
  import opened Policy
  import opened PolicyLaws
  import opened PathPattern

  // --- Which URIs normalise ---

  /** Characters a decoded path may be made of: no `%` a second decoder could
      take up, no control character. */
  ghost predicate Harmless(cs: seq<int>) {
    Utf8.Scalars(cs) && forall i :: 0 <= i < |cs| ==> cs[i] != 0x25 && !Utf8.Control(cs[i])
  }

  lemma AcceptableExactly(d: Text)
    ensures Acceptable(d) <==> exists cs :: Harmless(cs) && d == Utf8.Encoded(cs)
  {
    if Acceptable(d) {
      var cs := Utf8.CharsOf(d);
      Utf8.EncodedValid(cs);
      Utf8.AsciiEncoded(cs, PERCENT);
      assert forall i :: 0 <= i < |cs| ==> cs[i] in cs;
      assert Harmless(cs);
    }
    forall cs | Harmless(cs) && d == Utf8.Encoded(cs) ensures Acceptable(d) {
      Utf8.EncodedValid(cs);
      Utf8.AsciiEncoded(cs, PERCENT);
    }
  }

  /** A URI normalises exactly when its path begins with a slash and holds no
      `#`, every `%` in it begins a complete escape, and what that decodes to
      spells harmless characters. Every other URI is refused as malformed. */
  lemma NormalisesExactly(raw: Text)
    ensures Normalised(raw).Ok? <==>
      && StartsWith(Before(raw, QUESTION), [SLASH]) && HASH !in Before(raw, QUESTION)
      && exists cs :: Harmless(cs) && Decoded(Before(raw, QUESTION)) == Some(Utf8.Encoded(cs))
  {
    var decoded := Decoded(Before(raw, QUESTION));
    if decoded.Some? { AcceptableExactly(decoded.value); }
  }

  // --- What each reading holds ---

  /** The first reading: decoded first, each backslash a slash, and then resolved:
      an escaped separator or dot segment counts as one. */
  lemma FirstReading(raw: Text, folded: Text)
    requires Normalised(raw).Ok?
    requires var d := Decoded(Before(raw, QUESTION)).value;
      |folded| == |d| && forall i :: 0 <= i < |d| ==> folded[i] == if d[i] == BACKSLASH then SLASH else d[i]
    ensures Readings(raw).Ok?
    ensures var parts := Split(folded, SLASH);
      Readings(raw).value[0] == Lower(Slashed(FinalSegments(Walk([], parts), Last(parts))))
  {
    ReadingsExist(raw);
    assert folded == Fold(Decoded(Before(raw, QUESTION)).value);
    ResolvedSlashed(folded);
  }

  /** Piece by piece, what the escapes of `segs` say. */
  ghost predicate DecodedEach(segs: seq<Text>, ds: seq<Text>) {
    |ds| == |segs| && forall i :: 0 <= i < |segs| ==> Decoded(segs[i]) == Some(ds[i])
  }

  /** Resolved first and decoded after: the segments that resolving leaves, each
      decoded where it stands, in order, in lower case. What an escape stands for
      is never resolved again. */
  ghost predicate ReadsAs(parts: seq<Text>, reading: Text)
    requires parts != []
  {
    exists ds ::
      && DecodedEach(FinalSegments(Walk([], parts), Last(parts)), ds)
      && reading == Lower(Slashed(ds))
  }

  /** A join decodes piece by piece. */
  lemma {:induction false} DecodedJoin(parts: seq<Text>) returns (ds: seq<Text>)
    requires parts != [] && Decoded(Join(parts, SLASH)).Some?
    ensures DecodedEach(parts, ds) && Decoded(Join(parts, SLASH)) == Some(Join(ds, SLASH))
  {
    if |parts| == 1 {
      ds := [Decoded(parts[0]).value];
    } else {
      DecodedAround(parts[0], SLASH, Join(parts[1..], SLASH));
      var rest := DecodedJoin(parts[1..]);
      ds := [Decoded(parts[0]).value] + rest;
      assert ds[1..] == rest;
      assert forall i :: 1 <= i < |parts| ==> parts[i] == parts[1..][i - 1] && ds[i] == rest[i - 1];
    }
  }

  lemma DecodedSlashed(segs: seq<Text>) returns (ds: seq<Text>)
    requires segs != [] && Decoded(Slashed(segs)).Some?
    ensures DecodedEach(segs, ds) && Decoded(Slashed(segs)) == Some(Slashed(ds))
  {
    SlashedJoin(segs);
    assert [] + [SLASH] + Join(segs, SLASH) == Slashed(segs);
    DecodedAround([], SLASH, Join(segs, SLASH));
    ds := DecodedJoin(segs);
    SlashedJoin(ds);
    assert [] + [SLASH] + Join(ds, SLASH) == Slashed(ds);
  }

  /** What resolving and then decoding makes of a joined path. */
  lemma DecodedAfter(parts: seq<Text>, reading: Text)
    requires parts != [] && Atoms(parts, SLASH)
    requires DecodeResolved(Resolved(Join(parts, SLASH))) == Ok(reading)
    ensures ReadsAs(parts, reading)
  {
    SplitJoin(parts, SLASH);
    ResolvedSlashed(Join(parts, SLASH));
    var ds := DecodedSlashed(FinalSegments(Walk([], parts), Last(parts)));
    assert reading == Lower(Slashed(ds));
  }

  /** The second reading: the path is resolved as it is written, and the escapes
      in what is left are decoded as data. */
  lemma SecondReading(raw: Text)
    requires Readings(raw).Ok?
    ensures ReadsAs(Split(Before(raw, QUESTION), SLASH), Readings(raw).value[1])
  {
    var path := Before(raw, QUESTION);
    SplitPieces(path, SLASH);
    JoinSplit(path, SLASH);
    DecodedAfter(Split(path, SLASH), Readings(raw).value[1]);
  }

  /** The third: the same, over the segments without their parameters. */
  lemma ThirdReading(raw: Text, bare: seq<Text>)
    requires Readings(raw).Ok?
    requires var segs := Split(Before(raw, QUESTION), SLASH);
      |bare| == |segs| && forall i :: 0 <= i < |segs| ==> bare[i] == Before(segs[i], SEMICOLON)
    ensures ReadsAs(bare, Readings(raw).value[2])
  {
    var segs := Split(Before(raw, QUESTION), SLASH);
    SplitPieces(Before(raw, QUESTION), SLASH);
    assert bare == Unparametered(segs);
    forall p | p in bare ensures SLASH !in p {
      var i :| 0 <= i < |bare| && bare[i] == p;
      assert segs[i] in segs;
    }
    DecodedAfter(bare, Readings(raw).value[2]);
  }

  /** A reading is determined by the segments it is read from. */
  lemma ReadsAsOne(parts: seq<Text>, a: Text, b: Text)
    requires parts != [] && ReadsAs(parts, a) && ReadsAs(parts, b)
    ensures a == b
  {
    var segs := FinalSegments(Walk([], parts), Last(parts));
    var x :| DecodedEach(segs, x) && a == Lower(Slashed(x));
    var y :| DecodedEach(segs, y) && b == Lower(Slashed(y));
    assert forall i :: 0 <= i < |segs| ==> Some(x[i]) == Some(y[i]);
    assert x == y;
  }

  // --- Escapes below a denied directory ---

  /** Segments that resolving leaves as they are; only the last may be empty. */
  ghost predicate Settled(segs: seq<Text>) {
    && ONE_DOT !in segs && TWO_DOTS !in segs
    && forall k :: 0 <= k < |segs| - 1 ==> segs[k] != []
  }

  /** Two texts without meeting slashes, joined at a slash they share. */
  lemma SlashesMeetAt(a: Text, b: Text)
    requires NoSlashesMeet(a + [SLASH]) && NoSlashesMeet([SLASH] + b)
    ensures NoSlashesMeet(a + [SLASH] + b)
  {
    var left, right, all := a + [SLASH], [SLASH] + b, a + [SLASH] + b;
    assert forall i :: 0 <= i <= |a| ==> all[i] == left[i];
    assert forall i :: 0 <= i <= |b| ==> all[i + |a|] == right[i];
    forall i {:trigger all[i]} | 0 <= i < |all| - 1 ensures !(all[i] == SLASH && all[i + 1] == SLASH) {
      if i < |a| {
        assert all[i] == left[i] && all[i + 1] == left[i + 1];
      } else {
        assert all[i] == right[i - |a|] && all[i + 1] == right[i + 1 - |a|];
      }
    }
  }

  lemma SettledSlashes(t: Text)
    requires Settled(Split(t, SLASH))
    ensures NoSlashesMeet([SLASH] + t)
  {
    var segs := Split(t, SLASH);
    SplitPieces(t, SLASH);
    JoinSplit(t, SLASH);
    SlashedJoin(segs);
    NoDoubleSlash(segs);
  }

  /** A canonical directory in other letters, and settled segments below it. */
  lemma CanonicalBelow(u: Text, t: Text)
    requires Canonical(Lower(u) + [SLASH]) && Settled(Split(t, SLASH))
    ensures Canonical(u + [SLASH] + t)
  {
    var s, path := Lower(u), u + [SLASH] + t;
    var dir, low := u + [SLASH], Lower(u) + [SLASH];
    assert forall i :: 0 <= i < |dir| ==> (dir[i] == SLASH <==> low[i] == SLASH);
    SettledSlashes(t);
    SlashesMeetAt(u, t);
    assert path[0] == dir[0] && low[0] == SLASH;
    assert path[..1] == [SLASH];
    SplitAround(u, SLASH, t);
    SplitAround(s, SLASH, []);
    assert s + [SLASH] + [] == s + [SLASH];
    LowerSplit(u, SLASH);
    DotsBelow(Split(u, SLASH));
  }

  lemma DotsBelow(segs: seq<Text>)
    requires ONE_DOT !in LowerAll(segs) && TWO_DOTS !in LowerAll(segs)
    ensures ONE_DOT !in segs && TWO_DOTS !in segs
  {
    forall i | 0 <= i < |segs| ensures segs[i] != ONE_DOT && segs[i] != TWO_DOTS {
      DotsLower(segs[i]);
      assert LowerAll(segs)[i] in LowerAll(segs);
    }
  }

  lemma LowerAbsent(u: Text, b: byte)
    requires b < 0x41 && b !in Lower(u)
    ensures b !in u
  {
    forall i | 0 <= i < |u| ensures u[i] != b {
      assert Lower(u)[i] in Lower(u);
    }
  }

  lemma LowerBelow(u: Text, d: Text)
    ensures StartsWith(Lower(u + [SLASH] + d), Lower(u) + [SLASH])
  {
    var all := Lower(u + [SLASH] + d);
    assert all[..|u| + 1] == Lower(u) + [SLASH];
  }

  /** A directory without escapes, and what is below it decoded. */
  lemma DecodedBelow(u: Text, t: Text)
    requires PERCENT !in u && Decoded(u + [SLASH] + t).Some?
    ensures StartsWith(Lower(Decoded(u + [SLASH] + t).value), Lower(u) + [SLASH])
  {
    DecodedPlain(u);
    DecodedAround(u, SLASH, t);
    LowerBelow(u, Decoded(t).value);
  }

  /** A canonical path is decoded as it stands. */
  lemma SecondOfCanonical(path: Text, query: Text)
    requires QUESTION !in path && (query == [] || query[0] == QUESTION)
    requires Canonical(path) && Normalised(path + query).Ok?
    ensures Readings(path + query).Ok? && Decoded(path).Some?
    ensures Readings(path + query).value[1] == Lower(Decoded(path).value)
  {
    BeforeCut(path, QUESTION, query);
    CanonicalFixed(path);
    ReadingsExist(path + query);
  }

  /** What the second reading makes of a URI below a directory. */
  lemma BelowReading(u: Text, t: Text, query: Text)
    requires AsMatched(Lower(u) + [SLASH]) && Settled(Split(t, SLASH))
    requires QUESTION !in t && (query == [] || query[0] == QUESTION)
    requires Normalised(u + [SLASH] + t + query).Ok?
    ensures Readings(u + [SLASH] + t + query).Ok?
    ensures StartsWith(Readings(u + [SLASH] + t + query).value[1], Lower(u) + [SLASH])
  {
    var s, path := Lower(u), u + [SLASH] + t;
    forall b: byte | b == QUESTION || b == PERCENT ensures b !in u {
      assert b in s ==> b in s + [SLASH];
      LowerAbsent(u, b);
    }
    CanonicalBelow(u, t);
    SecondOfCanonical(path, query);
    DecodedBelow(u, t);
  }

  /** Whatever is escaped below a denied directory, the deny is the answer: the
      escapes are data there, and cannot lead out of it. The directory may be
      written in any letters; the rest has only ordinary segments, and perhaps a
      trailing slash, before it is decoded. */
  lemma DenyHoldsUnderEscapes(
    rules: seq<Rule>, deny: Rule, now: int, u: Text, t: Text, query: Text)
    requires ValidatePathPattern(Lower(u) + SUBTREE).Ok?
    requires deny in rules && Live(deny, now) && deny.effect == Effect.Deny
    requires deny.pathPattern == Lower(u) + SUBTREE
    requires forall k :: 0 <= k < |Split(t, SLASH)| ==>
      Ordinary(Split(t, SLASH)[k]) || (k == |Split(t, SLASH)| - 1 && Split(t, SLASH)[k] == [])
    requires QUESTION !in t && (query == [] || query[0] == QUESTION)
    requires Normalised(u + [SLASH] + t + query).Ok?
    ensures Decide(true, rules, u + [SLASH] + t + query, now) == Decision.Deny(ExplicitDeny)
  {
    var s, raw := Lower(u), u + [SLASH] + t + query;
    AcceptedSubtreeForm(s);
    BelowReading(u, t, query);
    var second := Readings(raw).value[1];
    assert StartsWith(second, [SLASH]) by {
      assert (s + [SLASH])[0] == SLASH;
      assert second[..1] == [SLASH];
    }
    AcceptedSubtree(s, second);
    assert Fires(rules, Effect.Deny, second, now);
    assert second in Readings(raw).value;
    DeniesExactly(true, rules, raw, now);
  }
}
