/** A deny rule survives the rewritings of a path that an upstream undoes. */
module Rewrites {
  import opened Prelude
  import opened TextOps
  import Utf8
  import opened Percent
  import opened Path
  import opened Policy
  import opened PolicyLaws

  /** What may be slipped in after a slash without moving the path: a second
      slash, `./`, or a segment and the `..` that undoes it. */
  datatype Detour = Nothing | Here | Aside(segment: Text)

  datatype Rewrite =
    | Encode(at: nat, hi: byte, lo: byte)
    | Recase(path: Text)
    | Insert(after: nat, detour: Detour)
    | Backslash(at: nat)

  /** Bytes a segment or a parameter may be written with unescaped. */
  predicate PlainText(s: Text) {
    && Utf8.Printable(s)
    && SLASH !in s && BACKSLASH !in s && PERCENT !in s && QUESTION !in s && HASH !in s
  }

  function DetourText(d: Detour): Text {
    match d
    case Nothing => []
    case Here => ONE_DOT
    case Aside(x) => x + [SLASH] + TWO_DOTS
  }

  predicate Applies(path: Text, rw: Rewrite) {
    match rw
    // Outside existing escapes, and never the leading slash.
    case Encode(at, hi, lo) =>
      && 0 < at < |path| && path[at] != PERCENT && Decoded(path[..at]).Some?
      && IsHex(hi) && IsHex(lo) && EscapeValue(hi, lo) == path[at]
    case Recase(other) => Lower(other) == Lower(path)
    case Insert(after, d) =>
      && after < |path| && path[after] == SLASH
      && (d.Aside? ==> Ordinary(d.segment) && PlainText(d.segment))
    case Backslash(at) => 0 < at < |path| && path[at] == SLASH
  }

  function RewrittenPath(path: Text, rw: Rewrite): Text
    requires Applies(path, rw)
  {
    match rw
    case Encode(at, hi, lo) => path[..at] + [PERCENT, hi, lo] + path[at + 1..]
    case Recase(other) => other
    case Insert(after, d) => path[..after] + [SLASH] + DetourText(d) + [SLASH] + path[after + 1..]
    case Backslash(at) => path[..at] + [BACKSLASH] + path[at + 1..]
  }

  /** The rewriting of a whole URI: its query is left alone. */
  function Rewritten(raw: Text, rw: Rewrite): Text
    requires Applies(Before(raw, QUESTION), rw)
  {
    var path := Before(raw, QUESTION);
    RewrittenPath(path, rw) + raw[|path|..]
  }

  // --- The seam between the URI and its decoded path ---

  /** A path that reads as `d`: what `normalise` sees after decoding. */
  ghost predicate Reads(path: Text, d: Text) {
    && StartsWith(path, [SLASH]) && HASH !in path && QUESTION !in path
    && Decoded(path) == Some(d) && Acceptable(d)
  }

  lemma ReadsNormalised(path: Text, query: Text, d: Text)
    requires Reads(path, d)
    requires query == [] || query[0] == QUESTION
    ensures Before(path + query, QUESTION) == path
    ensures Normalised(path + query) == Ok(Finished(d))
  {
    BeforeCut(path, QUESTION, query);
  }

  lemma NormalisedReads(raw: Text) returns (path: Text, query: Text, d: Text)
    requires Normalised(raw).Ok?
    ensures path == Before(raw, QUESTION) && query == raw[|path|..] && raw == path + query
    ensures query == [] || query[0] == QUESTION
    ensures Reads(path, d) && Normalised(raw) == Ok(Finished(d))
  {
    path := Before(raw, QUESTION);
    query := raw[|path|..];
    d := Decoded(path).value;
  }

  // --- One lemma for each rewrite, on the decoded path ---

  /** Escaping a byte decodes to the same text. */
  lemma EncodeDecoded(a: Text, b: byte, rest: Text, hi: byte, lo: byte)
    requires Decoded(a).Some? && b != PERCENT
    requires IsHex(hi) && IsHex(lo) && EscapeValue(hi, lo) == b
    ensures Decoded(a + [PERCENT, hi, lo] + rest) == Decoded(a + [b] + rest)
  {
    var plain, escaped := [b] + rest, [PERCENT, hi, lo] + rest;
    SameHeads(b, hi, lo, rest);
    assert a + [PERCENT, hi, lo] + rest == a + escaped;
    assert a + [b] + rest == a + plain;
    DecodedConcat(a, plain);
    DecodedConcat(a, escaped);
  }

  lemma SameHeads(b: byte, hi: byte, lo: byte, rest: Text)
    requires b != PERCENT && IsHex(hi) && IsHex(lo) && EscapeValue(hi, lo) == b
    ensures Decoded([PERCENT, hi, lo] + rest) == Decoded([b] + rest)
  {
    var plain, escaped := [b] + rest, [PERCENT, hi, lo] + rest;
    assert plain[1..] == rest && escaped[3..] == rest;
    assert escaped[0] == PERCENT && escaped[1] == hi && escaped[2] == lo;
  }

  lemma HexLower(b: byte)
    ensures HexValue(LowerByte(b)) == HexValue(b)
  {}

  /** Equal, or absent together, but for ASCII case. */
  predicate SameButCase(a: Option<Text>, b: Option<Text>) {
    (a.Some? <==> b.Some?) && (a.Some? ==> Lower(a.value) == Lower(b.value))
  }

  lemma PrependSameButCase(h: Text, k: Text, a: Option<Text>, b: Option<Text>)
    requires Lower(h) == Lower(k) && SameButCase(a, b)
    ensures SameButCase(Prepend(h, a), Prepend(k, b))
  {
    if a.Some? {
      LowerConcat(h, a.value);
      LowerConcat(k, b.value);
    }
  }

  /** Decoding sees case only as case. */
  lemma {:induction false} DecodedLower(s: Text)
    ensures SameButCase(Decoded(Lower(s)), Decoded(s))
    decreases |s|
  {
    var l := Lower(s);
    if s == [] {
      assert l == [];
    } else if s[0] != PERCENT {
      DecodedLower(s[1..]);
      assert l[1..] == Lower(s[1..]);
      PrependSameButCase([l[0]], [s[0]], Decoded(l[1..]), Decoded(s[1..]));
    } else if |s| >= 3 {
      DecodedLower(s[3..]);
      HexLower(s[1]);
      HexLower(s[2]);
      assert l[3..] == Lower(s[3..]);
      if IsHex(s[1]) && IsHex(s[2]) {
        var escaped := [EscapeValue(s[1], s[2])];
        PrependSameButCase(escaped, escaped, Decoded(l[3..]), Decoded(s[3..]));
      }
    }
  }

  lemma AcceptableLower(d: Text)
    ensures Acceptable(Lower(d)) <==> Acceptable(d)
  {
    Utf8.ValidLower(d);
    assert PERCENT in Lower(d) ==> PERCENT in d by {
      if PERCENT in Lower(d) {
        var i :| 0 <= i < |d| && Lower(d)[i] == PERCENT;
        assert d[i] == PERCENT;
      }
    }
    assert PERCENT in d ==> PERCENT in Lower(d) by {
      if PERCENT in d {
        var i :| 0 <= i < |d| && d[i] == PERCENT;
        assert Lower(d)[i] == PERCENT;
      }
    }
  }

  lemma FinishedLower(d: Text)
    ensures Finished(Lower(d)) == Finished(d)
  {
    assert Fold(Lower(d)) == Lower(Fold(d));
    ResolvedLower(Fold(d));
    LowerIdempotent(Resolved(Fold(d)));
  }

  /** A detour leaves the stack as it found it. */
  lemma DetourWalk(stack: seq<Text>, d: Detour)
    requires d.Aside? ==> Ordinary(d.segment) && SLASH !in d.segment
    ensures Walk(stack, Split(DetourText(d), SLASH)) == stack
  {
    match d
    case Nothing =>
      SplitAtom([], SLASH);
      WalkOne(stack, []);
    case Here =>
      SplitAtom(ONE_DOT, SLASH);
      WalkOne(stack, ONE_DOT);
    case Aside(x) =>
      SplitAtom(x, SLASH);
      SplitAtom(TWO_DOTS, SLASH);
      SplitAround(x, SLASH, TWO_DOTS);
      WalkConcat(stack, [x], [TWO_DOTS]);
      WalkOne(stack, x);
      WalkOne(stack + [x], TWO_DOTS);
      assert (stack + [x])[..|stack|] == stack;
  }

  lemma ResolvedInsert(a: Text, d: Detour, b: Text)
    requires d.Aside? ==> Ordinary(d.segment) && SLASH !in d.segment
    ensures Resolved(a + [SLASH] + DetourText(d) + [SLASH] + b) == Resolved(a + [SLASH] + b)
  {
    var m := DetourText(d);
    var sa, sm, sb := Split(a, SLASH), Split(m, SLASH), Split(b, SLASH);
    InsertSplits(a, m, b);
    WalkAround(sa, d, sb);
    SameEnd(sa, sm, sb);
    SameWalkResolved(a + [SLASH] + m + [SLASH] + b, a + [SLASH] + b);
  }

  lemma InsertSplits(a: Text, m: Text, b: Text)
    ensures Split(a + [SLASH] + b, SLASH) == Split(a, SLASH) + Split(b, SLASH)
    ensures Split(a + [SLASH] + m + [SLASH] + b, SLASH) == Split(a, SLASH) + Split(m, SLASH) + Split(b, SLASH)
  {
    SplitAround(a, SLASH, b);
    SplitAround(a, SLASH, m);
    SplitAround(a + [SLASH] + m, SLASH, b);
  }

  lemma SameEnd(sa: seq<Text>, sm: seq<Text>, sb: seq<Text>)
    requires sb != []
    ensures Last(sa + sm + sb) == Last(sa + sb) == Last(sb)
  {}

  /** `resolve` depends on where the walk ends and on the last segment. */
  lemma SameWalkResolved(p: Text, q: Text)
    requires Walk([], Split(p, SLASH)) == Walk([], Split(q, SLASH))
    requires Last(Split(p, SLASH)) == Last(Split(q, SLASH))
    ensures Resolved(p) == Resolved(q)
  {
    ResolvedRendered(p);
    ResolvedRendered(q);
  }

  /** The walk comes back from the detour to where it left. */
  lemma WalkAround(sa: seq<Text>, d: Detour, sb: seq<Text>)
    requires d.Aside? ==> Ordinary(d.segment) && SLASH !in d.segment
    ensures Walk([], sa + Split(DetourText(d), SLASH) + sb) == Walk([], sa + sb)
  {
    var sm := Split(DetourText(d), SLASH);
    WalkConcat([], sa, sb);
    WalkConcat([], sa + sm, sb);
    WalkConcat([], sa, sm);
    DetourWalk(Walk([], sa), d);
  }

  lemma InsertFinished(a: Text, d: Detour, b: Text)
    requires d.Aside? ==> Ordinary(d.segment) && PlainText(d.segment)
    ensures Finished(a + [SLASH] + DetourText(d) + [SLASH] + b) == Finished(a + [SLASH] + b)
    ensures Acceptable(a + [SLASH] + b) ==> Acceptable(a + [SLASH] + DetourText(d) + [SLASH] + b)
  {
    var m := DetourText(d);
    DetourPrintable(d);
    assert Fold(a + [SLASH] + m + [SLASH] + b) == Fold(a) + [SLASH] + m + [SLASH] + Fold(b);
    assert Fold(a + [SLASH] + b) == Fold(a) + [SLASH] + Fold(b);
    ResolvedInsert(Fold(a), d, Fold(b));
    Utf8.ValidAround(a, SLASH, b);
    Utf8.ValidAround(a, SLASH, m);
    Utf8.ValidAround(a + [SLASH] + m, SLASH, b);
  }

  lemma DetourPrintable(d: Detour)
    requires d.Aside? ==> PlainText(d.segment)
    ensures var m := DetourText(d);
      Utf8.Printable(m) && BACKSLASH !in m && PERCENT !in m && QUESTION !in m && HASH !in m
  {
    assert Utf8.Printable([]);
    Utf8.ValidAround([], DOT, []);
    assert [] + [DOT] + [] == ONE_DOT;
    Utf8.ValidAround(ONE_DOT, DOT, []);
    assert ONE_DOT + [DOT] + [] == TWO_DOTS;
    if d.Aside? { Utf8.ValidAround(d.segment, SLASH, TWO_DOTS); }
  }

  // --- Every rewrite leaves the normalised path alone ---

  lemma EncodeReads(path: Text, d: Text, rw: Rewrite)
    requires Reads(path, d) && rw.Encode? && Applies(path, rw)
    ensures Reads(RewrittenPath(path, rw), d)
  {
    var Encode(at, hi, lo) := rw;
    assert path == path[..at] + [path[at]] + path[at + 1..];
    EncodeDecoded(path[..at], path[at], path[at + 1..], hi, lo);
    var p := RewrittenPath(path, rw);
    assert p[0] == path[0] && p[..1] == [SLASH];
    assert hi != HASH && hi != QUESTION && lo != HASH && lo != QUESTION;
  }

  /** A byte that is no letter stands where it stood. */
  lemma CaselessByte(s: Text, t: Text, b: byte)
    requires Lower(s) == Lower(t) && b < 0x41
    ensures b in s ==> b in t
  {
    if b in s {
      var i :| 0 <= i < |s| && s[i] == b;
      assert Lower(s)[i] == b && Lower(t)[i] == b;
    }
  }

  lemma RecaseReads(path: Text, d: Text, other: Text) returns (e: Text)
    requires Reads(path, d) && Lower(other) == Lower(path)
    ensures Reads(other, e) && Finished(e) == Finished(d)
  {
    DecodedLower(path);
    DecodedLower(other);
    e := Decoded(other).value;
    AcceptableLower(d);
    AcceptableLower(e);
    FinishedLower(d);
    FinishedLower(e);
    CaselessByte(other, path, HASH);
    CaselessByte(other, path, QUESTION);
    assert Lower(other)[0] == Lower(path)[0] == SLASH;
    assert other[0] == SLASH && other[..1] == [SLASH];
  }

  lemma InsertReads(path: Text, d: Text, rw: Rewrite) returns (e: Text)
    requires Reads(path, d) && rw.Insert? && Applies(path, rw)
    ensures Reads(RewrittenPath(path, rw), e) && Finished(e) == Finished(d)
  {
    var a, m, b := path[..rw.after], DetourText(rw.detour), path[rw.after + 1..];
    assert path == a + [SLASH] + b;
    DetourPrintable(rw.detour);
    DecodedPlain(m);
    DecodedAround(a, SLASH, b);
    DecodedAround(a, SLASH, m);
    DecodedAround(a + [SLASH] + m, SLASH, b);
    var da, db := Decoded(a).value, Decoded(b).value;
    InsertFinished(da, rw.detour, db);
    e := da + [SLASH] + m + [SLASH] + db;
    var p := RewrittenPath(path, rw);
    assert p[0] == SLASH && p[..1] == [SLASH];
  }

  lemma BackslashReads(path: Text, d: Text, rw: Rewrite) returns (e: Text)
    requires Reads(path, d) && rw.Backslash? && Applies(path, rw)
    ensures Reads(RewrittenPath(path, rw), e) && Finished(e) == Finished(d)
  {
    var a, b := path[..rw.at], path[rw.at + 1..];
    assert path == a + [SLASH] + b;
    DecodedAround(a, SLASH, b);
    DecodedAround(a, BACKSLASH, b);
    var da, db := Decoded(a).value, Decoded(b).value;
    e := da + [BACKSLASH] + db;
    assert Fold(e) == Fold(d);
    Utf8.ValidAround(da, SLASH, db);
    Utf8.ValidAround(da, BACKSLASH, db);
    var p := RewrittenPath(path, rw);
    assert p[0] == path[0] && p[..1] == [SLASH];
  }

  lemma RewriteKeepsNormal(raw: Text, rw: Rewrite)
    requires Normalised(raw).Ok? && Applies(Before(raw, QUESTION), rw)
    ensures Normalised(Rewritten(raw, rw)) == Normalised(raw)
  {
    var path, query, d := NormalisedReads(raw);
    var e := d;
    match rw {
      case Encode(_, _, _) => EncodeReads(path, d, rw);
      case Recase(other) => e := RecaseReads(path, d, other);
      case Insert(_, _) => e := InsertReads(path, d, rw);
      case Backslash(_) => e := BackslashReads(path, d, rw);
    }
    ReadsNormalised(RewrittenPath(path, rw), query, e);
  }

  /** `to` is reached from `from` by these rewrites, in this order. */
  ghost predicate Reached(from: Text, rewrites: seq<Rewrite>, to: Text)
    decreases |rewrites|
  {
    if rewrites == [] then to == from
    else
      && Applies(Before(from, QUESTION), rewrites[0])
      && Reached(Rewritten(from, rewrites[0]), rewrites[1..], to)
  }

  lemma {:induction false} RewritesKeepNormal(from: Text, rewrites: seq<Rewrite>, to: Text)
    requires Normalised(from).Ok? && Reached(from, rewrites, to)
    ensures Normalised(to) == Normalised(from)
    decreases |rewrites|
  {
    if rewrites != [] {
      RewriteKeepsNormal(from, rewrites[0]);
      RewritesKeepNormal(Rewritten(from, rewrites[0]), rewrites[1..], to);
    }
  }

  /** A path written without `%`, `\` or `;`: the form an admin thinks in. */
  predicate Plain(raw: Text) {
    var path := Before(raw, QUESTION);
    PERCENT !in path && BACKSLASH !in path && SEMICOLON !in path
  }

  lemma PlainDecode(path: Text)
    requires PERCENT !in path && Utf8.Valid(path)
    ensures DecodeResolved(Resolved(path)) == Ok(Lower(Resolved(path)))
  {
    if PERCENT in Resolved(path) { ResolvedBytes(path, PERCENT); }
    DecodedPlain(Resolved(path));
    DecodedPlain(path);
    SoundResolved(path);
  }

  lemma {:induction false} UnparameteredPlain(path: Text)
    requires SEMICOLON !in path
    ensures Join(Unparametered(Split(path, SLASH)), SLASH) == path
  {
    var segs := Split(path, SLASH);
    JoinSplit(path, SLASH);
    forall i | 0 <= i < |segs| ensures Unparametered(segs)[i] == segs[i] {
      if SEMICOLON in segs[i] {
        JoinByte(segs, SLASH, segs[i], SEMICOLON);
      }
      BeforeAbsent(segs[i], SEMICOLON);
    }
    assert Unparametered(segs) == segs;
  }

  /** On a plain path the three readings are one. */
  lemma PlainReadings(raw: Text)
    requires Plain(raw) && Normalised(raw).Ok?
    ensures Readings(raw) == Ok([Normalised(raw).value, Normalised(raw).value, Normalised(raw).value])
  {
    var path := Before(raw, QUESTION);
    DecodedPlain(path);
    FoldPlain(path);
    PlainDecode(path);
    UnparameteredPlain(path);
  }

  /** The main result on the deny side. If a plainly written path is explicitly
      denied, so is every URI that any sequence of rewrites makes of it. */
  lemma DenySurvivesRewrites(
    enabled: bool, rules: seq<Rule>, now: int, from: Text, rewrites: seq<Rewrite>, to: Text)
    requires Plain(from)
    requires Decide(enabled, rules, from, now) == Decision.Deny(ExplicitDeny)
    requires Reached(from, rewrites, to)
    ensures Decide(enabled, rules, to, now) == Decision.Deny(ExplicitDeny)
  {
    DeniesExactly(enabled, rules, from, now);
    ReadingsExist(from);
    PlainReadings(from);
    RewritesKeepNormal(from, rewrites, to);
    ReadingsExist(to);
    assert Readings(to).value[0] in Readings(to).value;
    DeniesExactly(enabled, rules, to, now);
  }

  // --- Path parameters ---

  /** Text of a path parameter: a `;` inside it starts another one. */
  predicate ParamText(p: Text) {
    Utf8.Printable(p) && SLASH !in p && PERCENT !in p && QUESTION !in p && HASH !in p
  }

  /** Each segment with the parameters given for it. */
  function WithParams(segs: seq<Text>, params: seq<Option<Text>>): (r: seq<Text>)
    requires |params| == |segs|
    ensures |r| == |segs|
    ensures forall i :: 0 <= i < |segs| ==>
      r[i] == if params[i].Some? then segs[i] + [SEMICOLON] + params[i].value else segs[i]
  {
    seq(|segs|, i requires 0 <= i < |segs| =>
      if params[i].Some? then segs[i] + [SEMICOLON] + params[i].value else segs[i])
  }

  lemma ParamsCut(seg: Text, param: Option<Text>)
    requires SEMICOLON !in seg
    ensures Before(if param.Some? then seg + [SEMICOLON] + param.value else seg, SEMICOLON) == seg
  {
    if param.Some? {
      BeforeCut(seg, SEMICOLON, [SEMICOLON] + param.value);
      assert seg + [SEMICOLON] + param.value == seg + ([SEMICOLON] + param.value);
    } else {
      BeforeAbsent(seg, SEMICOLON);
    }
  }

  lemma WithParamsBare(segs: seq<Text>, params: seq<Option<Text>>)
    requires |params| == |segs|
    requires forall s :: s in segs ==> SEMICOLON !in s
    ensures Unparametered([[]] + WithParams(segs, params)) == [[]] + segs
  {
    var w := WithParams(segs, params);
    forall i | 0 <= i < |segs| ensures Before(w[i], SEMICOLON) == segs[i] {
      assert segs[i] in segs;
      ParamsCut(segs[i], params[i]);
    }
    assert Before([], SEMICOLON) == [];
    assert forall i :: 0 <= i < |segs| ==> ([[]] + w)[i + 1] == w[i];
  }

  ghost predicate ParamsOk(params: seq<Option<Text>>) {
    forall i :: 0 <= i < |params| && params[i].Some? ==> ParamText(params[i].value)
  }

  lemma WithParamsClean(segs: seq<Text>, params: seq<Option<Text>>, s: Text)
    requires |params| == |segs| && ParamsOk(params)
    requires forall s :: s in segs ==> ParamText(s)
    requires s in WithParams(segs, params)
    ensures ParamText(s)
  {
    var i :| 0 <= i < |segs| && WithParams(segs, params)[i] == s;
    assert segs[i] in segs;
    if params[i].Some? { Utf8.ValidAround(segs[i], SEMICOLON, params[i].value); }
  }

  /** Clean segments make an acceptable path, and conversely. */
  lemma SlashedReads(segs: seq<Text>)
    requires segs != [] && Atoms(segs, SLASH)
    ensures Reads(Slashed(segs), Slashed(segs)) <==> forall s :: s in segs ==> ParamText(s)
  {
    var path := Slashed(segs);
    SlashedJoin(segs);
    PrintableJoin(segs, SLASH);
    Utf8.ValidAround([], SLASH, Join(segs, SLASH));
    assert [] + [SLASH] + Join(segs, SLASH) == path;
    assert Utf8.Printable([]);
    if forall s :: s in segs ==> ParamText(s) {
      forall b: byte | b in path && (b == PERCENT || b == QUESTION || b == HASH) ensures false {
        var p := SlashedByte(segs, b);
      }
      DecodedPlain(path);
    }
    if Reads(path, path) {
      forall s | s in segs ensures ParamText(s) {
        forall b: byte | b in s && (b == PERCENT || b == QUESTION || b == HASH) ensures false {
          JoinByte(segs, SLASH, s, b);
        }
      }
    }
  }

  /** Parameters hide nothing either: appended to any segments of a plainly
      written, explicitly denied path, they leave it explicitly denied. */
  lemma DenySurvivesParams(
    enabled: bool, rules: seq<Rule>, now: int, segs: seq<Text>, params: seq<Option<Text>>, query: Text)
    requires segs != [] && Atoms(segs, SLASH) && |params| == |segs| && ParamsOk(params)
    requires query == [] || query[0] == QUESTION
    requires QUESTION !in Slashed(segs) && Plain(Slashed(segs) + query)
    requires Decide(enabled, rules, Slashed(segs) + query, now) == Decision.Deny(ExplicitDeny)
    ensures Decide(enabled, rules, Slashed(WithParams(segs, params)) + query, now)
         == Decision.Deny(ExplicitDeny)
  {
    var path, dressed := Slashed(segs), WithParams(segs, params);
    BeforeCut(path, QUESTION, query);
    DeniesExactly(enabled, rules, path + query, now);
    ReadingsExist(path + query);
    PlainReadings(path + query);
    DecodedPlain(path);
    assert Reads(path, path);
    SlashedReads(segs);
    forall s | s in dressed ensures ParamText(s) { WithParamsClean(segs, params, s); }
    SlashedReads(dressed);
    ReadsNormalised(Slashed(dressed), query, Slashed(dressed));
    ThirdReading(segs, params, query);
    assert Readings(Slashed(dressed) + query).value[2] in Readings(Slashed(dressed) + query).value;
    DeniesExactly(enabled, rules, Slashed(dressed) + query, now);
  }

  /** The third reading of the dressed path is the plain path's only one. */
  lemma BareSegments(segs: seq<Text>)
    requires segs != [] && SEMICOLON !in Slashed(segs)
    ensures forall s :: s in segs ==> SEMICOLON !in s
  {
    forall s | s in segs ensures SEMICOLON !in s {
      if SEMICOLON in s {
        JoinByte(segs, SLASH, s, SEMICOLON);
        SlashedJoin(segs);
      }
    }
  }

  lemma ThirdReading(segs: seq<Text>, params: seq<Option<Text>>, query: Text)
    requires segs != [] && Atoms(segs, SLASH) && |params| == |segs|
    requires query == [] || query[0] == QUESTION
    requires SEMICOLON !in Slashed(segs) && BACKSLASH !in Slashed(segs)
    requires Reads(Slashed(segs), Slashed(segs))
    requires Reads(Slashed(WithParams(segs, params)), Slashed(WithParams(segs, params)))
    requires Atoms(WithParams(segs, params), SLASH)
    ensures Readings(Slashed(WithParams(segs, params)) + query).Ok?
    ensures Normalised(Slashed(segs) + query).Ok?
    ensures Readings(Slashed(WithParams(segs, params)) + query).value[2]
         == Normalised(Slashed(segs) + query).value
  {
    var path, dressed := Slashed(segs), WithParams(segs, params);
    var raw := Slashed(dressed) + query;
    ReadsNormalised(path, query, path);
    ReadsNormalised(Slashed(dressed), query, Slashed(dressed));
    ReadingsExist(raw);
    SlashedSplit(dressed);
    SlashedSplit(segs);
    BareSegments(segs);
    WithParamsBare(segs, params);
    JoinSplit(path, SLASH);
    DecodedPlain(path);
    PlainDecode(path);
    FoldPlain(path);
  }
}
