/** The authorisation decision: a raw request URI, the rules that apply to one
    user on one application, and the clock, in; allow or a named refusal, out. */
module Policy {
  import opened Prelude
  import opened TextOps
  import Utf8
  import Percent
  import Path

  datatype Effect = Allow | Deny

  datatype Rule = Rule(effect: Effect, pathPattern: Text, expiresAt: Option<int>)

  datatype Reason =
    | MalformedUri
    | ApplicationDisabled
    | ExplicitDeny
    | NoMatchingGrant
    | MissingContext
    | AmbiguousSession
    | StoreUnavailable
    | AuthUnavailable

  datatype Decision = Allow | Deny(reason: Reason)

  // --- One URI, normalised ---

  /** `\` read as the separator it is to some upstreams. */
  function Fold(s: Text): Text { Replace(s, BACKSLASH, SLASH) }

  /** What `normalise` demands of the decoded path. */
  predicate Acceptable(d: Text) {
    Utf8.Valid(d) && PERCENT !in d && !Utf8.HasControl(d)
  }

  function Finished(d: Text): Text { Lower(Path.Resolved(Fold(d))) }

  function Normalised(raw: Text): Result<Text, Reason> {
    var path := Before(raw, QUESTION);
    if !StartsWith(path, [SLASH]) || HASH in path then Err(MalformedUri)
    else
      match Percent.Decoded(path)
      case None => Err(MalformedUri)
      case Some(d) => if Acceptable(d) then Ok(Finished(d)) else Err(MalformedUri)
  }

  method LowerCopy(s: Text) returns (out: Text)
    ensures out == Lower(s)
  {
    var a := new byte[|s|](i requires 0 <= i < |s| => s[i]);
    assert a[..] == s;
    MakeAsciiLowercase(a);
    out := a[..];
  }

  method Normalise(raw: Text) returns (r: Result<Text, Reason>)
    ensures r == Normalised(raw)
  {
    var path := Before(raw, QUESTION);
    if !StartsWith(path, [SLASH]) || HASH in path { return Err(MalformedUri); }
    var decoded := Percent.PercentDecode(path);
    if decoded.None? || !Utf8.Valid(decoded.value) { return Err(MalformedUri); }
    if PERCENT in decoded.value { return Err(MalformedUri); }
    if Utf8.HasControl(decoded.value) { return Err(MalformedUri); }
    var resolved := Path.Resolve(Replace(decoded.value, BACKSLASH, SLASH));
    var out := LowerCopy(resolved);
    return Ok(out);
  }

  // --- The three readings ---

  /** Each segment up to its first `;`. */
  function Unparametered(segs: seq<Text>): (r: seq<Text>)
    ensures |r| == |segs|
    ensures forall i :: 0 <= i < |segs| ==> r[i] == Before(segs[i], SEMICOLON)
  {
    seq(|segs|, i requires 0 <= i < |segs| => Before(segs[i], SEMICOLON))
  }

  function DecodeResolved(resolved: Text): Result<Text, Reason> {
    match Percent.Decoded(resolved)
    case None => Err(MalformedUri)
    case Some(d) => if Utf8.Valid(d) then Ok(Lower(d)) else Err(MalformedUri)
  }

  /** Decode then resolve; resolve then decode; drop `;params`, resolve, decode. */
  function Readings(raw: Text): (r: Result<seq<Text>, Reason>)
    ensures r.Ok? ==> |r.value| == 3
  {
    var path := Before(raw, QUESTION);
    match Normalised(raw)
    case Err(e) => Err(e)
    case Ok(first) =>
      match DecodeResolved(Path.Resolved(path))
      case Err(e) => Err(e)
      case Ok(second) =>
        match DecodeResolved(Path.Resolved(Join(Unparametered(Split(path, SLASH)), SLASH)))
        case Err(e) => Err(e)
        case Ok(third) => Ok([first, second, third])
  }

  // --- Matching ---

  /** The pattern as it is compared: `*`s off the end, resolved, lower-cased,
      trailing slashes off. */
  function Base(pattern: Text): Text {
    TrimEnd(Lower(Path.Resolved(TrimEnd(pattern, STAR))), SLASH)
  }

  predicate Matches(pattern: Text, path: Text) {
    var base := Base(pattern);
    || base == []
    || path == base
    || (StartsWith(path, base) && StartsWith(path[|base|..], [SLASH]))
  }

  predicate Live(r: Rule, now: int) {
    r.expiresAt.None? || r.expiresAt.value > now
  }

  /** Some live rule with this effect matches the path. */
  predicate Fires(rules: seq<Rule>, effect: Effect, path: Text, now: int) {
    exists r :: r in rules && Live(r, now) && r.effect == effect && Matches(r.pathPattern, path)
  }

  function Verdict(denied: bool, allowed: bool): Decision {
    if denied then Decision.Deny(ExplicitDeny)
    else if allowed then Decision.Allow
    else Decision.Deny(NoMatchingGrant)
  }

  function DecidePath(rules: seq<Rule>, path: Text, now: int): Decision {
    Verdict(Fires(rules, Effect.Deny, path, now), Fires(rules, Effect.Allow, path, now))
  }

  // --- The decision ---

  function Find(ds: seq<Decision>, p: Decision -> bool): (r: Option<Decision>)
    ensures r.None? ==> forall d :: d in ds ==> !p(d)
    ensures r.Some? ==> r.value in ds && p(r.value)
  {
    if ds == [] then None
    else if p(ds[0]) then Some(ds[0])
    else Find(ds[1..], p)
  }

  /** An explicit deny under any reading, else the first refusal, else allow. */
  function Combined(ds: seq<Decision>): Decision {
    match Find(ds, d => d == Decision.Deny(ExplicitDeny))
    case Some(d) => d
    case None =>
      match Find(ds, d => d != Decision.Allow)
      case Some(d) => d
      case None => Decision.Allow
  }

  function DecideReadings(rules: seq<Rule>, paths: seq<Text>, now: int): Decision
    requires |paths| == 3
  {
    Combined([
      DecidePath(rules, paths[0], now), DecidePath(rules, paths[1], now), DecidePath(rules, paths[2], now)])
  }

  function Decide(enabled: bool, rules: seq<Rule>, raw: Text, now: int): Decision {
    match Readings(raw)
    case Err(reason) => Decision.Deny(reason)
    case Ok(paths) =>
      if !enabled then Decision.Deny(ApplicationDisabled)
      else DecideReadings(rules, paths, now)
  }

  // --- The trace ---

  datatype RuleTrace = RuleTrace(matched: bool, expired: bool)

  datatype Trace = Trace(decision: Decision, path: Option<Text>, rules: seq<RuleTrace>)

  function Explain(enabled: bool, rules: seq<Rule>, raw: Text, now: int): Trace {
    var path := match Normalised(raw) case Ok(p) => Some(p) case Err(_) => None;
    Trace(
      Decide(enabled, rules, raw, now),
      path,
      seq(|rules|, i requires 0 <= i < |rules| =>
        RuleTrace(
          path.Some? && Matches(rules[i].pathPattern, path.value),
          rules[i].expiresAt.Some? && rules[i].expiresAt.value <= now)))
  }
}
