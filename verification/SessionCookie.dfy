/** Which session a `Cookie` header (section 4.2.1 of RFC 6265) names, and the
    cache key made of it. */
module SessionCookie {
  import opened Prelude
  import opened TextOps

  /** `_oauth2_proxy` */
  const COOKIE_NAME: Text :=
    [0x5F, 0x6F, 0x61, 0x75, 0x74, 0x68, 0x32, 0x5F, 0x70, 0x72, 0x6F, 0x78, 0x79]

  datatype Ambiguous = Ambiguous

  /** ASCII white space: a header value reaches this code only if it is ASCII. */
  predicate IsSpace(b: byte) { 0x09 <= b <= 0x0D || b == 0x20 }

  function TrimStart(s: Text): Text {
    if s != [] && IsSpace(s[0]) then TrimStart(s[1..]) else s
  }

  function TrimTail(s: Text): Text {
    if s != [] && IsSpace(s[|s| - 1]) then TrimTail(s[..|s| - 1]) else s
  }

  function Trim(s: Text): Text { TrimTail(TrimStart(s)) }

  predicate Digits(s: Text) {
    forall i :: 0 <= i < |s| ==> 0x30 <= s[i] <= 0x39
  }

  /** `cookie.split_once('=')`, with the name trimmed. */
  function NameOf(cookie: Text): Option<Text> {
    if EQUALS in cookie then Some(Trim(Before(cookie, EQUALS))) else None
  }

  function ValueOf(cookie: Text): Text
    requires EQUALS in cookie
  {
    BeforeIsShort(cookie);
    cookie[|Before(cookie, EQUALS)| + 1..]
  }

  lemma BeforeIsShort(s: Text)
    requires EQUALS in s
    ensures |Before(s, EQUALS)| < |s|
  {}

  predicate IsPlain(cookie: Text) { NameOf(cookie) == Some(COOKIE_NAME) }

  predicate IsChunk(cookie: Text) {
    match NameOf(cookie)
    case None => false
    case Some(name) =>
      var prefix := COOKIE_NAME + [UNDERSCORE];
      StartsWith(name, prefix) && name[|prefix|..] != [] && Digits(name[|prefix|..])
  }

  /** The session cookie or a chunk of it. */
  predicate InFamily(cookie: Text) { IsPlain(cookie) || IsChunk(cookie) }

  // --- Cookies as they are printed ---

  /** The cookie name, letter by letter. */
  lemma CookieNameSpelled()
    ensures |COOKIE_NAME| == |"_oauth2_proxy"|
    ensures forall i :: 0 <= i < |COOKIE_NAME| ==> COOKIE_NAME[i] == "_oauth2_proxy"[i] as int
  {}

  ghost predicate AllSpace(s: Text) { forall i :: 0 <= i < |s| ==> IsSpace(s[i]) }

  /** A name as a header carries it: no `=`, and no white space at either end. */
  ghost predicate NameText(name: Text) {
    EQUALS !in name && (name != [] ==> !IsSpace(name[0]) && !IsSpace(name[|name| - 1]))
  }

  lemma {:induction false} TrimStartSpaces(pad: Text, s: Text)
    requires AllSpace(pad) && (s == [] || !IsSpace(s[0]))
    ensures TrimStart(pad + s) == s
  {
    if pad == [] {
      assert pad + s == s;
    } else {
      assert (pad + s)[1..] == pad[1..] + s;
      TrimStartSpaces(pad[1..], s);
    }
  }

  lemma {:induction false} TrimTailSpaces(s: Text, pad: Text)
    requires AllSpace(pad) && (s == [] || !IsSpace(s[|s| - 1]))
    ensures TrimTail(s + pad) == s
    decreases |pad|
  {
    if pad == [] {
      assert s + pad == s;
    } else {
      assert (s + pad)[..|s + pad| - 1] == s + pad[..|pad| - 1];
      TrimTailSpaces(s, pad[..|pad| - 1]);
    }
  }

  /** White space around a name comes off, and nothing else does. */
  lemma TrimExactly(left: Text, name: Text, right: Text)
    requires AllSpace(left) && AllSpace(right) && NameText(name)
    ensures Trim(left + name + right) == name
  {
    assert left + name + right == left + (name + right);
    if name == [] {
      assert left + name + right == (left + right) + [];
      TrimStartSpaces(left + right, []);
    } else {
      TrimStartSpaces(left, name + right);
      TrimTailSpaces(name, right);
    }
  }

  /** One cookie: white space, a name, more white space, `=` and a value. */
  function PrintedCookie(left: Text, name: Text, right: Text, value: Text): Text {
    left + name + right + [EQUALS] + value
  }

  /** The names of the family: the cookie name, and the cookie name with an
      underscore and a number behind it. */
  ghost predicate FamilyName(name: Text) {
    || name == COOKIE_NAME
    || exists number :: number != [] && Digits(number) && name == COOKIE_NAME + [UNDERSCORE] + number
  }

  /** A printed cookie has its name and its value, and is of the family exactly
      when its name is; the value may hold further `=`. */
  lemma PrintedCookieReads(left: Text, name: Text, right: Text, value: Text)
    requires AllSpace(left) && AllSpace(right) && NameText(name)
    ensures var cookie := PrintedCookie(left, name, right, value);
      && EQUALS in cookie && NameOf(cookie) == Some(name) && ValueOf(cookie) == value
      && (IsPlain(cookie) <==> name == COOKIE_NAME)
      && (InFamily(cookie) <==> FamilyName(name))
  {
    var cookie, head := PrintedCookie(left, name, right, value), left + name + right;
    assert cookie == head + ([EQUALS] + value);
    BeforeCut(head, EQUALS, [EQUALS] + value);
    TrimExactly(left, name, right);
    assert cookie[|head|] == EQUALS && cookie[|head| + 1..] == value;
    ChunkName(name);
  }

  lemma ChunkName(name: Text)
    ensures var prefix := COOKIE_NAME + [UNDERSCORE];
      (StartsWith(name, prefix) && name[|prefix|..] != [] && Digits(name[|prefix|..])) <==>
      exists number :: number != [] && Digits(number) && name == prefix + number
  {
    var prefix := COOKIE_NAME + [UNDERSCORE];
    if StartsWith(name, prefix) { assert name == prefix + name[|prefix|..]; }
    forall number | name == prefix + number ensures StartsWith(name, prefix) && name[|prefix|..] == number {}
  }

  /** The texts a predicate keeps, in order. */
  function Kept(texts: seq<Text>, keep: Text -> bool): seq<Text> {
    if texts == [] then []
    else (if keep(texts[0]) then [texts[0]] else []) + Kept(texts[1..], keep)
  }

  lemma {:induction false} KeptMembers(texts: seq<Text>, keep: Text -> bool)
    ensures forall c :: c in Kept(texts, keep) <==> c in texts && keep(c)
    decreases |texts|
  {
    if texts != [] {
      KeptMembers(texts[1..], keep);
      assert texts == [texts[0]] + texts[1..];
    }
  }

  function Family(cookies: seq<Text>): (r: seq<Text>)
    ensures forall c :: c in r <==> c in cookies && InFamily(c)
  {
    KeptMembers(cookies, InFamily);
    Kept(cookies, InFamily)
  }

  function CookiesOf(header: Option<Text>): seq<Text> {
    Split(match header case Some(h) => h case None => [], SEMICOLON)
  }

  /** What the family cookies of a request say. */
  function SessionOf(family: seq<Text>): Result<Option<Text>, Ambiguous>
    requires forall c :: c in family ==> InFamily(c)
  {
    if |family| > 1 then Err(Ambiguous)
    else if |family| == 1 && IsPlain(family[0]) then Ok(Some(ValueOf(family[0])))
    else Ok(None)
  }

  lemma KeptNext(keep: Text -> bool, before: seq<Text>, texts: seq<Text>, i: nat)
    requires i < |texts| && before + Kept(texts[i..], keep) == Kept(texts, keep)
    ensures keep(texts[i]) ==> (before + [texts[i]]) + Kept(texts[i + 1..], keep) == Kept(texts, keep)
    ensures !keep(texts[i]) ==> before + Kept(texts[i + 1..], keep) == Kept(texts, keep)
  {
    assert texts[i..][0] == texts[i] && texts[i..][1..] == texts[i + 1..];
    Regroup(before, [texts[i]], Kept(texts[i + 1..], keep));
  }

  lemma Regroup(a: seq<Text>, b: seq<Text>, c: seq<Text>)
    ensures (a + b) + c == a + (b + c)
    ensures [] + c == c
  {}

  /** The loop over the header, counting the family and keeping the plain one. */
  method FindSessionCookie(header: Option<Text>) returns (r: Result<Option<Text>, Ambiguous>)
    ensures r == SessionOf(Family(CookiesOf(header)))
  {
    var cookies := CookiesOf(header);
    var found: Option<Text> := None;
    var seen := 0;
    ghost var family: seq<Text> := [];
    var i := 0;
    while i < |cookies|
      invariant 0 <= i <= |cookies|
      invariant family + Family(cookies[i..]) == Family(cookies)
      invariant seen == |family|
      invariant forall c :: c in family ==> InFamily(c)
      invariant |family| <= 1 ==> SessionOf(family) == Ok(found)
    {
      var cookie := cookies[i];
      KeptNext(InFamily, family, cookies, i);
      i := i + 1;
      if EQUALS !in cookie { continue; }
      if IsPlain(cookie) || IsChunk(cookie) {
        seen := seen + 1;
        family := family + [cookie];
        if IsPlain(cookie) { found := Some(ValueOf(cookie)); }
        assert |family| == 1 ==> family[0] == cookie;
      }
    }
    assert family == Family(cookies);
    return if seen > 1 then Err(Ambiguous) else Ok(found);
  }

  function SessionCookieOf(header: Option<Text>): Result<Option<Text>, Ambiguous> {
    SessionOf(Family(CookiesOf(header)))
  }

  /** The i-th text is kept, and no other one. */
  ghost predicate OnlyKept(texts: seq<Text>, keep: Text -> bool, i: int) {
    && 0 <= i < |texts| && keep(texts[i])
    && forall j :: 0 <= j < |texts| && keep(texts[j]) ==> j == i
  }

  ghost predicate OnlyFamily(cookies: seq<Text>, i: int) { OnlyKept(cookies, InFamily, i) }

  lemma {:induction false} KeptCounts(texts: seq<Text>, keep: Text -> bool)
    ensures |Kept(texts, keep)| > 1 <==>
      exists i, j :: 0 <= i < j < |texts| && keep(texts[i]) && keep(texts[j])
    ensures forall i :: OnlyKept(texts, keep, i) ==> Kept(texts, keep) == [texts[i]]
    decreases |texts|
  {
    if texts != [] {
      var rest := texts[1..];
      KeptCounts(rest, keep);
      KeptMembers(rest, keep);
      assert forall k :: 0 <= k < |rest| ==> rest[k] == texts[k + 1];
      if keep(texts[0]) && Kept(rest, keep) != [] {
        assert Kept(rest, keep)[0] in rest && keep(Kept(rest, keep)[0]);
        var k :| 0 <= k < |rest| && rest[k] == Kept(rest, keep)[0];
        assert 0 < k + 1 < |texts| && keep(texts[k + 1]);
      }
      if |Kept(rest, keep)| > 1 {
        var i, j :| 0 <= i < j < |rest| && keep(rest[i]) && keep(rest[j]);
        assert keep(texts[i + 1]) && keep(texts[j + 1]);
      }
      forall i, j | 0 <= i < j < |texts| && keep(texts[i]) && keep(texts[j])
        ensures |Kept(texts, keep)| > 1
      {
        assert keep(rest[j - 1]) && rest[j - 1] in rest;
        if i > 0 { assert keep(rest[i - 1]); }
      }
      forall i | OnlyKept(texts, keep, i) ensures Kept(texts, keep) == [texts[i]] {
        if i == 0 {
          forall c | c in rest ensures !keep(c) {
            var k :| 0 <= k < |rest| && rest[k] == c;
            assert texts[k + 1] == c;
          }
          KeptNone(rest, keep);
        } else {
          forall j | 0 <= j < |rest| && keep(rest[j]) ensures j == i - 1 {
            assert texts[j + 1] == rest[j];
          }
          assert OnlyKept(rest, keep, i - 1);
        }
      }
    }
  }

  lemma KeptNone(texts: seq<Text>, keep: Text -> bool)
    ensures Kept(texts, keep) == [] <==> forall c :: c in texts ==> !keep(c)
  {
    KeptMembers(texts, keep);
    assert Kept(texts, keep) != [] ==> Kept(texts, keep)[0] in Kept(texts, keep);
  }

  /** A value comes out exactly when one cookie of the family is present and it
      carries the plain name; two or more are refused. */
  lemma SessionExactly(header: Option<Text>)
    ensures SessionCookieOf(header) == Err(Ambiguous) <==>
      exists i, j :: 0 <= i < j < |CookiesOf(header)|
        && InFamily(CookiesOf(header)[i]) && InFamily(CookiesOf(header)[j])
    ensures forall v :: SessionCookieOf(header) == Ok(Some(v)) <==>
      exists i :: OnlyFamily(CookiesOf(header), i)
        && IsPlain(CookiesOf(header)[i]) && ValueOf(CookiesOf(header)[i]) == v
  {
    var cookies := CookiesOf(header);
    KeptCounts(cookies, InFamily);
    if |Family(cookies)| == 1 {
      var c := Family(cookies)[0];
      assert c in cookies && InFamily(c);
      var i :| 0 <= i < |cookies| && cookies[i] == c;
      assert OnlyFamily(cookies, i) by {
        forall j | 0 <= j < |cookies| && InFamily(cookies[j]) ensures j == i {
          assert !(j < i) && !(i < j);
        }
      }
    }
  }

  datatype Pair = Pair(name: Text, value: Text)

  /** Names and values as a browser may send them. */
  ghost predicate PairsText(pairs: seq<Pair>) {
    forall i :: 0 <= i < |pairs| ==>
      NameText(pairs[i].name) && SEMICOLON !in pairs[i].name && SEMICOLON !in pairs[i].value
  }

  /** The cookies of a header, each after the first behind a space. */
  function PrintedPairs(pairs: seq<Pair>): (cookies: seq<Text>)
    ensures |cookies| == |pairs|
  {
    seq(|pairs|, i requires 0 <= i < |pairs| =>
      PrintedCookie(if i == 0 then [] else [0x20], pairs[i].name, [], pairs[i].value))
  }

  /** `name=value; name=value`, as a browser writes it. */
  function Header(pairs: seq<Pair>): Text { Join(PrintedPairs(pairs), SEMICOLON) }

  lemma HeaderSplits(pairs: seq<Pair>)
    requires pairs != [] && PairsText(pairs)
    ensures CookiesOf(Some(Header(pairs))) == PrintedPairs(pairs)
  {
    var cookies := PrintedPairs(pairs);
    forall c | c in cookies ensures SEMICOLON !in c {
      var i :| 0 <= i < |cookies| && cookies[i] == c;
    }
    SplitJoin(cookies, SEMICOLON);
  }

  /** The round trip through a header: the session is the value of the pair with
      the cookie name, provided no other pair has a name of the family; with two
      such names it is ambiguous, and with none, or one chunk, there is none. */
  lemma HeaderRoundTrip(pairs: seq<Pair>)
    requires pairs != [] && PairsText(pairs)
    ensures SessionCookieOf(Some(Header(pairs))) == Err(Ambiguous) <==>
      exists i, j :: 0 <= i < j < |pairs| && FamilyName(pairs[i].name) && FamilyName(pairs[j].name)
    ensures forall v :: SessionCookieOf(Some(Header(pairs))) == Ok(Some(v)) <==>
      exists i :: OnlySession(pairs, i) && pairs[i].value == v
  {
    var cookies := PrintedPairs(pairs);
    HeaderSplits(pairs);
    SessionExactly(Some(Header(pairs)));
    forall i | 0 <= i < |pairs|
      ensures InFamily(cookies[i]) <==> FamilyName(pairs[i].name)
      ensures IsPlain(cookies[i]) <==> pairs[i].name == COOKIE_NAME
      ensures IsPlain(cookies[i]) ==> ValueOf(cookies[i]) == pairs[i].value
    {
      PrintedCookieReads(if i == 0 then [] else [0x20], pairs[i].name, [], pairs[i].value);
    }
    forall i ensures OnlyFamily(cookies, i) && IsPlain(cookies[i]) <==> OnlySession(pairs, i) {}
  }

  /** The i-th pair is the session cookie, and no other is of its family. */
  ghost predicate OnlySession(pairs: seq<Pair>, i: int) {
    && 0 <= i < |pairs| && pairs[i].name == COOKIE_NAME
    && forall j :: 0 <= j < |pairs| && FamilyName(pairs[j].name) ==> j == i
  }

  /** Only the family cookies matter, and not their order: applications may set
      any others, anywhere in the header. */
  lemma OnlyTheFamilyMatters(a: Option<Text>, b: Option<Text>)
    requires multiset(Family(CookiesOf(a))) == multiset(Family(CookiesOf(b)))
    ensures SessionCookieOf(a) == SessionCookieOf(b)
  {
    var f, g := Family(CookiesOf(a)), Family(CookiesOf(b));
    assert |multiset(f)| == |f| && |multiset(g)| == |g|;
    if |f| == 1 {
      OneElement(f, g);
    }
  }

  lemma OneElement(f: seq<Text>, g: seq<Text>)
    requires |f| == 1 && multiset(f) == multiset(g)
    ensures f == g
  {
    assert |multiset(f)| == |multiset(g)| == |g|;
    assert f[0] in multiset(g);
  }

  lemma {:induction false} KeptConcat(a: seq<Text>, b: seq<Text>, keep: Text -> bool)
    ensures Kept(a + b, keep) == Kept(a, keep) + Kept(b, keep)
    decreases |a|
  {
    if a == [] {
      assert a + b == b;
    } else {
      assert (a + b)[1..] == a[1..] + b;
      KeptConcat(a[1..], b, keep);
    }
  }

  lemma {:induction false} KeptPermuted(a: seq<Text>, b: seq<Text>, keep: Text -> bool)
    requires multiset(a) == multiset(b)
    ensures multiset(Kept(a, keep)) == multiset(Kept(b, keep))
    decreases |a|
  {
    assert |multiset(a)| == |a| && |multiset(b)| == |b|;
    if a != [] {
      var k := RemoveOne(a, b);
      var before, after := b[..k], b[k + 1..];
      assert a == [a[0]] + a[1..];
      KeptPermuted(a[1..], before + after, keep);
      KeptConcat(before, after, keep);
      KeptConcat([a[0]], a[1..], keep);
      KeptConcat(before + [b[k]], after, keep);
      KeptConcat(before, [b[k]], keep);
    } else {
      assert b == [];
    }
  }

  /** The same, said of headers as lists of cookies: `more` holds the cookies of
      `some` and any number of strangers, in any order. */
  lemma StrangersDoNotMatter(some: seq<Text>, strangers: seq<Text>, more: seq<Text>)
    requires some != [] && Atoms(some, SEMICOLON) && Atoms(more, SEMICOLON)
    requires multiset(more) == multiset(some + strangers)
    requires forall c :: c in strangers ==> !InFamily(c)
    ensures SessionCookieOf(Some(Join(more, SEMICOLON))) == SessionCookieOf(Some(Join(some, SEMICOLON)))
  {
    assert |multiset(more)| == |more|;
    SplitJoin(some, SEMICOLON);
    SplitJoin(more, SEMICOLON);
    KeptPermuted(more, some + strangers, InFamily);
    KeptConcat(some, strangers, InFamily);
    KeptNone(strangers, InFamily);
    OnlyTheFamilyMatters(Some(Join(more, SEMICOLON)), Some(Join(some, SEMICOLON)));
  }

  // --- The cache key ---

  /** The cookie's SHA-256 stands for the cookie: the digest is taken to be
      injective, so the value itself is the key. */
  datatype Key = Key(cookie: Text, slug: Text)

  function KeyFor(header: Option<Text>, slug: Text): Option<Key> {
    match SessionCookieOf(header)
    case Ok(Some(value)) => Some(Key(value, slug))
    case _ => None
  }

  /** No session cookie, or more than one, is no key: two requests share one
      only if they present the same session for the same application. */
  lemma KeysAreSessions(a: Option<Text>, b: Option<Text>, slugA: Text, slugB: Text)
    requires KeyFor(a, slugA).Some?
    ensures KeyFor(a, slugA) == KeyFor(b, slugB) <==>
      slugA == slugB && SessionCookieOf(a) == SessionCookieOf(b)
    ensures exists i :: OnlyFamily(CookiesOf(a), i) && IsPlain(CookiesOf(a)[i])
  {
    SessionExactly(a);
    assert SessionCookieOf(a) == Ok(Some(KeyFor(a, slugA).value.cookie));
  }
}
