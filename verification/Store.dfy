/** The two ways the rules of one user reach a decision: the query behind
    `/decide`, and the one joined query behind the portal. */
module Store {
  import opened Prelude
  import opened Policy

  datatype Subject = AdGroup(name: Text) | User(sub: Text)

  /** `applicationId` None is the wildcard: every application. */
  datatype Entitlement = Entitlement(applicationId: Option<nat>, subject: Subject, rule: Rule)

  datatype Application = Application(
    id: nat, slug: Text, name: Text, icon: Option<Text>, hostname: Text, enabled: bool)

  datatype Tables = Tables(applications: seq<Application>, entitlements: seq<Entitlement>)

  datatype Caller = Caller(sub: Text, groups: seq<Text>)

  /** The primary key and the unique slug of `application`. */
  ghost predicate Keyed(t: Tables) {
    forall i, j :: 0 <= i < j < |t.applications| ==>
      t.applications[i].id != t.applications[j].id && t.applications[i].slug != t.applications[j].slug
  }

  /** The shared `where` clause. */
  predicate Applicable(e: Entitlement, application: nat, who: Caller) {
    && (e.applicationId == Some(application) || e.applicationId.None?)
    && match e.subject
       case AdGroup(name) => name in who.groups
       case User(sub) => sub == who.sub
  }

  function RulesOf(es: seq<Entitlement>, application: nat, who: Caller): (r: seq<Rule>)
  {
    if es == [] then []
    else (if Applicable(es[0], application, who) then [es[0].rule] else []) + RulesOf(es[1..], application, who)
  }

  datatype AppRules = AppRules(id: nat, enabled: bool, rules: seq<Rule>)

  function FindBySlug(apps: seq<Application>, slug: Text): (r: Option<Application>)
    ensures r.Some? ==> r.value in apps && r.value.slug == slug
    ensures r.None? ==> forall a :: a in apps ==> a.slug != slug
  {
    if apps == [] then None
    else if apps[0].slug == slug then Some(apps[0])
    else FindBySlug(apps[1..], slug)
  }

  /** `rules_for`. The query leaves the row order open; this is one of them, and
      the decision does not depend on which (`PolicyLaws.PermutedRulesDecide`). */
  function RulesFor(t: Tables, slug: Text, who: Caller): Option<AppRules> {
    match FindBySlug(t.applications, slug)
    case None => None
    case Some(app) => Some(AppRules(app.id, app.enabled, RulesOf(t.entitlements, app.id, who)))
  }

  /** What a cache entry is filled with. */
  datatype Loaded = Loaded(applicationId: Option<nat>, enabled: bool, rules: seq<Rule>)

  /** `load`: a slug with no row decides like a disabled application. */
  function Load(t: Tables, slug: Text, who: Caller): Loaded {
    match RulesFor(t, slug, who)
    case Some(app) => Loaded(Some(app.id), app.enabled, app.rules)
    case None => Loaded(None, false, [])
  }

  /** Two fills that cannot be told apart at this moment: rules that have expired
      may have come and gone, and live ones may be listed otherwise. */
  ghost predicate SameForNow(a: Loaded, b: Loaded, now: int) {
    a.enabled == b.enabled && forall r :: Live(r, now) ==> (r in a.rules <==> r in b.rules)
  }
}

/** The portal: one LEFT JOIN, a fold that groups its rows, and a filter. */
module Portal {
  import opened Prelude
  import opened Policy
  import PolicyLaws
  import opened Store

  /** A row of the join: an application, and a rule that applies or none. */
  datatype Row = Row(slug: Text, name: Text, icon: Option<Text>, hostname: Text, rule: Option<Rule>)

  datatype PortalApp = PortalApp(slug: Text, name: Text, icon: Option<Text>, hostname: Text, rules: seq<Rule>)

  /** The rows of one application: one a matching rule, or one without. */
  function RowsOf(app: Application, rules: seq<Rule>): (r: seq<Row>)
    ensures |r| >= 1
    ensures forall x :: x in r ==> x.slug == app.slug && x.name == app.name
  {
    if |rules| == 0 then [Row(app.slug, app.name, app.icon, app.hostname, None)]
    else if |rules| == 1 then [Row(app.slug, app.name, app.icon, app.hostname, Some(rules[0]))]
    else [Row(app.slug, app.name, app.icon, app.hostname, Some(rules[0]))] + RowsOf(app, rules[1..])
  }

  /** Every row of the join, before it is ordered. */
  function Joined(apps: seq<Application>, es: seq<Entitlement>, who: Caller): seq<Row> {
    if apps == [] then []
    else
      var head := if apps[0].enabled then RowsOf(apps[0], RulesOf(es, apps[0].id, who)) else [];
      head + Joined(apps[1..], es, who)
  }

  /** A total order on (name, slug), whatever the collation of the database. */
  ghost predicate Ordering(le: ((Text, Text), (Text, Text)) -> bool) {
    && (forall a, b :: le(a, b) || le(b, a))
    && (forall a, b :: le(a, b) && le(b, a) ==> a == b)
    && (forall a, b, c :: le(a, b) && le(b, c) ==> le(a, c))
  }

  /** A possible answer of the query: the joined rows in some order that
      respects `order by a.name, a.slug`. */
  ghost predicate Answer(rows: seq<Row>, t: Tables, who: Caller, le: ((Text, Text), (Text, Text)) -> bool) {
    && multiset(rows) == multiset(Joined(t.applications, t.entitlements, who))
    && forall i, j :: 0 <= i < j < |rows| ==>
         le((rows[i].name, rows[i].slug), (rows[j].name, rows[j].slug))
  }

  function RuleUnder(row: Row, slug: Text): seq<Rule> {
    if row.slug == slug && row.rule.Some? then [row.rule.value] else []
  }

  function RulesIn(rows: seq<Row>, slug: Text): seq<Rule> {
    if rows == [] then []
    else RulesIn(rows[..|rows| - 1], slug) + RuleUnder(rows[|rows| - 1], slug)
  }

  /** Rows of one application stand next to each other. */
  ghost predicate Contiguous(rows: seq<Row>) {
    forall i, j, k :: 0 <= i < j < k < |rows| && rows[i].slug == rows[k].slug ==> rows[j].slug == rows[i].slug
  }

  predicate Describes(r: Row, a: PortalApp) {
    r.slug == a.slug && r.name == a.name && r.icon == a.icon && r.hostname == a.hostname
  }

  // What the fold has made of the rows so far.

  ghost predicate OneEach(apps: seq<PortalApp>) {
    forall i, j :: 0 <= i < j < |apps| ==> apps[i].slug != apps[j].slug
  }

  ghost predicate FromSome(a: PortalApp, rows: seq<Row>) { exists r :: r in rows && Describes(r, a) }

  ghost predicate FromRows(apps: seq<PortalApp>, rows: seq<Row>) {
    forall i :: 0 <= i < |apps| ==> FromSome(apps[i], rows)
  }

  ghost predicate HasEntry(apps: seq<PortalApp>, slug: Text) {
    exists i :: 0 <= i < |apps| && apps[i].slug == slug
  }

  ghost predicate Covers(apps: seq<PortalApp>, rows: seq<Row>) {
    forall r :: r in rows ==> HasEntry(apps, r.slug)
  }

  ghost predicate RulesRight(apps: seq<PortalApp>, rows: seq<Row>) {
    forall i :: 0 <= i < |apps| ==> apps[i].rules == RulesIn(rows, apps[i].slug)
  }

  ghost predicate Folded(apps: seq<PortalApp>, rows: seq<Row>) {
    OneEach(apps) && FromRows(apps, rows) && Covers(apps, rows) && RulesRight(apps, rows)
  }

  predicate StartsApp(apps: seq<PortalApp>, row: Row) {
    apps == [] || apps[|apps| - 1].slug != row.slug
  }

  /** The fold by one row: open an application at a new slug, then push. */
  function Stepped(apps: seq<PortalApp>, row: Row): seq<PortalApp> {
    var grown := if StartsApp(apps, row)
      then apps + [PortalApp(row.slug, row.name, row.icon, row.hostname, [])] else apps;
    var last := grown[|grown| - 1];
    if row.rule.Some? then grown[..|grown| - 1] + [last.(rules := last.rules + [row.rule.value])] else grown
  }

  lemma SteppedShape(apps: seq<PortalApp>, row: Row)
    ensures var after := Stepped(apps, row);
      && |after| == |apps| + (if StartsApp(apps, row) then 1 else 0)
      && (forall k :: 0 <= k < |after| - 1 ==> after[k] == apps[k])
      && var last := after[|after| - 1];
         && last.slug == row.slug
         && last.rules == (if StartsApp(apps, row) then [] else apps[|apps| - 1].rules) + RuleUnder(row, row.slug)
         && (if StartsApp(apps, row) then Describes(row, last)
             else last == apps[|apps| - 1].(rules := last.rules))
  {}

  /** The row's slug is either the one being filled or one never seen. */
  ghost predicate InOrder(apps: seq<PortalApp>, seen: seq<Row>, row: Row) {
    StartsApp(apps, row) ==> forall r :: r in seen ==> r.slug != row.slug
  }

  lemma {:induction false} RulesInNone(rows: seq<Row>, slug: Text)
    requires forall r :: r in rows ==> r.slug != slug
    ensures RulesIn(rows, slug) == []
  {
    if rows != [] {
      assert rows[|rows| - 1] in rows;
      RulesInNone(rows[..|rows| - 1], slug);
    }
  }

  lemma StepFromRows(apps: seq<PortalApp>, seen: seq<Row>, row: Row)
    requires FromRows(apps, seen)
    ensures FromRows(Stepped(apps, row), seen + [row])
  {
    var after, next := Stepped(apps, row), seen + [row];
    SteppedShape(apps, row);
    forall i | 0 <= i < |after| ensures FromSome(after[i], next) {
      if i == |after| - 1 && StartsApp(apps, row) {
        assert row in next && Describes(row, after[i]);
      } else {
        assert FromSome(apps[i], seen);
        var r :| r in seen && Describes(r, apps[i]);
        assert r in next && Describes(r, after[i]);
      }
    }
  }

  lemma StepCovers(apps: seq<PortalApp>, seen: seq<Row>, row: Row)
    requires Covers(apps, seen)
    ensures Covers(Stepped(apps, row), seen + [row])
  {
    var after, next := Stepped(apps, row), seen + [row];
    SteppedShape(apps, row);
    forall r | r in next ensures HasEntry(after, r.slug) {
      if r in seen {
        var i :| 0 <= i < |apps| && apps[i].slug == r.slug;
        assert after[i].slug == r.slug;
      } else {
        assert after[|after| - 1].slug == r.slug;
      }
    }
  }

  lemma StepOneEach(apps: seq<PortalApp>, seen: seq<Row>, row: Row)
    requires OneEach(apps) && FromRows(apps, seen) && InOrder(apps, seen, row)
    ensures OneEach(Stepped(apps, row))
  {
    SteppedShape(apps, row);
    if StartsApp(apps, row) {
      forall i | 0 <= i < |apps| ensures apps[i].slug != row.slug {
        assert FromSome(apps[i], seen);
        var r :| r in seen && Describes(r, apps[i]);
      }
    }
  }

  lemma StepRules(apps: seq<PortalApp>, seen: seq<Row>, row: Row)
    requires OneEach(apps) && FromRows(apps, seen) && RulesRight(apps, seen) && InOrder(apps, seen, row)
    ensures RulesRight(Stepped(apps, row), seen + [row])
  {
    var after, next := Stepped(apps, row), seen + [row];
    SteppedShape(apps, row);
    assert next[..|seen|] == seen;
    forall i | 0 <= i < |after| ensures after[i].rules == RulesIn(next, after[i].slug) {
      assert RulesIn(next, after[i].slug) == RulesIn(seen, after[i].slug) + RuleUnder(row, after[i].slug);
      if i == |after| - 1 {
        if StartsApp(apps, row) { RulesInNone(seen, row.slug); }
      } else {
        assert FromSome(apps[i], seen);
        var r :| r in seen && Describes(r, apps[i]);
        assert after[i].slug != row.slug;
      }
    }
  }

  /** The fold, from the last row back. */
  function Grouped(rows: seq<Row>): seq<PortalApp> {
    if rows == [] then [] else Stepped(Grouped(rows[..|rows| - 1]), rows[|rows| - 1])
  }

  /** The loop of `portal_apps`. */
  method PortalApps(rows: seq<Row>) returns (apps: seq<PortalApp>)
    ensures apps == Grouped(rows)
  {
    apps := [];
    var i := 0;
    while i < |rows|
      invariant 0 <= i <= |rows|
      invariant apps == Grouped(rows[..i])
    {
      var row := rows[i];
      ghost var before := apps;
      GroupedNext(rows, i);
      if |apps| == 0 || apps[|apps| - 1].slug != row.slug {
        apps := apps + [PortalApp(row.slug, row.name, row.icon, row.hostname, [])];
      }
      if row.rule.Some? {
        var last := apps[|apps| - 1];
        apps := apps[..|apps| - 1] + [last.(rules := last.rules + [row.rule.value])];
      }
      assert apps == Stepped(before, row);
      i := i + 1;
    }
    assert rows[..|rows|] == rows;
  }

  lemma GroupedNext(rows: seq<Row>, i: nat)
    requires i < |rows|
    ensures Grouped(rows[..i + 1]) == Stepped(Grouped(rows[..i]), rows[i])
  {
    assert rows[..i + 1][..i] == rows[..i];
  }

  lemma StepFolds(apps: seq<PortalApp>, seen: seq<Row>, row: Row)
    requires Folded(apps, seen) && InOrder(apps, seen, row)
    ensures Folded(Stepped(apps, row), seen + [row])
  {
    StepOneEach(apps, seen, row);
    StepFromRows(apps, seen, row);
    StepCovers(apps, seen, row);
    StepRules(apps, seen, row);
  }

  ghost predicate EndsWithRow(apps: seq<PortalApp>, rows: seq<Row>) {
    if rows == [] then apps == []
    else apps != [] && apps[|apps| - 1].slug == rows[|rows| - 1].slug
  }

  /** Contiguous rows fold into one entry an application. */
  lemma {:induction false} GroupedFolds(rows: seq<Row>)
    requires Contiguous(rows)
    ensures Folded(Grouped(rows), rows)
    ensures EndsWithRow(Grouped(rows), rows)
    decreases |rows|
  {
    if rows != [] {
      var n := |rows| - 1;
      ContiguousPrefix(rows);
      GroupedFolds(rows[..n]);
      NextInOrder(rows);
      NextFolds(rows, rows[..n], rows[n]);
    }
  }

  lemma NextFolds(rows: seq<Row>, seen: seq<Row>, row: Row)
    requires rows == seen + [row]
    requires Folded(Grouped(seen), seen) && InOrder(Grouped(seen), seen, row)
    ensures Folded(Grouped(rows), rows)
    ensures EndsWithRow(Grouped(rows), rows)
  {
    assert rows[..|seen|] == seen;
    StepFolds(Grouped(seen), seen, row);
    SteppedShape(Grouped(seen), row);
  }

  lemma ContiguousPrefix(rows: seq<Row>)
    requires rows != [] && Contiguous(rows)
    ensures Contiguous(rows[..|rows| - 1])
  {
    var s := rows[..|rows| - 1];
    assert forall i :: 0 <= i < |s| ==> s[i] == rows[i];
  }

  lemma NextInOrder(rows: seq<Row>)
    requires rows != [] && Contiguous(rows)
    requires EndsWithRow(Grouped(rows[..|rows| - 1]), rows[..|rows| - 1])
    ensures InOrder(Grouped(rows[..|rows| - 1]), rows[..|rows| - 1], rows[|rows| - 1])
  {
    NewSlug(rows, |rows| - 1);
  }

  /** A slug other than the last one has not been seen before. */
  lemma NewSlug(rows: seq<Row>, i: nat)
    requires Contiguous(rows) && i < |rows|
    ensures i > 0 && rows[i - 1].slug != rows[i].slug ==> forall r :: r in rows[..i] ==> r.slug != rows[i].slug
  {
    assert forall k :: 0 <= k < i - 1 && rows[k].slug == rows[i].slug ==> rows[i - 1].slug == rows[k].slug;
  }

  // --- From the join to the fold ---

  lemma {:induction false} RulesInConcat(a: seq<Row>, b: seq<Row>, slug: Text)
    ensures RulesIn(a + b, slug) == RulesIn(a, slug) + RulesIn(b, slug)
    decreases |b|
  {
    if b == [] {
      assert a + b == a;
    } else {
      assert (a + b)[..|a + b| - 1] == a + b[..|b| - 1];
      RulesInConcat(a, b[..|b| - 1], slug);
    }
  }

  lemma {:induction false} RulesInPermuted(a: seq<Row>, b: seq<Row>, slug: Text)
    requires multiset(a) == multiset(b)
    ensures multiset(RulesIn(a, slug)) == multiset(RulesIn(b, slug))
    decreases |a|
  {
    assert |multiset(a)| == |a| && |multiset(b)| == |b|;
    if a != [] {
      var k := RemoveOne(a, b);
      var before, after := b[..k], b[k + 1..];
      assert a == [a[0]] + a[1..];
      RulesInPermuted(a[1..], before + after, slug);
      RulesInConcat(before, after, slug);
      RulesInConcat([a[0]], a[1..], slug);
      RulesInConcat(before + [b[k]], after, slug);
      RulesInConcat(before, [b[k]], slug);
    } else {
      assert b == [];
    }
  }

  lemma {:induction false} RulesInRowsOf(app: Application, rules: seq<Rule>)
    ensures RulesIn(RowsOf(app, rules), app.slug) == rules
    decreases |rules|
  {
    if |rules| == 0 {
      OneRow(Row(app.slug, app.name, app.icon, app.hostname, None), app.slug);
    } else {
      var first := Row(app.slug, app.name, app.icon, app.hostname, Some(rules[0]));
      OneRow(first, app.slug);
      assert rules == [rules[0]] + rules[1..];
      if |rules| > 1 {
        RulesInRowsOf(app, rules[1..]);
        RulesInConcat([first], RowsOf(app, rules[1..]), app.slug);
      }
    }
  }

  lemma OneRow(r: Row, slug: Text)
    ensures RulesIn([r], slug) == RuleUnder(r, slug)
  {
    assert [r][..0] == [];
  }

  ghost predicate DistinctSlugs(apps: seq<Application>) {
    forall i, j :: 0 <= i < j < |apps| ==> apps[i].slug != apps[j].slug
  }

  /** A joined row comes from the enabled application with its slug. */
  lemma {:induction false} JoinedRow(apps: seq<Application>, es: seq<Entitlement>, who: Caller, r: Row)
    returns (app: Application)
    requires r in Joined(apps, es, who)
    ensures app in apps && app.enabled
    ensures r.slug == app.slug && r.name == app.name && r.icon == app.icon && r.hostname == app.hostname
  {
    if apps[0].enabled && r in RowsOf(apps[0], RulesOf(es, apps[0].id, who)) {
      app := apps[0];
      RowsOfRow(app, RulesOf(es, app.id, who), r);
    } else {
      app := JoinedRow(apps[1..], es, who, r);
    }
  }

  lemma RowsOfRow(app: Application, rules: seq<Rule>, r: Row)
    requires r in RowsOf(app, rules)
    ensures r.icon == app.icon && r.hostname == app.hostname
    decreases |rules|
  {
    if |rules| > 1 && r in RowsOf(app, rules[1..]) { RowsOfRow(app, rules[1..], r); }
  }

  lemma RestHasOtherSlugs(apps: seq<Application>, es: seq<Entitlement>, who: Caller)
    requires apps != [] && DistinctSlugs(apps)
    ensures forall r :: r in Joined(apps[1..], es, who) ==> r.slug != apps[0].slug
  {
    forall r | r in Joined(apps[1..], es, who) ensures r.slug != apps[0].slug {
      var other := JoinedRow(apps[1..], es, who, r);
      var k :| 0 <= k < |apps[1..]| && apps[1..][k] == other;
      assert apps[k + 1] == other;
    }
  }

  /** The join holds the rules of an enabled application, all of them, under its
      slug and no other. */
  lemma {:induction false} JoinedRules(apps: seq<Application>, es: seq<Entitlement>, who: Caller, app: Application)
    requires DistinctSlugs(apps) && app in apps && app.enabled
    ensures RulesIn(Joined(apps, es, who), app.slug) == RulesOf(es, app.id, who)
    ensures exists r :: r in Joined(apps, es, who) && r.slug == app.slug
  {
    var rest := Joined(apps[1..], es, who);
    var head := if apps[0].enabled then RowsOf(apps[0], RulesOf(es, apps[0].id, who)) else [];
    assert Joined(apps, es, who) == head + rest;
    RulesInConcat(head, rest, app.slug);
    if app == apps[0] {
      RulesInRowsOf(app, RulesOf(es, app.id, who));
      RestHasOtherSlugs(apps, es, who);
      RulesInNone(rest, app.slug);
      assert head[0] in head && head[0].slug == app.slug;
    } else {
      var k :| 0 <= k < |apps| && apps[k] == app;
      assert k > 0 && apps[1..][k - 1] == app;
      JoinedRules(apps[1..], es, who, app);
      var r :| r in rest && r.slug == app.slug;
      assert r in head + rest;
      RulesInNone(head, app.slug);
    }
  }

  lemma DistinctSame(apps: seq<Application>, a: Application, b: Application)
    requires DistinctSlugs(apps) && a in apps && b in apps && a.slug == b.slug
    ensures a == b
  {
    var i :| 0 <= i < |apps| && apps[i] == a;
    var j :| 0 <= j < |apps| && apps[j] == b;
    assert !(i < j) && !(j < i);
  }

  /** The ordering keeps the rows of an application together: slugs are unique,
      so a slug fixes the name. */
  lemma AnswerContiguous(rows: seq<Row>, t: Tables, who: Caller, le: ((Text, Text), (Text, Text)) -> bool)
    requires Keyed(t) && Ordering(le) && Answer(rows, t, who, le)
    ensures Contiguous(rows)
  {
    var joined := Joined(t.applications, t.entitlements, who);
    forall i, j, k | 0 <= i < j < k < |rows| && rows[i].slug == rows[k].slug
      ensures rows[j].slug == rows[i].slug
    {
      assert rows[i] in multiset(rows) && rows[k] in multiset(rows);
      assert rows[i] in joined && rows[k] in joined;
      var a := JoinedRow(t.applications, t.entitlements, who, rows[i]);
      var c := JoinedRow(t.applications, t.entitlements, who, rows[k]);
      DistinctSame(t.applications, a, c);
      var pi, pj := (rows[i].name, rows[i].slug), (rows[j].name, rows[j].slug);
      assert le(pi, pj) && le(pj, (rows[k].name, rows[k].slug));
    }
  }

  /** The portal entry of an application: its own fields, and the rules the
      decision path would be given for it, in some order. */
  ghost predicate Shows(a: PortalApp, app: Application, t: Tables, who: Caller) {
    && app.enabled
    && app.slug == a.slug && app.name == a.name && app.icon == a.icon && app.hostname == a.hostname
    && Load(t, a.slug, who).enabled
    && multiset(a.rules) == multiset(Load(t, a.slug, who).rules)
  }

  ghost predicate ShowsSome(a: PortalApp, t: Tables, who: Caller) {
    exists app :: app in t.applications && Shows(a, app, t, who)
  }

  lemma AnswerRows(rows: seq<Row>, t: Tables, who: Caller, le: ((Text, Text), (Text, Text)) -> bool, r: Row)
    requires Answer(rows, t, who, le)
    ensures r in rows <==> r in Joined(t.applications, t.entitlements, who)
  {
    assert r in rows <==> r in multiset(rows);
    var joined := Joined(t.applications, t.entitlements, who);
    assert r in joined <==> r in multiset(joined);
  }

  /** Every portal entry is that of an enabled application. */
  lemma EntryShows(
    rows: seq<Row>, apps: seq<PortalApp>, t: Tables, who: Caller,
    le: ((Text, Text), (Text, Text)) -> bool, i: int) returns (app: Application)
    requires Keyed(t) && Answer(rows, t, who, le) && Folded(apps, rows) && 0 <= i < |apps|
    ensures app in t.applications && Shows(apps[i], app, t, who)
  {
    var joined := Joined(t.applications, t.entitlements, who);
    assert FromRows(apps, rows) && FromSome(apps[i], rows);
    var r :| r in rows && Describes(r, apps[i]);
    AnswerRows(rows, t, who, le, r);
    app := JoinedRow(t.applications, t.entitlements, who, r);
    JoinedRules(t.applications, t.entitlements, who, app);
    RulesInPermuted(rows, joined, app.slug);
    DistinctSame(t.applications, app, FindBySlug(t.applications, app.slug).value);
  }

  /** Every enabled application has a portal entry. */
  lemma EnabledHasEntry(
    rows: seq<Row>, apps: seq<PortalApp>, t: Tables, who: Caller,
    le: ((Text, Text), (Text, Text)) -> bool, app: Application) returns (i: int)
    requires Keyed(t) && Answer(rows, t, who, le) && Folded(apps, rows)
    requires app in t.applications && app.enabled
    ensures 0 <= i < |apps| && apps[i].slug == app.slug
  {
    JoinedRules(t.applications, t.entitlements, who, app);
    var r :| r in Joined(t.applications, t.entitlements, who) && r.slug == app.slug;
    AnswerRows(rows, t, who, le, r);
    assert Covers(apps, rows);
    assert HasEntry(apps, r.slug);
    i :| 0 <= i < |apps| && apps[i].slug == r.slug;
  }

  /** Whatever order the rows come in: each enabled application once, with its
      own fields and the rules of the decision path, and nothing else. */
  lemma PortalIsExact(rows: seq<Row>, t: Tables, who: Caller, le: ((Text, Text), (Text, Text)) -> bool)
    requires Keyed(t) && Ordering(le) && Answer(rows, t, who, le)
    ensures OneEach(Grouped(rows))
    ensures forall i :: 0 <= i < |Grouped(rows)| ==> ShowsSome(Grouped(rows)[i], t, who)
    ensures forall app :: app in t.applications && app.enabled ==> HasEntry(Grouped(rows), app.slug)
  {
    var apps := Grouped(rows);
    AnswerContiguous(rows, t, who, le);
    GroupedFolds(rows);
    forall i | 0 <= i < |apps| ensures ShowsSome(apps[i], t, who) {
      var app := EntryShows(rows, apps, t, who, le, i);
    }
    forall app | app in t.applications && app.enabled ensures HasEntry(apps, app.slug) {
      var i := EnabledHasEntry(rows, apps, t, who, le, app);
    }
  }

  // --- What the portal lists ---

  const ROOT: Text := [SLASH]

  /** The handler's filter: applications whose root the caller may open. */
  function Listed(apps: seq<PortalApp>, now: int): (r: seq<PortalApp>)
    ensures forall a :: a in r <==> a in apps && Decide(true, a.rules, ROOT, now) == Decision.Allow
  {
    if apps == [] then []
    else
      var here := if Decide(true, apps[0].rules, ROOT, now) == Decision.Allow then [apps[0]] else [];
      here + Listed(apps[1..], now)
  }

  /** The portal and the decision path agree about every slug there is: listed
      exactly when `/decide` would allow the root. */
  lemma PortalAgrees(
    rows: seq<Row>, t: Tables, who: Caller, le: ((Text, Text), (Text, Text)) -> bool, now: int, slug: Text)
    requires Keyed(t) && Ordering(le) && Answer(rows, t, who, le)
    ensures (exists a :: a in Listed(Grouped(rows), now) && a.slug == slug) <==>
      Decide(Load(t, slug, who).enabled, Load(t, slug, who).rules, ROOT, now) == Decision.Allow
  {
    var loaded, apps := Load(t, slug, who), Grouped(rows);
    AnswerContiguous(rows, t, who, le);
    GroupedFolds(rows);
    forall a | a in Listed(apps, now) && a.slug == slug
      ensures Decide(loaded.enabled, loaded.rules, ROOT, now) == Decision.Allow
    {
      var i :| 0 <= i < |apps| && apps[i] == a;
      var app := EntryShows(rows, apps, t, who, le, i);
      PolicyLaws.PermutedRulesDecide(true, a.rules, loaded.rules, ROOT, now);
    }
    if Decide(loaded.enabled, loaded.rules, ROOT, now) == Decision.Allow {
      AllowedIsListed(rows, t, who, le, now, slug);
    }
  }

  lemma AllowedIsListed(
    rows: seq<Row>, t: Tables, who: Caller, le: ((Text, Text), (Text, Text)) -> bool, now: int, slug: Text)
    requires Keyed(t) && Ordering(le) && Answer(rows, t, who, le)
    requires Decide(Load(t, slug, who).enabled, Load(t, slug, who).rules, ROOT, now) == Decision.Allow
    ensures exists a :: a in Listed(Grouped(rows), now) && a.slug == slug
  {
    var loaded, apps := Load(t, slug, who), Grouped(rows);
    AnswerContiguous(rows, t, who, le);
    GroupedFolds(rows);
    PolicyLaws.AllowsExactly(loaded.enabled, loaded.rules, ROOT, now);
    var app := FindBySlug(t.applications, slug).value;
    var i := EnabledHasEntry(rows, apps, t, who, le, app);
    var shown := EntryShows(rows, apps, t, who, le, i);
    PolicyLaws.PermutedRulesDecide(true, apps[i].rules, loaded.rules, ROOT, now);
    assert apps[i] in Listed(apps, now);
  }
}

/** Which rules a load returns, said over the tables alone. */
module Grants {
  import opened Prelude
  import opened Policy
  import opened Store
  import Portal
  import PathPattern

  /** The row names the caller, by sub or by one of the caller's groups. */
  ghost predicate Names(subject: Subject, who: Caller) {
    subject == User(who.sub) || exists g :: g in who.groups && subject == AdGroup(g)
  }

  /** The row is about this application or about all of them. */
  predicate Covers(e: Entitlement, app: Application) {
    e.applicationId == Some(app.id) || e.applicationId == None
  }

  ghost predicate Gives(t: Tables, slug: Text, who: Caller, r: Rule) {
    exists app, e ::
      && app in t.applications && app.slug == slug
      && e in t.entitlements && e.rule == r && Covers(e, app) && Names(e.subject, who)
  }

  lemma {:induction false} RulesOfMembers(es: seq<Entitlement>, app: Application, who: Caller, r: Rule)
    ensures r in RulesOf(es, app.id, who) <==>
      exists e :: e in es && e.rule == r && Covers(e, app) && Names(e.subject, who)
    decreases |es|
  {
    if es != [] {
      var e := es[0];
      RulesOfMembers(es[1..], app, who, r);
      assert es == [e] + es[1..];
      assert Applicable(e, app.id, who) <==> Covers(e, app) && Names(e.subject, who);
    }
  }

  /** A load returns the rule of every row that names this application or none,
      and the caller or a group of the caller's, and no other rule; the flag and
      the id are those of the application with the slug, if there is one. */
  lemma LoadExactly(t: Tables, slug: Text, who: Caller)
    requires Keyed(t)
    ensures forall r :: r in Load(t, slug, who).rules <==> Gives(t, slug, who, r)
    ensures Load(t, slug, who).enabled <==>
      exists app :: app in t.applications && app.slug == slug && app.enabled
    ensures forall app :: app in t.applications && app.slug == slug ==>
      Load(t, slug, who).applicationId == Some(app.id)
    ensures Load(t, slug, who).applicationId == None <==> forall app :: app in t.applications ==> app.slug != slug
  {
    var found := FindBySlug(t.applications, slug);
    forall app | app in t.applications && app.slug == slug ensures found == Some(app) {
      Portal.DistinctSame(t.applications, app, found.value);
    }
    forall r ensures r in Load(t, slug, who).rules <==> Gives(t, slug, who, r) {
      if found.Some? { RulesOfMembers(t.entitlements, found.value, who, r); }
    }
  }

  /** An everywhere deny is everywhere: a live row without application id that
      names the caller and denies the empty pattern is the answer under every
      enabled slug, for every URI that normalises. */
  lemma WildcardDenyEverywhere(t: Tables, e: Entitlement, who: Caller, slug: Text, raw: Text, now: int)
    requires Keyed(t) && e in t.entitlements
    requires e.applicationId == None && Names(e.subject, who)
    requires e.rule.effect == Effect.Deny && e.rule.pathPattern == [] && Live(e.rule, now)
    requires Load(t, slug, who).enabled
    ensures Decide(true, Load(t, slug, who).rules, raw, now) == Decision.Deny(ExplicitDeny)
       <==> Normalised(raw).Ok?
  {
    LoadExactly(t, slug, who);
    var app :| app in t.applications && app.slug == slug && app.enabled;
    assert Covers(e, app);
    assert Gives(t, slug, who, e.rule);
    PathPattern.WholeDeny(Load(t, slug, who).rules, e.rule, raw, now);
  }
}
