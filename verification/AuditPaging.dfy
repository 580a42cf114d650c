/** Reading the audit record page by page behind a (ts, id) cursor, while rows
    arrive and leave. */
module AuditPaging {
  import opened Prelude

  /** Microseconds since the earliest timestamp the column holds, and the UUID
      read as a number: the order the query sorts by. */
  datatype Key = Key(ts: nat, id: nat)

  datatype AuditRow = AuditRow(
    key: Key, actorSub: Text, actorName: Option<Text>, slug: Text, decision: Text, reason: Text)

  type Table = set<AuditRow>

  datatype Filter = Filter(
    actor: Option<Text>, app: Option<Text>, decision: Option<Text>, reason: Option<Text>,
    since: Option<nat>, until: Option<nat>)

  datatype Request = Request(
    filter: Filter, beforeTs: Option<nat>, beforeId: Option<nat>, limit: Option<int>)

  datatype BadCursor = BadCursor

  predicate Less(a: Key, b: Key) { a.ts < b.ts || (a.ts == b.ts && a.id < b.id) }

  predicate Before(k: Key, cursor: Option<Key>) { cursor.None? || Less(k, cursor.value) }

  predicate Selects(f: Filter, r: AuditRow) {
    && (f.actor.Some? ==> r.actorSub == f.actor.value || r.actorName == f.actor)
    && (f.app.Some? ==> r.slug == f.app.value)
    && (f.decision.Some? ==> r.decision == f.decision.value)
    && (f.reason.Some? ==> r.reason == f.reason.value)
    && (f.since.Some? ==> f.since.value <= r.key.ts)
    && (f.until.Some? ==> r.key.ts < f.until.value)
  }

  /** The primary key of the table. */
  ghost predicate Keyed(rows: Table) {
    forall a, b :: a in rows && b in rows && a.key == b.key ==> a == b
  }

  ghost predicate IsTop(rows: Table, m: AuditRow) {
    m in rows && forall r :: r in rows && r != m ==> Less(r.key, m.key)
  }

  lemma {:induction false} TopExists(rows: Table)
    requires rows != {} && Keyed(rows)
    ensures exists m :: IsTop(rows, m)
    decreases |rows|
  {
    var x :| x in rows;
    var rest := rows - {x};
    if rest == {} {
      assert rows == {x};
      assert IsTop(rows, x);
    } else {
      TopExists(rest);
      var m :| IsTop(rest, m);
      assert x.key != m.key;
      if Less(m.key, x.key) { assert IsTop(rows, x); } else { assert IsTop(rows, m); }
    }
  }

  /** `order by ts desc, id desc`. */
  ghost function Sorted(rows: Table): (s: seq<AuditRow>)
    requires Keyed(rows)
    ensures forall r :: r in s <==> r in rows
    ensures Descending(s)
    decreases |rows|
  {
    if rows == {} then []
    else
      TopExists(rows);
      var m :| IsTop(rows, m);
      [m] + Sorted(rows - {m})
  }

  ghost predicate Descending(s: seq<AuditRow>) {
    forall i, j :: 0 <= i < j < |s| ==> Less(s[j].key, s[i].key)
  }

  ghost function Matching(rows: Table, f: Filter, cursor: Option<Key>): Table {
    set r | r in rows && Selects(f, r) && Before(r.key, cursor)
  }

  function Limit(asked: Option<int>): (n: nat)
    ensures 1 <= n <= 1000
  {
    var n := if asked.Some? then asked.value else 100;
    if n < 1 then 1 else if n > 1000 then 1000 else n
  }

  ghost function Page(rows: Table, f: Filter, cursor: Option<Key>, limit: nat): seq<AuditRow>
    requires Keyed(rows)
  {
    var all := Sorted(Matching(rows, f, cursor));
    if |all| <= limit then all else all[..limit]
  }

  /** The endpoint: half a cursor is refused, and the page size is capped. */
  ghost function ListAudit(rows: Table, q: Request): Result<seq<AuditRow>, BadCursor>
    requires Keyed(rows)
  {
    if q.beforeTs.Some? != q.beforeId.Some? then Err(BadCursor)
    else
      var cursor := if q.beforeTs.Some? then Some(Key(q.beforeTs.value, q.beforeId.value)) else None;
      Ok(Page(rows, q.filter, cursor, Limit(q.limit)))
  }

  function Asking(f: Filter, cursor: Option<Key>, limit: nat): Request {
    match cursor
    case None => Request(f, None, None, Some(limit))
    case Some(k) => Request(f, Some(k.ts), Some(k.id), Some(limit))
  }

  /** A page: matching rows before the cursor, descending, and none left out
      above its last row. */
  lemma PageRows(rows: Table, f: Filter, cursor: Option<Key>, limit: nat)
    requires Keyed(rows) && 1 <= limit <= 1000
    ensures ListAudit(rows, Asking(f, cursor, limit)).Ok?
    ensures var page := ListAudit(rows, Asking(f, cursor, limit)).value;
      && |page| <= limit && Descending(page)
      && (forall r :: r in page ==> r in rows && Selects(f, r) && Before(r.key, cursor))
      && (forall r :: r in rows && Selects(f, r) && Before(r.key, cursor) && r !in page ==>
            |page| == limit && Less(r.key, page[|page| - 1].key))
  {
    var all := Sorted(Matching(rows, f, cursor));
    AskingAnswers(rows, f, cursor, limit);
    SortedMatching(rows, f, cursor, all);
    FirstOf(all, limit);
  }

  lemma AskingAnswers(rows: Table, f: Filter, cursor: Option<Key>, limit: nat)
    requires Keyed(rows) && 1 <= limit <= 1000
    ensures var all := Sorted(Matching(rows, f, cursor));
      ListAudit(rows, Asking(f, cursor, limit)) == Ok(if |all| <= limit then all else all[..limit])
  {}

  lemma SortedMatching(rows: Table, f: Filter, cursor: Option<Key>, all: seq<AuditRow>)
    requires Keyed(rows) && all == Sorted(Matching(rows, f, cursor))
    ensures Descending(all) && forall r :: r in all <==> r in rows && Selects(f, r) && Before(r.key, cursor)
  {}

  /** The first rows of a descending sequence. */
  lemma FirstOf(all: seq<AuditRow>, limit: nat)
    requires Descending(all) && limit >= 1
    ensures var page := if |all| <= limit then all else all[..limit];
      && |page| <= limit && Descending(page)
      && (forall r :: r in page ==> r in all)
      && (forall r :: r in all && r !in page ==> |page| == limit && Less(r.key, page[limit - 1].key))
  {
    if |all| > limit {
      var page := all[..limit];
      forall r | r in all && r !in page ensures Less(r.key, page[limit - 1].key) {
        var k :| 0 <= k < |all| && all[k] == r;
        assert k >= limit;
      }
    }
  }

  // --- What is asked for ---

  /** Each field of the filter narrows by itself, and an empty filter not at all:
      the actor by either column, the others by their own. */
  lemma FiltersCompose(f: Filter, r: AuditRow, x: Text, n: nat)
    ensures Selects(Filter(None, None, None, None, None, None), r)
    ensures Selects(f.(actor := Some(x)), r) <==>
      Selects(f.(actor := None), r) && (x == r.actorSub || Some(x) == r.actorName)
    ensures Selects(f.(app := Some(x)), r) <==> Selects(f.(app := None), r) && x == r.slug
    ensures Selects(f.(decision := Some(x)), r) <==> Selects(f.(decision := None), r) && x == r.decision
    ensures Selects(f.(reason := Some(x)), r) <==> Selects(f.(reason := None), r) && x == r.reason
    ensures Selects(f.(since := Some(n)), r) <==> Selects(f.(since := None), r) && r.key.ts >= n
    ensures Selects(f.(until := Some(n)), r) <==> Selects(f.(until := None), r) && !(r.key.ts >= n)
  {}

  /** Consecutive windows neither overlap nor leave a gap: of the rows between a
      and c, each is in the window up to b or in the one from b, and in one only. */
  lemma WindowsMeet(f: Filter, a: nat, b: nat, c: nat, rows: Table)
    requires a <= b <= c
    ensures var early := Matching(rows, f.(since := Some(a), until := Some(b)), None);
      var late := Matching(rows, f.(since := Some(b), until := Some(c)), None);
      early !! late && early + late == Matching(rows, f.(since := Some(a), until := Some(c)), None)
  {}

  /** Newest first, and by id among rows of one instant: any two rows of a page
      stand that way, and the order leaves no two keys apart undecided. */
  lemma NewestFirst(rows: Table, q: Request, i: int, j: int)
    requires Keyed(rows) && ListAudit(rows, q).Ok? && 0 <= i < j < |ListAudit(rows, q).value|
    ensures var (a, b) := (ListAudit(rows, q).value[i].key, ListAudit(rows, q).value[j].key);
      a.ts > b.ts || (a.ts == b.ts && a.id > b.id)
  {}

  /** Half a cursor is refused and nothing else is; a page holds no more than was
      asked for, brought into 1 to 1000, or 100 where nothing was asked. */
  lemma ListAuditBounds(rows: Table, q: Request, n: nat)
    requires Keyed(rows)
    ensures ListAudit(rows, q) == Err(BadCursor) <==>
      (q.beforeTs == None && q.beforeId != None) || (q.beforeTs != None && q.beforeId == None)
    ensures q.limit.Some? && 1 <= n <= 1000 ==>
      Distance(Limit(q.limit), q.limit.value) <= Distance(n, q.limit.value)
    ensures q.limit.None? ==> Limit(q.limit) == 100
    ensures ListAudit(rows, q).Ok? ==> |ListAudit(rows, q).value| <= Limit(q.limit)
  {}

  function Distance(a: int, b: int): nat { if a < b then b - a else a - b }

  // --- Any answers that are pages, appended ---

  /** What the n-th request answers to a cursor. */
  type Pages = (nat, Option<Key>) -> seq<AuditRow>

  ghost predicate PageOk(page: seq<AuditRow>, cursor: Option<Key>, limit: nat) {
    |page| <= limit && Descending(page) && forall r :: r in page ==> Before(r.key, cursor)
  }

  ghost predicate PagesOk(pages: Pages, limit: nat) {
    limit >= 1 && forall n, c :: PageOk(pages(n, c), c, limit)
  }

  /** Pages appended until a short one, the cursor moving to the last row shown.
      That this is a total function is the claim that paging ends. */
  ghost function Appended(pages: Pages, i: nat, cursor: Option<Key>, limit: nat): seq<AuditRow>
    requires PagesOk(pages, limit)
    decreases cursor.None?, if cursor.Some? then cursor.value.ts else 0, if cursor.Some? then cursor.value.id else 0
  {
    var page := pages(i, cursor);
    assert PageOk(page, cursor, limit);
    if |page| < limit then page else page + Appended(pages, i + 1, Some(page[limit - 1].key), limit)
  }

  ghost predicate Drawn(pages: Pages, i: nat, r: AuditRow) {
    exists n: nat, c :: n >= i && r in pages(n, c)
  }

  lemma {:induction false} AppendedDescends(pages: Pages, i: nat, cursor: Option<Key>, limit: nat)
    requires PagesOk(pages, limit)
    ensures Descending(Appended(pages, i, cursor, limit))
    ensures forall r :: r in Appended(pages, i, cursor, limit) ==> Before(r.key, cursor) && Drawn(pages, i, r)
    decreases cursor.None?, if cursor.Some? then cursor.value.ts else 0, if cursor.Some? then cursor.value.id else 0
  {
    var page := pages(i, cursor);
    assert PageOk(page, cursor, limit);
    if |page| == limit {
      var last := page[limit - 1];
      AppendedDescends(pages, i + 1, Some(last.key), limit);
      DescendingOn(page, Appended(pages, i + 1, Some(last.key), limit));
    }
  }

  /** A row is left out of a page only if the page is full above it. */
  ghost predicate Throughout(pages: Pages, i: nat, limit: nat, r: AuditRow)
    requires PagesOk(pages, limit)
  {
    forall n: nat, c :: n >= i && Before(r.key, c) && r !in pages(n, c) ==>
      |pages(n, c)| == limit && Less(r.key, pages(n, c)[limit - 1].key)
  }

  lemma {:induction false} AppendedCovers(pages: Pages, i: nat, cursor: Option<Key>, limit: nat, r: AuditRow)
    requires PagesOk(pages, limit) && Throughout(pages, i, limit, r) && Before(r.key, cursor)
    ensures r in Appended(pages, i, cursor, limit)
    decreases cursor.None?, if cursor.Some? then cursor.value.ts else 0, if cursor.Some? then cursor.value.id else 0
  {
    var page := pages(i, cursor);
    assert PageOk(page, cursor, limit);
    if r !in page {
      AppendedCovers(pages, i + 1, Some(page[limit - 1].key), limit, r);
    }
  }

  lemma DescendingOn(page: seq<AuditRow>, rest: seq<AuditRow>)
    requires page != [] && Descending(page) && Descending(rest)
    requires forall r :: r in rest ==> Less(r.key, page[|page| - 1].key)
    ensures Descending(page + rest)
  {
    var all, last := page + rest, page[|page| - 1];
    forall a, b | 0 <= a < b < |all| ensures Less(all[b].key, all[a].key) {
      if a < |page| <= b { assert all[b] in rest && (a == |page| - 1 || Less(last.key, page[a].key)); }
    }
  }

  // --- What the viewer shows ---

  ghost function PageAt(rows: Table, f: Filter, cursor: Option<Key>, limit: nat): seq<AuditRow> {
    if Keyed(rows) && 1 <= limit <= 1000
    then (PageRows(rows, f, cursor, limit); ListAudit(rows, Asking(f, cursor, limit)).value)
    else []
  }

  /** `tables(i)` is the table as the i-th request finds it. */
  ghost function Answers(tables: nat -> Table, f: Filter, limit: nat): Pages {
    (n: nat, c: Option<Key>) => PageAt(tables(n), f, c, limit)
  }

  lemma AnswersArePages(tables: nat -> Table, f: Filter, limit: nat)
    requires 1 <= limit <= 1000
    ensures PagesOk(Answers(tables, f, limit), limit)
  {
    forall n, c ensures PageOk(Answers(tables, f, limit)(n, c), c, limit) {
      if Keyed(tables(n)) { PageRows(tables(n), f, c, limit); }
    }
  }

  ghost function Shown(tables: nat -> Table, i: nat, f: Filter, cursor: Option<Key>, limit: nat): seq<AuditRow>
    requires 1 <= limit <= 1000
  {
    AnswersArePages(tables, f, limit);
    Appended(Answers(tables, f, limit), i, cursor, limit)
  }

  /** However the table moves between requests, the rows shown run strictly
      downwards: none is repeated, and none is invented. */
  lemma ShownDescends(tables: nat -> Table, i: nat, f: Filter, cursor: Option<Key>, limit: nat)
    requires 1 <= limit <= 1000
    requires forall k :: Keyed(tables(k))
    ensures Descending(Shown(tables, i, f, cursor, limit))
    ensures forall r :: r in Shown(tables, i, f, cursor, limit) ==>
      Selects(f, r) && Before(r.key, cursor) && exists k: nat :: k >= i && r in tables(k)
  {
    AnswersArePages(tables, f, limit);
    var pages := Answers(tables, f, limit);
    AppendedDescends(pages, i, cursor, limit);
    forall r | r in Shown(tables, i, f, cursor, limit)
      ensures Selects(f, r) && Before(r.key, cursor) && exists k: nat :: k >= i && r in tables(k)
    {
      assert Drawn(pages, i, r);
      var n: nat, c :| n >= i && r in pages(n, c);
      PageRows(tables(n), f, c, limit);
      assert r in tables(n);
    }
  }

  /** A matching row that is there at every request is shown. */
  lemma ShownCovers(tables: nat -> Table, i: nat, f: Filter, cursor: Option<Key>, limit: nat, r: AuditRow)
    requires 1 <= limit <= 1000
    requires forall k :: Keyed(tables(k))
    requires forall k: nat :: k >= i ==> r in tables(k)
    requires Selects(f, r) && Before(r.key, cursor)
    ensures r in Shown(tables, i, f, cursor, limit)
  {
    AnswersArePages(tables, f, limit);
    var pages := Answers(tables, f, limit);
    forall n: nat, c | n >= i && Before(r.key, c) && r !in pages(n, c)
      ensures |pages(n, c)| == limit && Less(r.key, pages(n, c)[limit - 1].key)
    {
      PageRows(tables(n), f, c, limit);
    }
    AppendedCovers(pages, i, cursor, limit, r);
  }

  /** Every matching row that was there throughout is shown, and once. */
  lemma ShownComplete(tables: nat -> Table, f: Filter, limit: nat, r: AuditRow)
    requires 1 <= limit <= 1000
    requires forall k :: Keyed(tables(k))
    requires forall k: nat :: r in tables(k)
    requires Selects(f, r)
    ensures multiset(Shown(tables, 0, f, None, limit))[r] == 1
  {
    ShownCovers(tables, 0, f, None, limit, r);
    ShownDescends(tables, 0, f, None, limit);
    OnceInDescending(Shown(tables, 0, f, None, limit), r);
  }

  lemma {:induction false} OnceInDescending(s: seq<AuditRow>, r: AuditRow)
    requires Descending(s) && r in s
    ensures multiset(s)[r] == 1
  {
    var tail := s[1..];
    assert s == [s[0]] + tail;
    assert multiset(s) == multiset{s[0]} + multiset(tail);
    TailOf(s, r);
    if r == s[0] {
      assert r !in multiset(tail);
    } else {
      OnceInDescending(tail, r);
    }
  }

  /** On a table that stands still the pages are the sorted result, cut up. */
  lemma ShownUnchanged(tables: nat -> Table, rows: Table, f: Filter, limit: nat)
    requires Keyed(rows) && 1 <= limit <= 1000
    requires forall k :: tables(k) == rows
    ensures Shown(tables, 0, f, None, limit) == Sorted(Matching(rows, f, None))
  {
    var shown, all := Shown(tables, 0, f, None, limit), Sorted(Matching(rows, f, None));
    ShownDescends(tables, 0, f, None, limit);
    forall r | r in all ensures r in shown { ShownCovers(tables, 0, f, None, limit, r); }
    DescendingUnique(shown, all);
  }

  /** A descending sequence is determined by its rows. */
  lemma {:induction false} DescendingUnique(a: seq<AuditRow>, b: seq<AuditRow>)
    requires Descending(a) && Descending(b)
    requires forall r :: r in a <==> r in b
    ensures a == b
  {
    HasFirst(a);
    HasFirst(b);
    if a != [] && b != [] {
      assert a[0] in b;
      assert b[0] in a;
      assert a[0] == b[0];
      forall r ensures r in a[1..] <==> r in b[1..] {
        TailOf(a, r);
        TailOf(b, r);
      }
      DescendingUnique(a[1..], b[1..]);
    }
  }

  lemma HasFirst(s: seq<AuditRow>)
    ensures s != [] ==> exists r :: r in s
  {
    assert s != [] ==> s[0] in s;
  }

  lemma TailOf(s: seq<AuditRow>, r: AuditRow)
    requires s != [] && Descending(s)
    ensures r in s[1..] <==> r in s && r != s[0]
  {
    assert s == [s[0]] + s[1..];
    assert forall k :: 0 <= k < |s[1..]| ==> s[1..][k] == s[k + 1] && Less(s[k + 1].key, s[0].key);
  }
}
