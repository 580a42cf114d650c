/** What the decision cache holds, and what each of its lock regions does to it.
    Everything here is a value: the class in `DecisionCache` is proved against
    these functions, and the interleavings in `Ledger` are built from them. */
module CacheState {
  import opened Prelude
  import opened Policy
  import opened Store
  import opened SessionCookie

  /** Thirty seconds, in milliseconds. */
  const TTL: nat := 30_000

  const CAPACITY: nat := 10_000

  datatype Identity = Identity(sub: Text, username: Text, email: Text, groups: seq<Text>)

  datatype Cached = Cached(identity: Identity, loaded: Loaded)

  /** One outcome for one source address. */
  datatype Outcome = Outcome(decision: Decision, srcIp: Option<Text>)

  datatype Counters = Counters(
    count: nat, firstSeen: int, lastSeen: int, firstPath: Text, requestId: Option<Text>, distinct: set<nat>)

  datatype Entry = Entry(
    sub: Text, slug: Text, cached: Cached, inserted: nat, counters: map<Outcome, Counters>)

  datatype Inner = Inner(entries: map<Key, Entry>, bySub: map<Text, set<Key>>)

  const EMPTY: Inner := Inner(map[], map[])

  predicate Indexed(bySub: map<Text, set<Key>>, sub: Text, key: Key) {
    sub in bySub && key in bySub[sub]
  }

  predicate Owned(entries: map<Key, Entry>, sub: Text, key: Key) {
    key in entries && entries[key].sub == sub
  }

  /** The reverse index says exactly who owns what, and keeps no empty set. */
  ghost predicate IndexExact(inner: Inner) {
    && (forall s, k :: Indexed(inner.bySub, s, k) <==> Owned(inner.entries, s, k))
    && (forall s :: s in inner.bySub ==> inner.bySub[s] != {})
  }

  /** No row folds zero requests, or more paths than requests. */
  predicate Sane(c: Counters) { 1 <= |c.distinct| <= c.count }

  ghost predicate EntriesSane(entries: map<Key, Entry>) {
    forall k :: k in entries ==>
      entries[k].slug == k.slug && forall o :: o in entries[k].counters ==> Sane(entries[k].counters[o])
  }

  ghost predicate Consistent(inner: Inner) {
    IndexExact(inner) && EntriesSane(inner.entries) && |inner.entries| <= CAPACITY
  }

  /** `forget_sub`. */
  function ForgetSub(bySub: map<Text, set<Key>>, sub: Text, key: Key): map<Text, set<Key>> {
    if sub !in bySub then bySub
    else if bySub[sub] - {key} == {} then bySub - {sub}
    else bySub[sub := bySub[sub] - {key}]
  }

  /** An entry leaves both structures. */
  function Without(inner: Inner, key: Key): Inner
    requires key in inner.entries
  {
    Inner(inner.entries - {key}, ForgetSub(inner.bySub, inner.entries[key].sub, key))
  }

  /** An entry enters both structures, in place of none. */
  function With(inner: Inner, key: Key, entry: Entry): Inner {
    var keys := if entry.sub in inner.bySub then inner.bySub[entry.sub] else {};
    Inner(inner.entries[key := entry], inner.bySub[entry.sub := keys + {key}])
  }

  function NewEntry(key: Key, sub: Text, cached: Cached, now: nat): Entry {
    Entry(sub, key.slug, cached, now, map[])
  }

  /** The entry replaced, if any, taken out and the new one put in. */
  function Replaced(inner: Inner, key: Key, entry: Entry): Inner {
    With(if key in inner.entries then Without(inner, key) else inner, key, entry)
  }

  predicate Oldest(entries: map<Key, Entry>, key: Key) {
    key in entries && forall k :: k in entries ==> entries[key].inserted <= entries[k].inserted
  }

  /** The bound at work: one entry too many, so an oldest goes. */
  ghost predicate GivesUp(before: Inner, victim: Key, after: Inner) {
    |before.entries| > CAPACITY && Oldest(before.entries, victim) && after == Without(before, victim)
  }

  /** `insert`: replace, then give up an oldest entry if the bound is passed. */
  ghost predicate Inserts(before: Inner, key: Key, entry: Entry, victim: Option<Key>, after: Inner) {
    var grown := Replaced(before, key, entry);
    match victim
    case None => |grown.entries| <= CAPACITY && after == grown
    case Some(v) => GivesUp(grown, v, after)
  }

  function Hit(inner: Inner, subscribed: bool, key: Key, now: nat): Option<Cached> {
    if subscribed && key in inner.entries && now - inner.entries[key].inserted < TTL
    then Some(inner.entries[key].cached) else None
  }

  /** One more request for an outcome; `hash` is the hash of its path. */
  function Bumped(
    counters: map<Outcome, Counters>, o: Outcome, now: int, path: Text, hash: nat, requestId: Option<Text>)
    : map<Outcome, Counters>
  {
    var c := if o in counters then counters[o] else Counters(0, now, now, path, requestId, {});
    counters[o := c.(count := c.count + 1, lastSeen := now, distinct := c.distinct + {hash})]
  }

  function Counted(inner: Inner, key: Key, o: Outcome, now: int, path: Text, hash: nat, requestId: Option<Text>): Inner
    requires key in inner.entries
  {
    var e := inner.entries[key];
    inner.(entries := inner.entries[key := e.(counters := Bumped(e.counters, o, now, path, hash, requestId))])
  }

  /** The keys `drop_sub` reads under the lock. */
  function KeysOf(inner: Inner, sub: Text): set<Key> {
    if sub in inner.bySub then inner.bySub[sub] else {}
  }

  function Expired(inner: Inner, now: nat): set<Key> {
    set k | k in inner.entries && now - inner.entries[k].inserted >= TTL
  }

  // --- What the operations keep ---

  lemma ForgetSubExact(bySub: map<Text, set<Key>>, sub: Text, key: Key)
    requires forall s :: s in bySub ==> bySub[s] != {}
    ensures forall s, k ::
      Indexed(ForgetSub(bySub, sub, key), s, k) <==> Indexed(bySub, s, k) && !(s == sub && k == key)
    ensures forall s :: s in ForgetSub(bySub, sub, key) ==> ForgetSub(bySub, sub, key)[s] != {}
  {
    if sub in bySub {
      assert forall k :: k in bySub[sub] && k != key ==> k in bySub[sub] - {key};
    }
  }

  lemma WithoutConsistent(inner: Inner, key: Key)
    requires IndexExact(inner) && EntriesSane(inner.entries) && key in inner.entries
    ensures IndexExact(Without(inner, key)) && EntriesSane(Without(inner, key).entries)
    ensures |Without(inner, key).entries| == |inner.entries| - 1
  {
    var sub := inner.entries[key].sub;
    SizeWithout(inner.entries, key);
    ForgetSubExact(inner.bySub, sub, key);
    var after := Without(inner, key);
    forall s, k ensures Indexed(after.bySub, s, k) <==> Owned(after.entries, s, k) {
      assert Indexed(inner.bySub, s, k) <==> Owned(inner.entries, s, k);
    }
  }

  lemma SizeWithout<K, V>(m: map<K, V>, key: K)
    requires key in m
    ensures |m - {key}| == |m| - 1
  {
    assert (m - {key}).Keys == m.Keys - {key};
  }

  lemma MinusMinus<K, V>(m: map<K, V>, done: set<K>, key: K)
    ensures m - done - {key} == m - (done + {key})
  {}

  lemma SizeWith<K, V>(m: map<K, V>, key: K, v: V)
    requires key !in m
    ensures |m[key := v]| == |m| + 1
  {
    assert m[key := v].Keys == m.Keys + {key};
  }

  lemma WithConsistent(inner: Inner, key: Key, entry: Entry)
    requires IndexExact(inner) && EntriesSane(inner.entries) && key !in inner.entries
    requires entry.slug == key.slug && entry.counters == map[]
    ensures IndexExact(With(inner, key, entry)) && EntriesSane(With(inner, key, entry).entries)
    ensures |With(inner, key, entry).entries| == |inner.entries| + 1
  {
    SizeWith(inner.entries, key, entry);
    WithExact(inner, key, entry);
  }

  lemma WithExact(inner: Inner, key: Key, entry: Entry)
    requires IndexExact(inner) && key !in inner.entries
    ensures IndexExact(With(inner, key, entry))
  {
    var after := With(inner, key, entry);
    forall s, k ensures Indexed(after.bySub, s, k) <==> Owned(after.entries, s, k) {
      assert Indexed(inner.bySub, s, k) <==> Owned(inner.entries, s, k);
    }
    forall s | s in after.bySub ensures after.bySub[s] != {} {
      if s == entry.sub { assert key in after.bySub[s]; }
    }
  }

  lemma ReplacedConsistent(before: Inner, key: Key, entry: Entry)
    requires IndexExact(before) && EntriesSane(before.entries)
    requires entry.slug == key.slug && entry.counters == map[]
    ensures IndexExact(Replaced(before, key, entry)) && EntriesSane(Replaced(before, key, entry).entries)
    ensures Replaced(before, key, entry).entries == before.entries[key := entry]
    ensures |Replaced(before, key, entry).entries| == |before.entries| + (if key in before.entries then 0 else 1)
  {
    if key in before.entries {
      WithoutConsistent(before, key);
      WithConsistent(Without(before, key), key, entry);
      assert (before.entries - {key})[key := entry] == before.entries[key := entry];
    } else {
      WithConsistent(before, key, entry);
    }
  }

  /** Insertion keeps the index exact and the bound, and gives up at most the
      one entry it names, an oldest. */
  lemma InsertsConsistent(before: Inner, key: Key, entry: Entry, victim: Option<Key>, after: Inner)
    requires Consistent(before) && Inserts(before, key, entry, victim, after)
    requires entry.slug == key.slug && entry.counters == map[]
    ensures Consistent(after)
    ensures after.entries == before.entries[key := entry] - (if victim.Some? then {victim.value} else {})
    ensures victim.Some? ==> |before.entries| == CAPACITY && key !in before.entries
  {
    ReplacedConsistent(before, key, entry);
    BoundConsistent(Replaced(before, key, entry), victim, after);
  }

  lemma BoundConsistent(grown: Inner, victim: Option<Key>, after: Inner)
    requires IndexExact(grown) && EntriesSane(grown.entries) && |grown.entries| <= CAPACITY + 1
    requires match victim
      case None => |grown.entries| <= CAPACITY && after == grown
      case Some(v) => GivesUp(grown, v, after)
    ensures Consistent(after)
    ensures after.entries == grown.entries - (if victim.Some? then {victim.value} else {})
  {
    if victim.Some? {
      WithoutConsistent(grown, victim.value);
    } else {
      assert after.entries == grown.entries - {};
    }
  }

  /** What was put in is what is served, for less than TTL, and is found under its
      sub, unless the bound took that very entry out again. */
  lemma InsertedIsServed(
    before: Inner, key: Key, sub: Text, cached: Cached, now: nat, victim: Option<Key>, after: Inner, at: nat)
    requires Consistent(before) && Inserts(before, key, NewEntry(key, sub, cached, now), victim, after)
    requires victim != Some(key)
    ensures Hit(after, true, key, at) == if at < now + TTL then Some(cached) else None
    ensures Hit(after, false, key, at) == None
    ensures key in KeysOf(after, sub)
    ensures forall k :: k != key && victim != Some(k) ==> Hit(after, true, k, at) == Hit(before, true, k, at)
  {
    var entry := NewEntry(key, sub, cached, now);
    InsertsConsistent(before, key, entry, victim, after);
    ServedFrom(before, key, entry, victim, after);
  }

  lemma ServedFrom(before: Inner, key: Key, entry: Entry, victim: Option<Key>, after: Inner)
    requires after.entries == before.entries[key := entry] - (if victim.Some? then {victim.value} else {})
    requires victim != Some(key) && IndexExact(after)
    ensures key in KeysOf(after, entry.sub)
    ensures forall at: nat ::
      Hit(after, true, key, at) == if at - entry.inserted < TTL then Some(entry.cached) else None
    ensures forall k, at :: k != key && victim != Some(k) ==> Hit(after, true, k, at) == Hit(before, true, k, at)
  {
    assert Indexed(after.bySub, entry.sub, key) <==> Owned(after.entries, entry.sub, key);
  }

  lemma CountedConsistent(inner: Inner, key: Key, o: Outcome, now: int, path: Text, hash: nat, requestId: Option<Text>)
    requires Consistent(inner) && key in inner.entries
    ensures Consistent(Counted(inner, key, o, now, path, hash, requestId))
  {
    var after := Counted(inner, key, o, now, path, hash, requestId);
    assert after.entries.Keys == inner.entries.Keys;
    assert |after.entries| == |inner.entries|;
    forall s, k ensures Indexed(after.bySub, s, k) <==> Owned(after.entries, s, k) {
      assert Indexed(inner.bySub, s, k) <==> Owned(inner.entries, s, k);
    }
    var counters := inner.entries[key].counters;
    var distinct := if o in counters then counters[o].distinct else {};
    var grown := distinct + {hash};
    assert hash in grown;
    if hash in distinct { assert grown == distinct; }
    assert Sane(after.entries[key].counters[o]);
  }

  /** Under an exact index, the keys read for a sub are its entries, all of
      them and no others. */
  lemma KeysOfExact(inner: Inner, sub: Text)
    requires IndexExact(inner)
    ensures KeysOf(inner, sub) == set k | k in inner.entries && inner.entries[k].sub == sub
  {
    forall k ensures k in KeysOf(inner, sub) <==> Owned(inner.entries, sub, k) {
      assert Indexed(inner.bySub, sub, k) <==> Owned(inner.entries, sub, k);
    }
  }

  // --- Audit rows ---

  datatype AuditEvent = AuditEvent(
    applicationId: Option<nat>, slug: Text, actorSub: Text, actorName: Option<Text>, outcome: Outcome,
    count: nat, firstSeen: int, lastSeen: int, distinctPath: nat, firstPath: Text, requestId: Option<Text>)

  predicate SaneEvent(e: AuditEvent) { 1 <= e.distinctPath <= e.count }

  function NameOrNone(name: Text): Option<Text> { if name == [] then None else Some(name) }

  /** The row an entry writes for one of its outcomes. */
  function EventOf(entry: Entry, o: Outcome): AuditEvent
    requires o in entry.counters
  {
    var c := entry.counters[o];
    AuditEvent(
      entry.cached.loaded.applicationId, entry.slug, entry.sub, NameOrNone(entry.cached.identity.username), o,
      c.count, c.firstSeen, c.lastSeen, |c.distinct|, c.firstPath, c.requestId)
  }

  /** The row a decision writes when there is no entry to count it in. */
  function OwnRow(slug: Text, cached: Cached, o: Outcome, now: int, path: Text, requestId: Option<Text>): AuditEvent {
    AuditEvent(
      cached.loaded.applicationId, slug, cached.identity.sub, NameOrNone(cached.identity.username), o,
      1, now, now, 1, path, requestId)
  }

  // --- Sums, one cell of the record at a time ---

  /** A cell: an application, a decision and a source address. */
  datatype Cell = Cell(slug: Text, outcome: Outcome)

  /** One, in this cell. */
  function Unit(cell: Cell, here: Cell): nat { if cell == here then 1 else 0 }

  function EntryCount(e: Entry, cell: Cell): nat {
    if e.slug == cell.slug && cell.outcome in e.counters then e.counters[cell.outcome].count else 0
  }

  function EventCount(e: AuditEvent, cell: Cell): nat {
    if e.slug == cell.slug && e.outcome == cell.outcome then e.count else 0
  }

  function RecordedCount(events: seq<AuditEvent>, cell: Cell): nat {
    if events == [] then 0
    else RecordedCount(events[..|events| - 1], cell) + EventCount(events[|events| - 1], cell)
  }

  ghost function LiveCount(entries: map<Key, Entry>, cell: Cell): nat
    decreases |entries|
  {
    if entries == map[] then 0
    else
      var k :| k in entries;
      SizeWithout(entries, k);
      EntryCount(entries[k], cell) + LiveCount(entries - {k}, cell)
  }

  /** The sum does not depend on the order it is taken in. */
  lemma {:induction false} LiveWithout(entries: map<Key, Entry>, key: Key, cell: Cell)
    requires key in entries
    ensures LiveCount(entries, cell) == EntryCount(entries[key], cell) + LiveCount(entries - {key}, cell)
    decreases |entries|
  {
    var k :| k in entries && LiveCount(entries, cell) == EntryCount(entries[k], cell) + LiveCount(entries - {k}, cell);
    if k != key {
      SizeWithout(entries, k);
      LiveWithout(entries - {k}, key, cell);
      SizeWithout(entries, key);
      LiveWithout(entries - {key}, k, cell);
      assert entries - {k} - {key} == entries - {key} - {k};
    }
  }

  lemma LiveWith(entries: map<Key, Entry>, key: Key, e: Entry, cell: Cell)
    ensures LiveCount(entries[key := e], cell) == EntryCount(e, cell) + LiveCount(entries - {key}, cell)
  {
    LiveWithout(entries[key := e], key, cell);
    assert entries[key := e] - {key} == entries - {key};
  }

  lemma {:induction false} RecordedConcat(a: seq<AuditEvent>, b: seq<AuditEvent>, cell: Cell)
    ensures RecordedCount(a + b, cell) == RecordedCount(a, cell) + RecordedCount(b, cell)
    decreases |b|
  {
    if b == [] {
      assert a + b == a;
    } else {
      assert (a + b)[..|a + b| - 1] == a + b[..|b| - 1];
      RecordedConcat(a, b[..|b| - 1], cell);
    }
  }

  lemma RecordedOne(a: seq<AuditEvent>, e: AuditEvent, cell: Cell)
    ensures RecordedCount(a + [e], cell) == RecordedCount(a, cell) + EventCount(e, cell)
  {
    assert (a + [e])[..|a|] == a;
  }

  function EventsOf(entry: Entry, outcomes: set<Outcome>): set<AuditEvent>
    requires outcomes <= entry.counters.Keys
  {
    set o | o in outcomes :: EventOf(entry, o)
  }

  /** Rows are what an entry with these outcomes writes: one row each, in some
      order. */
  ghost predicate RowsFor(rows: seq<AuditEvent>, entry: Entry, outcomes: set<Outcome>)
    requires outcomes <= entry.counters.Keys
  {
    && multiset(rows) == multiset(EventsOf(entry, outcomes))
    && forall cell ::
         RecordedCount(rows, cell) == if cell.outcome in outcomes then EntryCount(entry, cell) else 0
  }

  lemma RowsForNone(entry: Entry)
    ensures RowsFor([], entry, {})
  {
    assert EventsOf(entry, {}) == {};
  }

  lemma RowsForOneMore(rows: seq<AuditEvent>, entry: Entry, outcomes: set<Outcome>, o: Outcome)
    requires o in entry.counters && outcomes <= entry.counters.Keys && o !in outcomes
    requires RowsFor(rows, entry, outcomes)
    ensures RowsFor(rows + [EventOf(entry, o)], entry, outcomes + {o})
  {
    var event := EventOf(entry, o);
    var before, after := EventsOf(entry, outcomes), EventsOf(entry, outcomes + {o});
    assert after == before + {event};
    assert event !in before by {
      forall p | p in outcomes ensures EventOf(entry, p) != event { assert EventOf(entry, p).outcome == p; }
    }
    assert multiset(after) == multiset(before) + multiset{event};
    forall cell {
      RecordedOne(rows, event, cell);
    }
  }

  /** Where the requests of every cell are: in live entries and in rows handed
      to the audit channel. */
  datatype Books = Books(entries: map<Key, Entry>, recorded: seq<AuditEvent>)

  ghost function Total(b: Books, cell: Cell): nat {
    LiveCount(b.entries, cell) + RecordedCount(b.recorded, cell)
  }

  ghost predicate SameTotals(a: Books, b: Books) {
    forall cell :: Total(b, cell) == Total(a, cell)
  }

  lemma SameTotalsTransitive(a: Books, b: Books, c: Books)
    requires SameTotals(a, b) && SameTotals(b, c)
    ensures SameTotals(a, c)
  {}

  /** One request more, in one cell. */
  ghost predicate OneMore(a: Books, b: Books, here: Cell) {
    forall cell :: Total(b, cell) == Total(a, cell) + Unit(cell, here)
  }

  /** An entry taken out, and its rows handed over. */
  lemma TakenOutTotals(a: Books, key: Key, rows: seq<AuditEvent>)
    requires key in a.entries && RowsFor(rows, a.entries[key], a.entries[key].counters.Keys)
    ensures SameTotals(a, Books(a.entries - {key}, a.recorded + rows))
  {
    forall cell ensures Total(Books(a.entries - {key}, a.recorded + rows), cell) == Total(a, cell) {
      LiveWithout(a.entries, key, cell);
      RecordedConcat(a.recorded, rows, cell);
    }
  }

  /** An entry with no counters put in. */
  lemma PutInTotals(a: Books, key: Key, entry: Entry)
    requires key !in a.entries && entry.counters == map[]
    ensures SameTotals(a, a.(entries := a.entries[key := entry]))
  {
    forall cell ensures Total(a.(entries := a.entries[key := entry]), cell) == Total(a, cell) {
      LiveWith(a.entries, key, entry, cell);
      assert a.entries - {key} == a.entries;
    }
  }

  lemma CountedTotals(
    a: Inner, recorded: seq<AuditEvent>, key: Key, o: Outcome, now: int, path: Text, hash: nat, requestId: Option<Text>)
    requires EntriesSane(a.entries) && key in a.entries
    ensures OneMore(Books(a.entries, recorded),
      Books(Counted(a, key, o, now, path, hash, requestId).entries, recorded), Cell(key.slug, o))
  {
    var b := Counted(a, key, o, now, path, hash, requestId);
    forall cell ensures LiveCount(b.entries, cell) == LiveCount(a.entries, cell) + Unit(cell, Cell(key.slug, o)) {
      LiveWith(a.entries, key, b.entries[key], cell);
      LiveWithout(a.entries, key, cell);
    }
  }

  lemma RecordedTotals(a: Books, e: AuditEvent)
    requires e.count == 1
    ensures OneMore(a, a.(recorded := a.recorded + [e]), Cell(e.slug, e.outcome))
  {
    forall cell {
      RecordedOne(a.recorded, e, cell);
    }
  }
}
