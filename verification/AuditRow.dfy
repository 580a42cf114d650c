/** What an audit row says, in terms of the requests it stands for. */
module AuditRows {
  import opened Prelude
  import opened SessionCookie
  import opened CacheState

  /** A request answered out of a live entry: what came of it, when, for which
      path, with which hash, under which request id. */
  datatype Asked = Asked(outcome: Outcome, now: int, path: Text, hash: nat, requestId: Option<Text>)

  /** The requests counted one after the other against one entry. */
  function CountedAll(inner: Inner, key: Key, asked: seq<Asked>): (r: Inner)
    requires key in inner.entries
    ensures key in r.entries
    decreases |asked|
  {
    if asked == [] then inner
    else
      var a := asked[|asked| - 1];
      var before := CountedAll(inner, key, asked[..|asked| - 1]);
      Counted(before, key, a.outcome, a.now, a.path, a.hash, a.requestId)
  }

  /** The requests with this outcome, in order. */
  function Of(asked: seq<Asked>, o: Outcome): (r: seq<Asked>)
    ensures forall a :: a in r <==> a in asked && a.outcome == o
    decreases |asked|
  {
    if asked == [] then []
    else
      var a := asked[|asked| - 1];
      assert asked == asked[..|asked| - 1] + [a];
      Of(asked[..|asked| - 1], o) + if a.outcome == o then [a] else []
  }

  function Hashes(asked: seq<Asked>): set<nat> { set a | a in asked :: a.hash }

  /** The counters of an outcome stand for these requests. */
  ghost predicate StandsFor(counters: map<Outcome, Counters>, o: Outcome, mine: seq<Asked>) {
    && (o in counters <==> mine != [])
    && (mine != [] ==> counters[o] == Counters(
          |mine|, mine[0].now, mine[|mine| - 1].now, mine[0].path, mine[0].requestId, Hashes(mine)))
  }

  lemma HashesOneMore(mine: seq<Asked>, a: Asked)
    ensures Hashes(mine + [a]) == Hashes(mine) + {a.hash}
  {
    forall h ensures h in Hashes(mine + [a]) <==> h in Hashes(mine) + {a.hash} {
      if h in Hashes(mine) {
        var b :| b in mine && b.hash == h;
        assert b in mine + [a];
      }
      assert a in mine + [a];
    }
  }

  lemma OneMoreStands(counters: map<Outcome, Counters>, o: Outcome, mine: seq<Asked>, a: Asked)
    requires StandsFor(counters, o, mine)
    ensures var after := Bumped(counters, a.outcome, a.now, a.path, a.hash, a.requestId);
      StandsFor(after, o, if a.outcome == o then mine + [a] else mine)
  {
    if a.outcome == o {
      HashesOneMore(mine, a);
      assert Hashes([]) == {};
    }
  }

  /** By induction over the requests: the counters of each outcome stand for the
      requests that had it, and nothing else in the cache has moved. */
  lemma {:induction false} CountersStand(inner: Inner, key: Key, asked: seq<Asked>, o: Outcome)
    requires key in inner.entries && inner.entries[key].counters == map[]
    ensures var after := CountedAll(inner, key, asked);
      && StandsFor(after.entries[key].counters, o, Of(asked, o))
      && after == inner.(entries := inner.entries[key :=
           inner.entries[key].(counters := after.entries[key].counters)])
    decreases |asked|
  {
    if asked != [] {
      var n := |asked| - 1;
      CountersStand(inner, key, asked[..n], o);
      OneMoreStands(CountedAll(inner, key, asked[..n]).entries[key].counters, o, Of(asked[..n], o), asked[n]);
    }
  }

  /** The row of the requests with one outcome, and of nothing else. */
  function RowOf(key: Key, sub: Text, cached: Cached, mine: seq<Asked>): AuditEvent
    requires mine != []
  {
    var first, last := mine[0], mine[|mine| - 1];
    AuditEvent(
      cached.loaded.applicationId, key.slug, sub,
      if |cached.identity.username| > 0 then Some(cached.identity.username) else None,
      first.outcome, |mine|, first.now, last.now, |Hashes(mine)|, first.path, first.requestId)
  }

  /** What an entry writes of an outcome when it goes: how many requests had it,
      when the first and the last came, how many different paths they were for,
      and path and request id of the first. An outcome no request had has no
      row. */
  lemma RowOfRequests(
    inner: Inner, key: Key, sub: Text, cached: Cached, at: nat, asked: seq<Asked>, o: Outcome)
    requires key in inner.entries && inner.entries[key] == NewEntry(key, sub, cached, at)
    ensures var entry := CountedAll(inner, key, asked).entries[key];
      && (o in entry.counters <==> Of(asked, o) != [])
      && (o in entry.counters <==> exists a :: a in asked && a.outcome == o)
      && (o in entry.counters ==> EventOf(entry, o) == RowOf(key, sub, cached, Of(asked, o)))
  {
    var mine := Of(asked, o);
    CountersStand(inner, key, asked, o);
    assert mine != [] ==> mine[0] in mine;
    assert forall a :: a in asked && a.outcome == o ==> a in mine;
  }

  ghost predicate IsRowOf(r: AuditEvent, key: Key, sub: Text, cached: Cached, asked: seq<Asked>, o: Outcome) {
    Of(asked, o) != [] && r == RowOf(key, sub, cached, Of(asked, o))
  }

  /** All of its rows: one for each outcome there was, in some order. */
  lemma FlushedRows(
    inner: Inner, key: Key, sub: Text, cached: Cached, at: nat, asked: seq<Asked>, rows: seq<AuditEvent>)
    requires key in inner.entries && inner.entries[key] == NewEntry(key, sub, cached, at)
    requires var entry := CountedAll(inner, key, asked).entries[key];
      RowsFor(rows, entry, entry.counters.Keys)
    ensures forall r :: r in rows <==> exists o :: IsRowOf(r, key, sub, cached, asked, o)
    ensures forall r :: multiset(rows)[r] <= 1
  {
    var entry := CountedAll(inner, key, asked).entries[key];
    EventsInRows(rows, entry);
    forall r | r in rows ensures exists o :: IsRowOf(r, key, sub, cached, asked, o) {
      var o :| o in entry.counters && r == EventOf(entry, o);
      RowOfRequests(inner, key, sub, cached, at, asked, o);
      assert IsRowOf(r, key, sub, cached, asked, o);
    }
    forall r, o | IsRowOf(r, key, sub, cached, asked, o) ensures r in rows {
      RowOfRequests(inner, key, sub, cached, at, asked, o);
      assert r == EventOf(entry, o);
    }
  }

  lemma EventsInRows(rows: seq<AuditEvent>, entry: Entry)
    requires RowsFor(rows, entry, entry.counters.Keys)
    ensures forall r :: r in rows <==> exists o :: o in entry.counters && r == EventOf(entry, o)
    ensures forall r :: multiset(rows)[r] <= 1
  {
    var events := EventsOf(entry, entry.counters.Keys);
    forall r ensures r in rows <==> r in events {
      assert r in rows <==> r in multiset(rows);
    }
  }

  /** A decision with no entry to count it in writes the row that a fresh entry
      would have written for that one request. */
  lemma OwnRowIsOfOne(key: Key, cached: Cached, a: Asked)
    ensures OwnRow(key.slug, cached, a.outcome, a.now, a.path, a.requestId)
         == RowOf(key, cached.identity.sub, cached, [a])
  {
    assert Hashes([a]) == {a.hash};
  }
}
