/** The decision cache and the audit channel as the objects they are. Each
    method that takes the lock once is one atomic step; the ones that read keys
    and then evict them one at a time are sequences of such steps. */
module DecisionCache {
  import opened Prelude
  import opened Policy
  import opened SessionCookie
  import opened CacheState

  /** The bounded channel between the decision path and the audit table. */
  class AuditLog {
    const capacity: nat
    var queue: seq<AuditEvent>
    var open: bool
    var dropped: nat

    /** Everything ever handed over, written, and lost. */
    ghost var recorded: seq<AuditEvent>
    ghost var written: multiset<AuditEvent>
    ghost var lost: multiset<AuditEvent>

    ghost predicate Valid()
      reads this
    {
      && |queue| <= capacity
      && multiset(recorded) == written + multiset(queue) + lost
      && dropped == |lost|
      && forall e :: e in recorded ==> SaneEvent(e)
    }

    constructor (capacity: nat)
      ensures Valid() && queue == [] && recorded == [] && dropped == 0 && open
      ensures this.capacity == capacity
    {
      this.capacity := capacity;
      queue, open, dropped := [], true, 0;
      recorded, written, lost := [], multiset{}, multiset{};
    }

    /** Never waits: a full or closed channel loses the row, and counts it. */
    method Record(event: AuditEvent)
      requires Valid() && SaneEvent(event)
      modifies this
      ensures Valid() && open == old(open) && written == old(written)
      ensures recorded == old(recorded) + [event]
      ensures if old(open) && |old(queue)| < capacity
        then queue == old(queue) + [event] && dropped == old(dropped)
        else queue == old(queue) && dropped == old(dropped) + 1
    {
      recorded := recorded + [event];
      if open && |queue| < capacity {
        queue := queue + [event];
      } else {
        dropped := dropped + 1;
        lost := lost + multiset{event};
      }
    }

    /** One turn of the writer: the oldest row goes to the table, or is counted
        as lost when the insert fails. */
    method WriteNext(inserted: bool) returns (event: AuditEvent)
      requires Valid() && queue != []
      modifies this
      ensures Valid() && open == old(open) && recorded == old(recorded)
      ensures event == old(queue)[0] && queue == old(queue)[1..]
      ensures if inserted
        then written == old(written) + multiset{event} && dropped == old(dropped)
        else written == old(written) && dropped == old(dropped) + 1
    {
      event := queue[0];
      HeadAndTail(queue);
      queue := queue[1..];
      if inserted {
        written := written + multiset{event};
      } else {
        dropped := dropped + 1;
        lost := lost + multiset{event};
      }
    }
  }

  lemma HeadAndTail<T>(s: seq<T>)
    requires s != []
    ensures multiset(s) == multiset{s[0]} + multiset(s[1..])
    ensures forall m: multiset<T> :: (m + multiset{s[0]}) + multiset(s[1..]) == m + multiset(s)
  {
    assert s == [s[0]] + s[1..];
  }

  class Cache {
    var entries: map<Key, Entry>
    var bySub: map<Text, set<Key>>
    var subscribed: bool
    const audit: AuditLog

    function State(): Inner
      reads this
    {
      Inner(entries, bySub)
    }

    ghost predicate Valid()
      reads this, audit
    {
      Consistent(State()) && audit.Valid()
    }

    /** Where every counted request is. */
    ghost function Ledger(): Books
      reads this, audit
    {
      Books(entries, audit.recorded)
    }

    constructor (audit: AuditLog)
      requires audit.Valid()
      ensures Valid() && State() == EMPTY && !subscribed && this.audit == audit
    {
      this.audit := audit;
      entries, bySub, subscribed := map[], map[], false;
    }

    // --- Lock regions ---

    method Get(key: Key, now: nat) returns (r: Option<Cached>)
      ensures r == Hit(State(), subscribed, key, now)
    {
      if !subscribed { return None; }
      if key !in entries { return None; }
      var entry := entries[key];
      return if now - entry.inserted < TTL then Some(entry.cached) else None;
    }

    method ForgetSub(sub: Text, key: Key)
      modifies this`bySub
      ensures bySub == CacheState.ForgetSub(old(bySub), sub, key)
    {
      if sub in bySub {
        var keys := bySub[sub] - {key};
        bySub := bySub[sub := keys];
        if keys == {} {
          bySub := bySub - {sub};
        }
      }
    }

    /** The locked half of `evict`. */
    method TakeOut(key: Key) returns (entry: Option<Entry>)
      modifies this`entries, this`bySub
      ensures key !in old(entries) ==> entry == None && State() == old(State())
      ensures key in old(entries) ==>
        entry == Some(old(entries)[key]) && State() == Without(old(State()), key)
    {
      if key !in entries { return None; }
      var e := entries[key];
      entries := entries - {key};
      ForgetSub(e.sub, key);
      return Some(e);
    }

    /** One row an outcome. */
    method Flush(entry: Entry) returns (ghost rows: seq<AuditEvent>)
      requires audit.Valid() && forall o :: o in entry.counters ==> Sane(entry.counters[o])
      modifies audit
      ensures audit.Valid() && audit.recorded == old(audit.recorded) + rows
      ensures RowsFor(rows, entry, entry.counters.Keys)
    {
      var todo := entry.counters.Keys;
      rows := [];
      RowsForNone(entry);
      assert entry.counters.Keys - todo == {};
      while todo != {}
        invariant todo <= entry.counters.Keys && audit.Valid()
        invariant audit.recorded == old(audit.recorded) + rows
        invariant RowsFor(rows, entry, entry.counters.Keys - todo)
        decreases |todo|
      {
        var o :| o in todo;
        RowsForOneMore(rows, entry, entry.counters.Keys - todo, o);
        audit.Record(EventOf(entry, o));
        rows := rows + [EventOf(entry, o)];
        assert entry.counters.Keys - todo + {o} == entry.counters.Keys - (todo - {o});
        todo := todo - {o};
      }
      assert entry.counters.Keys - todo == entry.counters.Keys;
    }

    /** A key leaves the cache, and its counters leave with it. */
    method Evict(key: Key)
      requires Valid()
      modifies this`entries, this`bySub, audit
      ensures Valid()
      ensures State() == if key in old(entries) then Without(old(State()), key) else old(State())
      ensures entries == old(entries) - {key}
      ensures SameTotals(old(Ledger()), Ledger())
    {
      if key in entries { WithoutConsistent(State(), key); }
      var entry := TakeOut(key);
      if entry.Some? {
        ghost var rows := Flush(entry.value);
        TakenOutTotals(old(Ledger()), key, rows);
      }
    }

    /** The replacement half of `insert`: the old entry out, the new one in. */
    method Replace(key: Key, entry: Entry)
      requires Valid() && entry.slug == key.slug && entry.counters == map[]
      modifies this`entries, this`bySub, audit
      ensures audit.Valid() && State() == Replaced(old(State()), key, entry)
      ensures SameTotals(old(Ledger()), Ledger())
    {
      ghost var start := State();
      Evict(key);
      assert State() == if key in start.entries then Without(start, key) else start;
      PutInTotals(Ledger(), key, entry);
      bySub := bySub[entry.sub := (if entry.sub in bySub then bySub[entry.sub] else {}) + {key}];
      entries := entries[key := entry];
    }

    /** One turn of the bound: an oldest entry goes. */
    method GiveUpOldest() returns (oldest: Key)
      requires audit.Valid() && IndexExact(State()) && EntriesSane(entries) && entries != map[]
      modifies this`entries, this`bySub, audit
      ensures audit.Valid() && Oldest(old(entries), oldest)
      ensures State() == Without(old(State()), oldest)
      ensures SameTotals(old(Ledger()), Ledger())
    {
      OldestExists(entries);
      oldest :| Oldest(entries, oldest);
      WithoutConsistent(State(), oldest);
      var gone := TakeOut(oldest);
      ghost var rows := Flush(gone.value);
      TakenOutTotals(old(Ledger()), oldest, rows);
    }

    /** The bound of `insert`: oldest entries go until it is kept. */
    method KeepBound() returns (ghost victim: Option<Key>)
      requires audit.Valid() && IndexExact(State()) && EntriesSane(entries) && |entries| <= CAPACITY + 1
      modifies this`entries, this`bySub, audit
      ensures audit.Valid() && SameTotals(old(Ledger()), Ledger())
      ensures victim.None? ==> |entries| <= CAPACITY && State() == old(State())
      ensures victim.Some? ==> GivesUp(old(State()), victim.value, State())
    {
      victim := None;
      WithoutSize(State());
      while |entries| > CAPACITY
        invariant audit.Valid() && SameTotals(old(Ledger()), Ledger())
        invariant victim.None? ==> State() == old(State())
        invariant victim.Some? ==> GivesUp(old(State()), victim.value, State()) && |entries| <= CAPACITY
        decreases |entries|
      {
        ghost var before := Ledger();
        var oldest := GiveUpOldest();
        SameTotalsTransitive(old(Ledger()), before, Ledger());
        victim := Some(oldest);
      }
    }

    method Insert(key: Key, sub: Text, cached: Cached, now: nat) returns (ghost victim: Option<Key>)
      requires Valid()
      modifies this`entries, this`bySub, audit
      ensures Valid()
      ensures Inserts(old(State()), key, NewEntry(key, sub, cached, now), victim, State())
      ensures SameTotals(old(Ledger()), Ledger())
    {
      var entry := NewEntry(key, sub, cached, now);
      ReplacedConsistent(State(), key, entry);
      Replace(key, entry);
      ghost var between := Ledger();
      victim := KeepBound();
      SameTotalsTransitive(old(Ledger()), between, Ledger());
      InsertsConsistent(old(State()), key, entry, victim, State());
    }

    /** One more request counted against a live entry, if there is one. */
    method Count(key: Key, o: Outcome, path: Text, hash: nat, requestId: Option<Text>, now: int) returns (counted: bool)
      requires Valid()
      modifies this`entries
      ensures Valid() && counted == (key in old(entries))
      ensures State() == if counted then Counted(old(State()), key, o, now, path, hash, requestId) else old(State())
      ensures counted ==> OneMore(old(Ledger()), Ledger(), Cell(key.slug, o))
    {
      if key !in entries { return false; }
      CountedConsistent(State(), key, o, now, path, hash, requestId);
      CountedTotals(State(), audit.recorded, key, o, now, path, hash, requestId);
      var entry := entries[key];
      var counters := if o in entry.counters then entry.counters[o] else Counters(0, now, now, path, requestId, {});
      counters := counters.(count := counters.count + 1);
      counters := counters.(lastSeen := now);
      counters := counters.(distinct := counters.distinct + {hash});
      entry := entry.(counters := entry.counters[o := counters]);
      entries := entries[key := entry];
      assert State() == Counted(old(State()), key, o, now, path, hash, requestId);
      return true;
    }

    // --- Reading keys, then evicting them one by one ---

    method EvictEach(keys: set<Key>)
      requires Valid()
      modifies this`entries, this`bySub, audit
      ensures Valid() && entries == old(entries) - keys
      ensures SameTotals(old(Ledger()), Ledger())
    {
      var todo := keys;
      ghost var start, done: set<Key> := Ledger(), {};
      while todo != {}
        invariant done + todo == keys
        invariant Valid() && entries == start.entries - done
        invariant SameTotals(start, Ledger())
        decreases |todo|
      {
        var key :| key in todo;
        MoveOne(done, todo, key);
        EvictNext(key, start, done);
        todo, done := todo - {key}, done + {key};
      }
      assert done == keys;
    }

    method EvictNext(key: Key, ghost start: Books, ghost done: set<Key>)
      requires Valid() && entries == start.entries - done && SameTotals(start, Ledger())
      modifies this`entries, this`bySub, audit
      ensures Valid() && entries == start.entries - (done + {key}) && SameTotals(start, Ledger())
    {
      ghost var before := Ledger();
      MinusMinus(start.entries, done, key);
      Evict(key);
      SameTotalsTransitive(start, before, Ledger());
    }

    method Sweep(now: nat)
      requires Valid()
      modifies this`entries, this`bySub, audit
      ensures Valid()
      ensures entries == map k | k in old(entries) && now - old(entries)[k].inserted < TTL :: old(entries)[k]
      ensures SameTotals(old(Ledger()), Ledger())
    {
      EvictEach(Expired(State(), now));
    }

    /** Left alone, `drop_sub` removes every entry of the sub and nothing else. */
    method DropSub(sub: Text)
      requires Valid()
      modifies this`entries, this`bySub, audit
      ensures Valid()
      ensures entries == map k | k in old(entries) && old(entries)[k].sub != sub :: old(entries)[k]
      ensures bySub == old(bySub) - {sub}
      ensures SameTotals(old(Ledger()), Ledger())
    {
      ghost var start := State();
      var keys := if sub in bySub then bySub[sub] else {};
      EvictEach(keys);
      DroppedIndex(start, sub, keys, State());
    }

    method FlushAll()
      requires Valid()
      modifies this`entries, this`bySub, audit
      ensures Valid() && State() == EMPTY
      ensures SameTotals(old(Ledger()), Ledger())
    {
      EvictEach(entries.Keys);
      assert entries == map[];
      IndexDetermined(State(), EMPTY);
    }

    /** The flag goes up only on an emptied cache. */
    method SetSubscribed(live: bool)
      requires Valid()
      modifies this, audit
      ensures Valid() && subscribed == live
      ensures State() == if live && !old(subscribed) then EMPTY else old(State())
      ensures SameTotals(old(Ledger()), Ledger())
    {
      if live && !subscribed {
        FlushAll();
      }
      subscribed := live;
    }
  }

  /** The reverse index is a function of the entries. */
  lemma IndexDetermined(a: Inner, b: Inner)
    requires IndexExact(a) && IndexExact(b) && a.entries == b.entries
    ensures a == b
  {
    forall s ensures s in a.bySub <==> s in b.bySub {
      IndexedSub(a, b, s);
      IndexedSub(b, a, s);
    }
    forall s | s in a.bySub ensures a.bySub[s] == b.bySub[s] {
      forall k ensures k in a.bySub[s] <==> k in b.bySub[s] {
        assert Indexed(a.bySub, s, k) <==> Owned(a.entries, s, k);
        assert Indexed(b.bySub, s, k) <==> Owned(b.entries, s, k);
      }
    }
  }

  lemma IndexedSub(a: Inner, b: Inner, s: Text)
    requires IndexExact(a) && IndexExact(b) && a.entries == b.entries
    ensures s in a.bySub ==> s in b.bySub
  {
    if s in a.bySub {
      var k :| k in a.bySub[s];
      assert Indexed(a.bySub, s, k);
      assert Indexed(b.bySub, s, k);
    }
  }

  /** Without exactly the keys of a sub, the index is what it was without it. */
  lemma DroppedIndex(before: Inner, sub: Text, keys: set<Key>, after: Inner)
    requires IndexExact(before) && IndexExact(after)
    requires keys == KeysOf(before, sub) && after.entries == before.entries - keys
    ensures after.entries == map k | k in before.entries && before.entries[k].sub != sub :: before.entries[k]
    ensures after.bySub == before.bySub - {sub}
  {
    KeysOfExact(before, sub);
    IndexWithoutSub(before, sub, after.entries);
    IndexDetermined(after, Inner(after.entries, before.bySub - {sub}));
  }

  lemma IndexWithoutSub(before: Inner, sub: Text, entries: map<Key, Entry>)
    requires IndexExact(before)
    requires entries == map k | k in before.entries && before.entries[k].sub != sub :: before.entries[k]
    ensures IndexExact(Inner(entries, before.bySub - {sub}))
  {
    var after := Inner(entries, before.bySub - {sub});
    forall s, k ensures Indexed(after.bySub, s, k) <==> Owned(after.entries, s, k) {
      assert Indexed(before.bySub, s, k) <==> Owned(before.entries, s, k);
    }
  }

  /** With one key too many, one key fewer is within the bound. */
  lemma WithoutSize(grown: Inner)
    requires IndexExact(grown) && EntriesSane(grown.entries) && |grown.entries| <= CAPACITY + 1
    ensures forall k :: k in grown.entries ==> |Without(grown, k).entries| <= CAPACITY
  {
    forall k | k in grown.entries ensures |Without(grown, k).entries| <= CAPACITY {
      WithoutConsistent(grown, k);
    }
  }

  lemma MoveOne<K>(done: set<K>, todo: set<K>, key: K)
    requires key in todo
    ensures (done + {key}) + (todo - {key}) == done + todo && |todo - {key}| < |todo|
  {}

  lemma OldestExists(entries: map<Key, Entry>)
    requires entries != map[]
    ensures exists k :: Oldest(entries, k)
    decreases |entries|
  {
    var k :| k in entries;
    var rest := entries - {k};
    SizeWithout(entries, k);
    if rest == map[] {
      assert forall j :: j in entries && j != k ==> j in rest;
      assert Oldest(entries, k);
    } else {
      OldestExists(rest);
      var o :| Oldest(rest, o);
      var best := if entries[k].inserted <= entries[o].inserted then k else o;
      forall j | j in entries ensures entries[best].inserted <= entries[j].inserted {
        if j != k { assert j in rest; }
      }
      assert Oldest(entries, best);
    }
  }

  /** What nginx hands over for one request. */
  datatype Subrequest = Subrequest(
    key: Option<Key>, slug: Text, uri: Text, auditPath: Text, srcIp: Option<Text>, requestId: Option<Text>)

  /** `answer`: the decision over data already in memory, made on every request,
      and accounted for exactly once - in the entry if it is still there, else
      in a row of its own. */
  method Answer(cache: Cache, request: Subrequest, cached: Cached, hash: nat, now: int) returns (decision: Decision)
    requires cache.Valid() && (request.key.Some? ==> request.key.value.slug == request.slug)
    modifies cache`entries, cache.audit
    ensures cache.Valid()
    ensures decision == Decide(cached.loaded.enabled, cached.loaded.rules, request.uri, now)
    ensures OneMore(old(cache.Ledger()), cache.Ledger(), Cell(request.slug, Outcome(decision, request.srcIp)))
    ensures var o := Outcome(decision, request.srcIp);
      if request.key.Some? && request.key.value in old(cache.entries)
      then
        && cache.State() == Counted(
             old(cache.State()), request.key.value, o, now, request.auditPath, hash, request.requestId)
        && cache.audit.recorded == old(cache.audit.recorded)
      else
        && cache.State() == old(cache.State())
        && cache.audit.recorded == old(cache.audit.recorded)
             + [OwnRow(request.slug, cached, o, now, request.auditPath, request.requestId)]
  {
    decision := Decide(cached.loaded.enabled, cached.loaded.rules, request.uri, now);
    var o := Outcome(decision, request.srcIp);
    var counted := false;
    if request.key.Some? {
      counted := cache.Count(request.key.value, o, request.auditPath, hash, request.requestId, now);
    }
    if !counted {
      var row := OwnRow(request.slug, cached, o, now, request.auditPath, request.requestId);
      RecordedTotals(cache.Ledger(), row);
      cache.audit.Record(row);
    }
  }
}
