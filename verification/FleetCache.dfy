/** A node of the fleet stands for a decision cache: the steps the fleet takes on
    its entries are the lock regions of `CacheState`, with the counters and the
    reverse index left out. */
module FleetCache {
  import opened Prelude
  import opened SessionCookie
  import CacheState
  import Fleet

  ghost predicate StandsForEntry(e: CacheState.Entry, f: Fleet.Entry) {
    && f.fill.Sub() == e.sub && f.insertedWall == e.inserted
    && e.cached == CacheState.Cached(f.fill.identity, f.fill.loaded)
  }

  ghost predicate StandForEach(a: map<Key, CacheState.Entry>, b: map<Key, Fleet.Entry>) {
    a.Keys == b.Keys && forall k :: k in b ==> StandsForEntry(a[k], b[k])
  }

  ghost predicate StandsFor(inner: CacheState.Inner, entries: map<Key, Fleet.Entry>) {
    StandForEach(inner.entries, entries)
  }

  /** `get` hits in the one exactly when it does in the other, with the same
      rules. */
  lemma SameHits(inner: CacheState.Inner, node: Fleet.Node, key: Key, now: nat)
    requires StandsFor(inner, node.entries)
    ensures CacheState.Hit(inner, node.subscribed, key, now).Some? <==> Fleet.Serves(node, key, now)
    ensures Fleet.Serves(node, key, now) ==>
      CacheState.Hit(inner, node.subscribed, key, now).value.loaded == node.entries[key].fill.loaded
  {
    if key in node.entries { assert StandsForEntry(inner.entries[key], node.entries[key]); }
  }

  /** An eviction. */
  lemma SameEvict(inner: CacheState.Inner, node: Fleet.Node, key: Key)
    requires StandsFor(inner, node.entries) && key in node.entries
    ensures StandsFor(CacheState.Without(inner, key), Fleet.Evicted(node, key).entries)
  {
    var after := CacheState.Without(inner, key);
    forall k | k in node.entries && k != key ensures StandsForEntry(after.entries[k], node.entries[k]) {
    }
  }

  lemma SamePut(
    a: map<Key, CacheState.Entry>, b: map<Key, Fleet.Entry>, key: Key, e: CacheState.Entry, f: Fleet.Entry,
    gone: set<Key>)
    requires StandForEach(a, b) && StandsForEntry(e, f)
    ensures StandForEach(a[key := e] - gone, b[key := f] - gone)
  {
    var x, y := a[key := e] - gone, b[key := f] - gone;
    forall k | k in y ensures StandsForEntry(x[k], y[k]) {
      if k != key { assert StandsForEntry(a[k], b[k]); }
    }
  }

  /** An insertion: the fleet's Insert, and then its Evict of the key given up. */
  lemma SameInsert(
    before: CacheState.Inner, node: Fleet.Node, key: Key, e: CacheState.Entry, f: Fleet.Entry,
    victim: Option<Key>, after: CacheState.Inner)
    requires StandsFor(before, node.entries) && StandsForEntry(e, f)
    requires CacheState.Consistent(before) && CacheState.Inserts(before, key, e, victim, after)
    requires e.slug == key.slug && e.counters == map[]
    ensures StandsFor(after, node.entries[key := f] - (if victim.Some? then {victim.value} else {}))
  {
    CacheState.InsertsConsistent(before, key, e, victim, after);
    var gone := if victim.Some? then {victim.value} else {};
    SamePut(before.entries, node.entries, key, e, f, gone);
    assert after.entries == before.entries[key := e] - gone;
  }

  /** Counting a request changes nothing the fleet sees. */
  lemma SameCount(
    inner: CacheState.Inner, node: Fleet.Node, key: Key, o: CacheState.Outcome, now: int, path: Text, hash: nat,
    requestId: Option<Text>)
    requires StandsFor(inner, node.entries) && key in node.entries
    ensures StandsFor(CacheState.Counted(inner, key, o, now, path, hash, requestId), node.entries)
  {
    var after := CacheState.Counted(inner, key, o, now, path, hash, requestId);
    forall k | k in node.entries ensures StandsForEntry(after.entries[k], node.entries[k]) {
      assert StandsForEntry(inner.entries[k], node.entries[k]);
    }
  }

  /** The keys `drop_sub` reads from the reverse index are the keys the fleet
      reads off the entries. */
  lemma SameKeys(inner: CacheState.Inner, node: Fleet.Node, sub: Text)
    requires StandsFor(inner, node.entries) && CacheState.IndexExact(inner)
    ensures CacheState.KeysOf(inner, sub) == Fleet.KeysOf(node.entries, sub)
  {
    CacheState.KeysOfExact(inner, sub);
    forall k | k in node.entries
      ensures k in CacheState.KeysOf(inner, sub) <==> k in Fleet.KeysOf(node.entries, sub)
    {
      assert StandsForEntry(inner.entries[k], node.entries[k]);
    }
  }
}
