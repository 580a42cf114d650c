/** What every step of the fleet keeps. The invariant is made of small claims
    about one fill, one node or one kill at a time; each is stable under
    anything the rest of the fleet does, so a step has to show only what it
    changed. */
module FleetSafety {
  import opened Prelude
  import opened SessionCookie
  import opened Fleet

  // --- The claims ---

  ghost predicate SessionsOk(s: State) {
    forall x :: x in s.ended ==> x in s.owner && s.ended[x] < s.clock
  }

  /** A set of the index holds sessions of its sub, and outlives no EXPIRE. */
  ghost predicate IndexOk(s: State) {
    && (forall sub, x :: x in Indexed(s.index, sub) ==> x in s.owner && s.owner[x] == sub)
    && (forall x :: x in s.removed ==> s.removed[x].at < s.clock)
  }

  ghost predicate PublishedOk(s: State) {
    forall sub :: sub in s.published ==> s.published[sub] < s.clock
  }

  ghost predicate RemovedSince(removed: map<Text, Removal>, session: Text, since: nat) {
    session in removed && removed[session].at >= since
  }

  ghost predicate OutlivesDeadline(s: State, sub: Text, wall: nat) {
    sub in s.index && s.index[sub].deadline.Some? ==> s.index[sub].deadline.value >= wall + INDEX_TTL
  }

  /** Authenticated while the session lived, and, once recorded, in the index
      unless it was taken out since; by itself it leaves only in INDEX_TTL. */
  ghost predicate FillOk(s: State, f: Fill) {
    && f.session in s.owner && s.owner[f.session] == f.Sub()
    && f.verifiedAt < s.clock
    && (f.session in s.ended ==> f.verifiedAt < s.ended[f.session])
    && (f.HasAdded() ==>
          && f.verifiedAt < f.addedAt < s.clock
          && (f.session in Indexed(s.index, f.Sub()) || RemovedSince(s.removed, f.session, f.addedAt)))
    && (f.HasRecorded() ==>
          && f.addedAt < f.recordedAt < s.clock && f.recordedWall <= s.now
          && OutlivesDeadline(s, f.Sub(), f.recordedWall)
          && (RemovedSince(s.removed, f.session, f.recordedAt) && s.removed[f.session].cause == ByLapse ==>
                f.recordedWall + INDEX_TTL <= s.now))
    && (f.stage.Filled? ==> f.recordedAt < f.loadedAt < s.clock)
  }

  ghost predicate EntryOk(s: State, k: Key, e: Entry) {
    && e.fill.key == k && e.fill.stage.Filled? && FillOk(s, e.fill)
    && e.fill.loadedAt < e.insertedAt < s.clock && e.insertedWall <= s.now
  }

  /** Every entry the drop is for is younger than its reading, or still to go. */
  ghost predicate Covers(entries: map<Key, Entry>, d: Drop) {
    forall k :: k in entries && (d.sub.Some? ==> entries[k].fill.Sub() == d.sub.value) ==>
      k in d.todo || entries[k].insertedAt > d.since
  }

  ghost predicate ListenerOk(clock: nat, node: Node) {
    match node.listener
    case Idle => true
    case Flushing(d) =>
      && d.sub.None? && node.upSince <= d.since < clock && node.flushedAt <= d.since
      && Covers(node.entries, d) && !node.subscribed
    case Dropping(d) => d.sub.Some? && d.since < clock && Covers(node.entries, d)
  }

  /** What a completed drop or flush promises about the entries there are. */
  ghost predicate ClearedOk(node: Node) {
    forall k :: k in node.entries ==>
      && node.entries[k].insertedAt > node.flushedAt
      && (node.entries[k].fill.Sub() in node.cleared ==>
            node.entries[k].insertedAt > node.cleared[node.entries[k].fill.Sub()])
  }

  ghost predicate ConnectionOk(clock: nat, node: Node) {
    && (node.connection.Down? ==> !node.subscribed && node.listener.Idle?)
    && (node.subscribed ==> node.flushedAt >= node.upSince)
    && node.flushedAt < clock && node.upSince < clock
    && (forall sub :: sub in node.cleared ==> node.cleared[sub] < clock)
  }

  /** One published sub, at a node that is listening: from before it listened,
      waiting in the queue, being dropped, or dropped since. */
  ghost predicate HeardOf(node: Node, sub: Text, at: nat) {
    || at < node.upSince
    || sub in node.queue
    || (node.listener.Dropping? && node.listener.drop.sub == Some(sub) && node.listener.drop.since >= at)
    || (sub in node.cleared && node.cleared[sub] >= at)
  }

  ghost predicate HearsAll(published: map<Text, nat>, node: Node) {
    node.connection.Up? ==> forall sub :: sub in published ==> HeardOf(node, sub, published[sub])
  }

  ghost predicate EntriesOk(s: State, n: nat) {
    n in s.nodes && forall k :: k in s.nodes[n].entries ==> EntryOk(s, k, s.nodes[n].entries[k])
  }

  ghost predicate NodeOk(clock: nat, published: map<Text, nat>, node: Node) {
    && ListenerOk(clock, node) && ClearedOk(node) && ConnectionOk(clock, node)
    && HearsAll(published, node)
  }

  /** A kill or logout: the sessions it names are its sub's, all ended by its
      DEL, and its drop covers the node it runs on. */
  ghost predicate RevokerOk(s: State, r: Revoker) {
    && r.node in s.nodes
    && (r.HasListed() ==>
          r.listedAt < s.clock && forall x :: x in r.sessions ==> x in s.owner && s.owner[x] == r.sub)
    && (r.HasDeleted() ==>
          && r.listedAt < r.deletedAt < s.clock
          && forall x :: x in r.sessions ==> x in s.ended && s.ended[x] <= r.deletedAt)
    && (r.HasPublished() ==>
          && r.deletedAt < r.publishedAt < s.clock
          && (r.announced ==> r.sub in s.published && s.published[r.sub] >= r.publishedAt))
    && (r.HasRead() ==> r.publishedAt < r.drop.since < s.clock && r.drop.sub == Some(r.sub))
    && (r.phase.Clearing? ==> Covers(s.nodes[r.node].entries, r.drop))
    && (r.HasCleared() ==>
          r.sub in s.nodes[r.node].cleared && s.nodes[r.node].cleared[r.sub] >= r.drop.since)
    && (r.phase.Done? ==> r.announced)
  }

  ghost predicate MissesOk(s: State) {
    forall m :: m in s.misses ==> FillOk(s, s.misses[m]) && s.misses[m].node in s.nodes
  }

  ghost predicate NodesOk(s: State) {
    forall n :: n in s.nodes ==> EntriesOk(s, n) && NodeOk(s.clock, s.published, s.nodes[n])
  }

  ghost predicate RevokersOk(s: State) {
    forall r :: r in s.revokers ==> RevokerOk(s, s.revokers[r])
  }

  ghost predicate Invariant(s: State) {
    SessionsOk(s) && IndexOk(s) && PublishedOk(s) && MissesOk(s) && NodesOk(s) && RevokersOk(s)
  }

  // --- What the rest of the fleet may do meanwhile ---

  ghost predicate SessionsEvolve(s: State, t: State) {
    && t.clock == s.clock + 1 && s.now <= t.now
    && (forall x :: x in s.owner ==> x in t.owner && t.owner[x] == s.owner[x])
    && (forall x :: x in s.ended ==> x in t.ended && t.ended[x] == s.ended[x])
    && (forall x :: x in t.ended ==> x in s.ended || t.ended[x] == s.clock)
  }

  /** What may become of a removal record: a newer one. */
  ghost predicate RemovalsEvolve(s: State, t: State) {
    && (forall x :: x in s.removed ==> x in t.removed)
    && (forall x :: x in t.removed ==>
          (x in s.removed && t.removed[x] == s.removed[x]) || t.removed[x].at == s.clock)
    && (forall sub, x :: x in Indexed(s.index, sub) ==>
          x in Indexed(t.index, sub) || (x in t.removed && t.removed[x].at == s.clock))
  }

  /** Deadlines only move away, and a set lapses only at its deadline. */
  ghost predicate DeadlinesEvolve(s: State, t: State) {
    && (forall sub :: sub in t.index && t.index[sub].deadline.Some? ==>
          || t.index[sub].deadline.value >= t.now + INDEX_TTL
          || (sub in s.index && s.index[sub].deadline == t.index[sub].deadline))
    && (forall x :: x in t.removed && t.removed[x].at == s.clock && t.removed[x].cause == ByLapse ==>
          x in s.owner && Lapses(s, s.owner[x], t.now))
  }

  ghost predicate NodeEvolves(clock: nat, a: Node, b: Node) {
    && (forall k :: k in b.entries ==>
          (k in a.entries && b.entries[k] == a.entries[k]) || b.entries[k].insertedAt == clock)
    && (forall sub :: sub in a.cleared ==> sub in b.cleared && b.cleared[sub] >= a.cleared[sub])
  }

  ghost predicate NodesEvolve(s: State, t: State) {
    forall n :: n in s.nodes ==> n in t.nodes && NodeEvolves(s.clock, s.nodes[n], t.nodes[n])
  }

  ghost predicate PublishedEvolves(s: State, t: State) {
    && (forall sub :: sub in s.published ==> sub in t.published && t.published[sub] >= s.published[sub])
  }

  /** What a fill depends on. */
  ghost predicate StoresEvolve(s: State, t: State) {
    SessionsEvolve(s, t) && RemovalsEvolve(s, t) && DeadlinesEvolve(s, t)
  }

  lemma FillStable(s: State, t: State, f: Fill)
    requires StoresEvolve(s, t) && FillOk(s, f)
    ensures FillOk(t, f)
  {}

  lemma RevokerStable(s: State, t: State, r: Revoker)
    requires StoresEvolve(s, t) && NodesEvolve(s, t) && PublishedEvolves(s, t) && RevokerOk(s, r)
    ensures RevokerOk(t, r)
  {
    assert NodeEvolves(s.clock, s.nodes[r.node], t.nodes[r.node]);
  }

  ghost predicate StoresOk(s: State) { SessionsOk(s) && IndexOk(s) }

  ghost predicate SameSessions(s: State, t: State) {
    t.clock == s.clock + 1 && s.now <= t.now && t.owner == s.owner && t.ended == s.ended
  }

  ghost predicate SameIndex(s: State, t: State) {
    t.clock == s.clock + 1 && s.now <= t.now && t.index == s.index && t.removed == s.removed
  }

  lemma SessionsStable(s: State, t: State)
    requires SessionsOk(s) && SameSessions(s, t)
    ensures SessionsOk(t) && SessionsEvolve(s, t)
  {}

  lemma IndexStable(s: State, t: State)
    requires IndexOk(s) && SameIndex(s, t) && SessionsEvolve(s, t)
    ensures IndexOk(t) && RemovalsEvolve(s, t) && DeadlinesEvolve(s, t)
  {}

  lemma StoresStable(s: State, t: State)
    requires StoresOk(s) && SameSessions(s, t) && SameIndex(s, t)
    ensures StoresOk(t) && StoresEvolve(s, t)
  {
    SessionsStable(s, t);
    IndexStable(s, t);
  }

  // Threads a step does not touch keep their claims.

  lemma MissesStable(s: State, t: State)
    requires MissesOk(s) && StoresEvolve(s, t) && NodesEvolve(s, t)
    requires forall i :: i in t.misses ==> i in s.misses && t.misses[i] == s.misses[i]
    ensures MissesOk(t)
  {
    forall i | i in t.misses ensures FillOk(t, t.misses[i]) && t.misses[i].node in t.nodes {
      FillStable(s, t, s.misses[i]);
    }
  }

  lemma OneMissStable(s: State, t: State, m: nat, fill: Fill)
    requires MissesOk(s) && StoresEvolve(s, t) && NodesEvolve(s, t)
    requires t.misses == s.misses[m := fill] && FillOk(t, fill) && fill.node in s.nodes
    ensures MissesOk(t)
  {
    forall i | i in t.misses ensures FillOk(t, t.misses[i]) && t.misses[i].node in t.nodes {
      if i != m { FillStable(s, t, s.misses[i]); }
    }
  }

  lemma RevokersStable(s: State, t: State)
    requires RevokersOk(s) && StoresEvolve(s, t) && NodesEvolve(s, t) && PublishedEvolves(s, t)
    requires forall r :: r in t.revokers ==> r in s.revokers && t.revokers[r] == s.revokers[r]
    ensures RevokersOk(t)
  {
    forall r | r in t.revokers ensures RevokerOk(t, t.revokers[r]) {
      RevokerStable(s, t, s.revokers[r]);
    }
  }

  lemma OneRevokerStable(s: State, t: State, r: nat, rv: Revoker)
    requires RevokersOk(s) && StoresEvolve(s, t) && NodesEvolve(s, t) && PublishedEvolves(s, t)
    requires t.revokers == s.revokers[r := rv] && RevokerOk(t, rv)
    ensures RevokersOk(t)
  {
    forall i | i in t.revokers ensures RevokerOk(t, t.revokers[i]) {
      if i != r { RevokerStable(s, t, s.revokers[i]); }
    }
  }

  // Nodes.

  ghost predicate FewerEntries(a: Node, b: Node) {
    forall k :: k in b.entries ==> k in a.entries && b.entries[k] == a.entries[k]
  }

  lemma EntriesStable(s: State, t: State, n: nat)
    requires StoresEvolve(s, t)
    requires EntriesOk(s, n) && n in t.nodes && FewerEntries(s.nodes[n], t.nodes[n])
    ensures EntriesOk(t, n)
  {
    forall k | k in t.nodes[n].entries ensures EntryOk(t, k, t.nodes[n].entries[k]) {
      assert EntryOk(s, k, s.nodes[n].entries[k]);
      FillStable(s, t, s.nodes[n].entries[k].fill);
    }
  }

  /** Steps that leave the nodes alone. */
  lemma NodesStable(s: State, t: State)
    requires NodesOk(s) && StoresEvolve(s, t) && t.nodes == s.nodes && t.published == s.published
    ensures NodesOk(t) && NodesEvolve(s, t) && PublishedEvolves(s, t)
  {
    forall n | n in t.nodes ensures EntriesOk(t, n) && NodeOk(t.clock, t.published, t.nodes[n]) {
      EntriesStable(s, t, n);
    }
  }

  /** Steps that touch one node, and add no entry to it. */
  lemma OneNodeStable(s: State, t: State, n: nat, node: Node)
    requires NodesOk(s) && StoresEvolve(s, t) && t.published == s.published
    requires n in s.nodes && t.nodes == s.nodes[n := node]
    requires FewerEntries(s.nodes[n], node) && NodeEvolves(s.clock, s.nodes[n], node)
    requires NodeOk(t.clock, t.published, node)
    ensures NodesOk(t) && NodesEvolve(s, t) && PublishedEvolves(s, t)
  {
    forall i | i in t.nodes ensures EntriesOk(t, i) && NodeOk(t.clock, t.published, t.nodes[i]) {
      EntriesStable(s, t, i);
    }
  }

  // --- Time, sessions, tables ---

  /** Steps that leave the nodes alone, and start no thread. */
  lemma StoreStepKeeps(s: State, t: State)
    requires Invariant(s) && StoresOk(t) && StoresEvolve(s, t)
    requires t.nodes == s.nodes && t.published == s.published
    requires forall i :: i in t.misses ==> i in s.misses && t.misses[i] == s.misses[i]
    requires forall r :: r in t.revokers ==> r in s.revokers && t.revokers[r] == s.revokers[r]
    ensures Invariant(t)
  {
    NodesStable(s, t);
    MissesStable(s, t);
    RevokersStable(s, t);
  }

  lemma TickStores(s: State, now: nat)
    requires StoresOk(s) && s.now <= now
    ensures StoresOk(Ticked(s, now)) && StoresEvolve(s, Ticked(s, now))
  {
    var t := Ticked(s, now);
    SessionsStable(s, t);
    forall sub ensures Indexed(t.index, sub) <= Indexed(s.index, sub) {
    }
    TickRemovals(s, now);
  }

  lemma TickRemovals(s: State, now: nat)
    requires IndexOk(s)
    ensures RemovalsEvolve(s, Ticked(s, now))
  {
    var t := Ticked(s, now);
    forall sub, x | x in Indexed(s.index, sub)
      ensures x in Indexed(t.index, sub) || (x in t.removed && t.removed[x].at == s.clock)
    {
      assert x in s.owner && s.owner[x] == sub;
    }
  }

  lemma TickKeeps(s: State, now: nat)
    requires Invariant(s) && s.now <= now
    ensures Invariant(Ticked(s, now))
  {
    TickStores(s, now);
    StoreStepKeeps(s, Ticked(s, now));
  }

  lemma LoginKeeps(s: State, session: Text, sub: Text)
    requires Invariant(s) && session !in s.owner
    ensures Invariant(Later(s).(owner := s.owner[session := sub]))
  {
    var t := Later(s).(owner := s.owner[session := sub]);
    IndexStable(s, t);
    StoreStepKeeps(s, t);
  }

  lemma EndSessionKeeps(s: State, session: Text)
    requires Invariant(s)
    ensures Invariant(Later(s).(ended := Ending(s, {session})))
  {
    var t := Later(s).(ended := Ending(s, {session}));
    IndexStable(s, t);
    StoreStepKeeps(s, t);
  }

  /** Steps that change nothing the claims are about. */
  lemma QuietKeeps(s: State, t: State)
    requires Invariant(s)
    requires t == Later(s).(tables := t.tables, misses := t.misses, revokers := t.revokers)
    requires forall m :: m in t.misses ==> m in s.misses && t.misses[m] == s.misses[m]
    requires forall r :: r in t.revokers ==> r in s.revokers && t.revokers[r] == s.revokers[r]
    ensures Invariant(t)
  {
    StoresStable(s, t);
    StoreStepKeeps(s, t);
  }

  // --- A miss ---

  /** One thread of a miss moves on; only the index may change with it. */
  lemma MissStepKeeps(s: State, t: State, m: nat, fill: Fill)
    requires Invariant(s) && StoresOk(t) && StoresEvolve(s, t) && FillOk(t, fill) && fill.node in s.nodes
    requires t == WithMiss(s, m, fill).(index := t.index)
    ensures Invariant(t)
  {
    NodesStable(s, t);
    OneMissStable(s, t, m, fill);
    RevokersStable(s, t);
  }

  lemma AuthenticateKeeps(s: State, step: Step, t: State)
    requires Invariant(s) && RecordNext(s, step, t) && step.Authenticate?
    ensures Invariant(t)
  {
    StoresStable(s, t);
    MissStepKeeps(s, t, step.thread, NewFill(s, step.node, step.key, step.session, step.identity));
  }

  lemma AddingStores(s: State, m: nat)
    requires StoresOk(s) && At(s, m, Verified) && FillOk(s, s.misses[m])
    ensures StoresOk(Adding(s, m)) && StoresEvolve(s, Adding(s, m))
  {
    var t := Adding(s, m);
    var sub, session := s.misses[m].Sub(), s.misses[m].session;
    SessionsStable(s, t);
    forall i, x | x in Indexed(t.index, i) ensures x in s.owner && s.owner[x] == i {
      assert x in Indexed(s.index, i) || (i == sub && x == session);
    }
  }

  lemma AddedFillOk(s: State, m: nat)
    requires StoresOk(s) && At(s, m, Verified) && FillOk(s, s.misses[m])
    ensures FillOk(Adding(s, m), Adding(s, m).misses[m])
  {}

  lemma AddingKeeps(s: State, step: Step, t: State)
    requires Invariant(s) && RecordNext(s, step, t) && step.AddToIndex?
    ensures Invariant(t)
  {
    AddingStores(s, step.thread);
    AddedFillOk(s, step.thread);
    MissStepKeeps(s, t, step.thread, t.misses[step.thread]);
  }

  lemma SettingDeadlineStores(s: State, m: nat)
    requires StoresOk(s) && At(s, m, Added)
    ensures StoresOk(SettingDeadline(s, m)) && StoresEvolve(s, SettingDeadline(s, m))
    ensures forall sub :: Indexed(SettingDeadline(s, m).index, sub) == Indexed(s.index, sub)
  {
    var t := SettingDeadline(s, m);
    SessionsStable(s, t);
    forall sub ensures Indexed(t.index, sub) == Indexed(s.index, sub) {
    }
  }

  lemma RecordedFillOk(s: State, m: nat)
    requires StoresOk(s) && At(s, m, Added) && FillOk(s, s.misses[m])
    ensures FillOk(SettingDeadline(s, m), SettingDeadline(s, m).misses[m])
  {}

  lemma SettingDeadlineKeeps(s: State, step: Step, t: State)
    requires Invariant(s) && RecordNext(s, step, t) && step.SetDeadline?
    ensures Invariant(t)
  {
    SettingDeadlineStores(s, step.thread);
    RecordedFillOk(s, step.thread);
    MissStepKeeps(s, t, step.thread, t.misses[step.thread]);
  }

  lemma LoadingKeeps(s: State, m: nat)
    requires Invariant(s) && At(s, m, Recorded)
    ensures Invariant(Loading(s, m))
  {
    var t := Loading(s, m);
    StoresStable(s, t);
    FillStable(s, t, s.misses[m]);
    MissStepKeeps(s, t, m, t.misses[m]);
  }

  /** A node with one entry more, younger than anything the node remembers. */
  lemma InsertedOk(clock: nat, published: map<Text, nat>, node: Node, key: Key, e: Entry)
    requires NodeOk(clock, published, node) && e.insertedAt == clock
    ensures NodeOk(clock + 1, published, node.(entries := node.entries[key := e]))
    ensures NodeEvolves(clock, node, node.(entries := node.entries[key := e]))
  {}

  lemma InsertedEntriesOk(s: State, t: State, n: nat, key: Key, e: Entry)
    requires StoresEvolve(s, t) && EntriesOk(s, n) && EntryOk(t, key, e)
    requires n in t.nodes && t.nodes[n].entries == s.nodes[n].entries[key := e]
    ensures EntriesOk(t, n)
  {
    forall k | k in t.nodes[n].entries ensures EntryOk(t, k, t.nodes[n].entries[k]) {
      if k != key {
        assert EntryOk(s, k, s.nodes[n].entries[k]);
        FillStable(s, t, s.nodes[n].entries[k].fill);
      }
    }
  }

  lemma InsertedEntryOk(s: State, t: State, m: nat)
    requires At(s, m, Filled) && s.misses[m].node in s.nodes && t == Inserting(s, m)
    requires FillOk(t, s.misses[m]) && FillOk(s, s.misses[m])
    ensures EntryOk(t, s.misses[m].key, Entry(s.misses[m], s.clock, s.now))
  {}

  lemma InsertingNodes(s: State, t: State, n: nat, key: Key, e: Entry)
    requires NodesOk(s) && StoresEvolve(s, t) && t.published == s.published && n in s.nodes
    requires t.nodes == s.nodes[n := s.nodes[n].(entries := s.nodes[n].entries[key := e])]
    requires EntryOk(t, key, e) && e.insertedAt == s.clock
    ensures NodesOk(t) && NodesEvolve(s, t) && PublishedEvolves(s, t)
  {
    InsertedOk(s.clock, s.published, s.nodes[n], key, e);
    InsertedEntriesOk(s, t, n, key, e);
    forall i | i in t.nodes ensures EntriesOk(t, i) && NodeOk(t.clock, t.published, t.nodes[i]) {
      if i != n { EntriesStable(s, t, i); }
    }
  }

  lemma InsertingKeeps(s: State, m: nat)
    requires Invariant(s) && At(s, m, Filled)
    ensures Invariant(Inserting(s, m))
  {
    var t := Inserting(s, m);
    var fill := s.misses[m];
    StoresStable(s, t);
    FillStable(s, t, fill);
    InsertedEntryOk(s, t, m);
    InsertingNodes(s, t, fill.node, fill.key, Entry(fill, s.clock, s.now));
    MissesStable(s, t);
    RevokersStable(s, t);
  }

  // --- One node ---

  /** Steps of one node's own threads: what is left to show is about the node. */
  lemma NodeStepKeeps(s: State, n: nat, node: Node)
    requires Invariant(s) && n in s.nodes
    requires FewerEntries(s.nodes[n], node) && NodeEvolves(s.clock, s.nodes[n], node)
    requires NodeOk(s.clock + 1, s.published, node)
    ensures Invariant(WithNode(s, n, node))
  {
    var t := WithNode(s, n, node);
    StoresStable(s, t);
    OneNodeStable(s, t, n, node);
    MissesStable(s, t);
    RevokersStable(s, t);
  }

  lemma EvictedOk(clock: nat, published: map<Text, nat>, node: Node, key: Key)
    requires NodeOk(clock, published, node)
    ensures NodeOk(clock + 1, published, Evicted(node, key))
    ensures FewerEntries(node, Evicted(node, key)) && NodeEvolves(clock, node, Evicted(node, key))
  {}

  lemma EvictKeeps(s: State, n: nat, key: Key)
    requires Invariant(s) && n in s.nodes
    ensures Invariant(WithNode(s, n, Evicted(s.nodes[n], key)))
  {
    EvictedOk(s.clock, s.published, s.nodes[n], key);
    NodeStepKeeps(s, n, Evicted(s.nodes[n], key));
  }

  lemma ConnectKeeps(s: State, n: nat, node: Node)
    requires Invariant(s) && n in s.nodes && s.nodes[n].connection == Down
    requires node == s.nodes[n].(connection := Up, upSince := s.clock, queue := [])
    ensures Invariant(WithNode(s, n, node))
  {
    assert NodeOk(s.clock, s.published, s.nodes[n]);
    NodeStepKeeps(s, n, node);
  }

  lemma StartFlushKeeps(s: State, n: nat, node: Node)
    requires Invariant(s) && Waits(s, n) && !s.nodes[n].subscribed
    requires node == s.nodes[n].(listener := Flushing(Drop(None, s.clock, s.nodes[n].entries.Keys)))
    ensures Invariant(WithNode(s, n, node))
  {
    assert NodeOk(s.clock, s.published, s.nodes[n]);
    NodeStepKeeps(s, n, node);
  }

  lemma RaiseFlagKeeps(s: State, n: nat, node: Node)
    requires Invariant(s) && Busy(s, n) && s.nodes[n].listener.Flushing? && s.nodes[n].listener.drop.todo == {}
    requires node == s.nodes[n].(subscribed := true, flushedAt := s.nodes[n].listener.drop.since, listener := Idle)
    ensures Invariant(WithNode(s, n, node))
  {
    assert NodeOk(s.clock, s.published, s.nodes[n]);
    NodeStepKeeps(s, n, node);
  }

  lemma ReceiveKeeps(s: State, n: nat)
    requires Invariant(s) && Waits(s, n) && s.nodes[n].subscribed && s.nodes[n].queue != []
    ensures Invariant(WithNode(s, n, Received(s, n)))
  {
    ReceivedOk(s, n);
    NodeStepKeeps(s, n, Received(s, n));
  }

  lemma ReceivedOk(s: State, n: nat)
    requires Invariant(s) && Waits(s, n) && s.nodes[n].queue != []
    ensures NodeOk(s.clock + 1, s.published, Received(s, n))
  {
    var node, after := s.nodes[n], Received(s, n);
    assert NodeOk(s.clock, s.published, node);
    forall sub | sub in s.published && node.connection.Up? ensures HeardOf(after, sub, s.published[sub]) {
      assert HeardOf(node, sub, s.published[sub]);
      assert node.queue == [node.queue[0]] + after.queue;
    }
  }

  lemma ListenerEvictKeeps(s: State, n: nat, key: Key)
    requires Invariant(s) && Busy(s, n)
    ensures Invariant(WithNode(s, n, ListenerEvicted(s.nodes[n], key)))
  {
    assert NodeOk(s.clock, s.published, s.nodes[n]);
    NodeStepKeeps(s, n, ListenerEvicted(s.nodes[n], key));
  }

  /** A drop that has nothing left to do may be remembered as completed. */
  lemma ClearedNodeOk(clock: nat, published: map<Text, nat>, node: Node, sub: Text, drop: Drop, listener: Listener)
    requires NodeOk(clock, published, node) && listener in {Idle, node.listener}
    requires drop.sub == Some(sub) && drop.todo == {} && drop.since < clock && Covers(node.entries, drop)
    requires listener.Idle? ==> node.listener in {Idle, Dropping(drop)}
    ensures NodeOk(clock + 1, published,
      node.(listener := listener, cleared := Stamped(node.cleared, sub, drop.since)))
  {
    var after := node.(listener := listener, cleared := Stamped(node.cleared, sub, drop.since));
    forall p | p in published && node.connection.Up? ensures HeardOf(after, p, published[p]) {
      assert HeardOf(node, p, published[p]);
    }
  }

  lemma EndReceiveKeeps(s: State, n: nat, drop: Drop, node: Node)
    requires Invariant(s) && Busy(s, n) && s.nodes[n].listener == Dropping(drop)
    requires drop.todo == {} && drop.sub.Some?
    requires node == s.nodes[n].(listener := Idle, cleared := Stamped(s.nodes[n].cleared, drop.sub.value, drop.since))
    ensures Invariant(WithNode(s, n, node))
  {
    ClearedNodeOk(s.clock, s.published, s.nodes[n], drop.sub.value, drop, Idle);
    NodeStepKeeps(s, n, node);
  }

  lemma BreakKeeps(s: State, n: nat)
    requires Invariant(s) && Listens(s, n)
    ensures Invariant(WithNode(s, n, s.nodes[n].(connection := Broken)))
  {
    assert NodeOk(s.clock, s.published, s.nodes[n]);
    NodeStepKeeps(s, n, s.nodes[n].(connection := Broken));
  }

  lemma ClearFlagKeeps(s: State, n: nat, node: Node)
    requires Invariant(s) && Waits(s, n)
    requires node == s.nodes[n].(connection := Down, subscribed := false, queue := [])
    ensures Invariant(WithNode(s, n, node))
  {
    assert NodeOk(s.clock, s.published, s.nodes[n]);
    NodeStepKeeps(s, n, node);
  }

  // --- Kill and logout ---

  /** A kill or logout moves on; the nodes stay. */
  lemma RevokerStepKeeps(s: State, t: State, r: nat, rv: Revoker)
    requires Invariant(s) && StoresOk(t) && StoresEvolve(s, t) && RevokerOk(t, rv)
    requires t == WithRevoker(s, r, rv).(ended := t.ended, index := t.index, removed := t.removed)
    ensures Invariant(t)
  {
    NodesStable(s, t);
    MissesStable(s, t);
    OneRevokerStable(s, t, r, rv);
  }

  lemma BeginKeeps(s: State, r: nat, rv: Revoker)
    requires Invariant(s) && rv.node in s.nodes
    requires rv.phase.Begun? || (rv.phase.Listed? && rv.listedAt == s.clock
      && forall x :: x in rv.sessions ==> x in s.owner && s.owner[x] == rv.sub)
    ensures Invariant(WithRevoker(s, r, rv))
  {
    StoresStable(s, WithRevoker(s, r, rv));
    RevokerStepKeeps(s, WithRevoker(s, r, rv), r, rv);
  }

  lemma DeleteStores(s: State, t: State, r: nat, rv: Revoker)
    requires StoresOk(s) && In(s, r, Listed) && RevokerOk(s, s.revokers[r])
    requires rv == s.revokers[r].(phase := Deleted, deletedAt := s.clock)
    requires t == WithRevoker(s, r, rv).(ended := Ending(s, rv.sessions))
    ensures StoresOk(t) && StoresEvolve(s, t) && RevokerOk(t, rv)
  {
    assert SessionsEvolve(s, t);
    IndexStable(s, t);
  }

  lemma DeleteKeeps(s: State, t: State, r: nat, rv: Revoker)
    requires Invariant(s) && In(s, r, Listed) && rv == s.revokers[r].(phase := Deleted, deletedAt := s.clock)
    requires t == WithRevoker(s, r, rv).(ended := Ending(s, rv.sessions))
    ensures Invariant(t)
  {
    DeleteStores(s, t, r, rv);
    RevokerStepKeeps(s, t, r, rv);
  }

  /** Publishing puts the sub at the end of the queue of every node listening. */
  lemma DeliveredOk(clock: nat, published: map<Text, nat>, node: Node, sub: Text)
    requires NodeOk(clock, published, node)
    ensures NodeOk(clock + 1, published[sub := clock],
      if node.connection.Up? then node.(queue := node.queue + [sub]) else node)
  {
    if node.connection.Up? {
      var after, newer := node.(queue := node.queue + [sub]), published[sub := clock];
      forall p | p in newer ensures HeardOf(after, p, newer[p]) {
        if p != sub { assert HeardOf(node, p, published[p]); }
      }
    }
  }

  lemma DeliveredNodes(s: State, t: State, sub: Text)
    requires NodesOk(s) && StoresEvolve(s, t) && PublishedOk(s)
    requires t.nodes == Delivered(s.nodes, sub) && t.published == s.published[sub := s.clock]
    ensures NodesOk(t) && NodesEvolve(s, t) && PublishedEvolves(s, t)
  {
    forall n | n in t.nodes ensures EntriesOk(t, n) && NodeOk(t.clock, t.published, t.nodes[n]) {
      EntriesStable(s, t, n);
      DeliveredOk(s.clock, s.published, s.nodes[n], sub);
    }
  }

  lemma PublishNodes(s: State, t: State, r: nat, delivered: bool, answered: bool)
    requires Invariant(s) && In(s, r, Deleted) && t == Publishing(s, r, delivered, answered)
    ensures StoresOk(t) && StoresEvolve(s, t)
    ensures NodesOk(t) && NodesEvolve(s, t) && PublishedEvolves(s, t) && PublishedOk(t)
  {
    StoresStable(s, t);
    if delivered {
      DeliveredNodes(s, t, s.revokers[r].sub);
    } else {
      NodesStable(s, t);
    }
  }

  lemma PublishedRevokerOk(s: State, t: State, r: nat, delivered: bool, answered: bool)
    requires In(s, r, Deleted) && (answered ==> delivered) && t == Publishing(s, r, delivered, answered)
    requires RevokerOk(s, s.revokers[r])
    ensures RevokerOk(t, t.revokers[r])
  {}

  lemma PublishKeeps(s: State, r: nat, delivered: bool, answered: bool)
    requires Invariant(s) && In(s, r, Deleted) && (answered ==> delivered)
    ensures Invariant(Publishing(s, r, delivered, answered))
  {
    var t := Publishing(s, r, delivered, answered);
    PublishNodes(s, t, r, delivered, answered);
    MissesStable(s, t);
    PublishedRevokerOk(s, t, r, delivered, answered);
    OneRevokerStable(s, t, r, t.revokers[r]);
  }

  lemma StartedRevokerOk(s: State, t: State, r: nat)
    requires In(s, r, Published) && t == StartingDrop(s, r) && RevokerOk(s, s.revokers[r])
    ensures RevokerOk(t, t.revokers[r])
  {}

  lemma StartDropKeeps(s: State, r: nat)
    requires Invariant(s) && In(s, r, Published)
    ensures Invariant(StartingDrop(s, r))
  {
    var t := StartingDrop(s, r);
    StoresStable(s, t);
    StartedRevokerOk(s, t, r);
    RevokerStepKeeps(s, t, r, t.revokers[r]);
  }

  /** A kill or logout changes the node it runs on. */
  lemma RevokerOnNodeKeeps(s: State, t: State, r: nat, n: nat, rv: Revoker, node: Node)
    requires Invariant(s) && n in s.nodes
    requires t == WithRevoker(s, r, rv).(nodes := s.nodes[n := node])
    requires FewerEntries(s.nodes[n], node) && NodeEvolves(s.clock, s.nodes[n], node)
    requires NodeOk(s.clock + 1, s.published, node) && RevokerOk(t, rv)
    ensures Invariant(t)
  {
    StoresStable(s, t);
    OneNodeStable(s, t, n, node);
    MissesStable(s, t);
    OneRevokerStable(s, t, r, rv);
  }

  lemma DroppedRevokerOk(s: State, t: State, r: nat, key: Key)
    requires In(s, r, Clearing) && t == DroppingOne(s, r, key) && RevokerOk(s, s.revokers[r])
    ensures RevokerOk(t, t.revokers[r])
  {}

  lemma DroppingOneKeeps(s: State, r: nat, key: Key)
    requires Invariant(s) && In(s, r, Clearing)
    ensures Invariant(DroppingOne(s, r, key))
  {
    var t := DroppingOne(s, r, key);
    var n := s.revokers[r].node;
    EvictedOk(s.clock, s.published, s.nodes[n], key);
    DroppedRevokerOk(s, t, r, key);
    RevokerOnNodeKeeps(s, t, r, n, t.revokers[r], t.nodes[n]);
  }

  lemma EndingDropKeeps(s: State, r: nat)
    requires Invariant(s) && In(s, r, Clearing) && s.revokers[r].drop.todo == {}
    ensures Invariant(EndingDrop(s, r))
  {
    var t := EndingDrop(s, r);
    var rv := s.revokers[r];
    assert RevokerOk(s, rv);
    ClearedNodeOk(s.clock, s.published, s.nodes[rv.node], rv.sub, rv.drop, s.nodes[rv.node].listener);
    RevokerOnNodeKeeps(s, t, r, rv.node, t.revokers[r], t.nodes[rv.node]);
  }

  lemma ForgettingStores(s: State, r: nat, answered: bool)
    requires StoresOk(s) && In(s, r, Cleared)
    ensures StoresOk(Forgetting(s, r, answered)) && StoresEvolve(s, Forgetting(s, r, answered))
  {
    var t := Forgetting(s, r, answered);
    var rv := s.revokers[r];
    forall sub, x | x in Indexed(t.index, sub) ensures x in Indexed(s.index, sub) {
    }
    forall sub, x | x in Indexed(s.index, sub)
      ensures x in Indexed(t.index, sub) || (x in t.removed && t.removed[x].at == s.clock)
    {
    }
  }

  lemma DoneRevokerOk(s: State, t: State, r: nat)
    requires In(s, r, Cleared) && s.revokers[r].announced && t == Forgetting(s, r, true)
    requires RevokerOk(s, s.revokers[r])
    ensures RevokerOk(t, t.revokers[r])
  {}

  lemma ForgettingKeeps(s: State, r: nat, answered: bool)
    requires Invariant(s) && In(s, r, Cleared) && s.revokers[r].announced
    ensures Invariant(Forgetting(s, r, answered))
  {
    var t := Forgetting(s, r, answered);
    ForgettingStores(s, r, answered);
    if answered {
      DoneRevokerOk(s, t, r);
      RevokerStepKeeps(s, t, r, t.revokers[r]);
    } else {
      StoreStepKeeps(s, t);
    }
  }

  // --- Any step ---

  lemma StoreNextKeeps(s: State, step: Step, t: State)
    requires Invariant(s) && StoreNext(s, step, t)
    ensures Invariant(t)
  {
    if step.Tick? {
      TickKeeps(s, step.now);
    } else if step.Login? {
      LoginKeeps(s, step.session, step.sub);
    } else if step.EndSession? {
      EndSessionKeeps(s, step.session);
    } else if step.ChangeTables? {
      QuietKeeps(s, t);
    } else if step.Serve? {
      QuietKeeps(s, t);
    }
  }

  lemma RecordNextKeeps(s: State, step: Step, t: State)
    requires Invariant(s) && RecordNext(s, step, t)
    ensures Invariant(t)
  {
    if step.Authenticate? {
      AuthenticateKeeps(s, step, t);
    } else if step.AddToIndex? {
      AddingKeeps(s, step, t);
    } else if step.SetDeadline? {
      SettingDeadlineKeeps(s, step, t);
    }
  }

  lemma FillNextKeeps(s: State, step: Step, t: State)
    requires Invariant(s) && FillNext(s, step, t)
    ensures Invariant(t)
  {
    if step.LoadRules? {
      LoadingKeeps(s, step.thread);
    } else if step.Insert? {
      InsertingKeeps(s, step.thread);
    } else if step.Abandon? {
      QuietKeeps(s, t);
    }
  }

  lemma SubscriptionNextKeeps(s: State, step: Step, t: State)
    requires Invariant(s) && SubscriptionNext(s, step, t)
    ensures Invariant(t)
  {
    if step.Connect? {
      ConnectKeeps(s, step.node, t.nodes[step.node]);
    } else if step.StartFlush? {
      StartFlushKeeps(s, step.node, t.nodes[step.node]);
    } else if step.RaiseFlag? {
      RaiseFlagKeeps(s, step.node, t.nodes[step.node]);
    } else if step.Break? {
      BreakKeeps(s, step.node);
    } else if step.ClearFlag? {
      ClearFlagKeeps(s, step.node, t.nodes[step.node]);
    }
  }

  lemma MessageNextKeeps(s: State, step: Step, t: State)
    requires Invariant(s) && MessageNext(s, step, t)
    ensures Invariant(t)
  {
    if step.Evict? {
      EvictKeeps(s, step.node, step.key);
    } else if step.Receive? {
      ReceiveKeeps(s, step.node);
    } else if step.ListenerEvict? {
      ListenerEvictKeeps(s, step.node, step.key);
    } else if step.EndReceive? {
      EndReceiveKeeps(s, step.node, s.nodes[step.node].listener.drop, t.nodes[step.node]);
    }
  }

  lemma BeginNextKeeps(s: State, step: Step, t: State)
    requires Invariant(s) && BeginNext(s, step, t)
    ensures Invariant(t)
  {
    if step.BeginKill? {
      BeginKeeps(s, step.thread, t.revokers[step.thread]);
    } else if step.BeginLogout? {
      BeginKeeps(s, step.thread, t.revokers[step.thread]);
    } else if step.ListSessions? {
      BeginKeeps(s, step.thread, t.revokers[step.thread]);
    } else if step.Fail? {
      QuietKeeps(s, t);
    }
  }

  lemma CutNextKeeps(s: State, step: Step, t: State)
    requires Invariant(s) && CutNext(s, step, t)
    ensures Invariant(t)
  {
    if step.DeleteSessions? {
      DeleteKeeps(s, t, step.thread, t.revokers[step.thread]);
    } else if step.Publish? {
      PublishKeeps(s, step.thread, step.delivered, step.answered);
    } else if step.StartDrop? {
      StartDropKeeps(s, step.thread);
    }
  }

  lemma FinishNextKeeps(s: State, step: Step, t: State)
    requires Invariant(s) && FinishNext(s, step, t)
    ensures Invariant(t)
  {
    if step.DropOne? {
      DroppingOneKeeps(s, step.thread, step.key);
    } else if step.EndDrop? {
      EndingDropKeeps(s, step.thread);
    } else if step.Forget? {
      ForgettingKeeps(s, step.thread, step.answered);
    }
  }

  lemma NextKeeps(s: State, step: Step, t: State)
    requires Invariant(s) && Next(s, step, t)
    ensures Invariant(t)
  {
    if StoreNext(s, step, t) {
      StoreNextKeeps(s, step, t);
    } else if RecordNext(s, step, t) {
      RecordNextKeeps(s, step, t);
    } else if FillNext(s, step, t) {
      FillNextKeeps(s, step, t);
    } else if SubscriptionNext(s, step, t) {
      SubscriptionNextKeeps(s, step, t);
    } else if MessageNext(s, step, t) {
      MessageNextKeeps(s, step, t);
    } else if BeginNext(s, step, t) {
      BeginNextKeeps(s, step, t);
    } else if CutNext(s, step, t) {
      CutNextKeeps(s, step, t);
    } else {
      FinishNextKeeps(s, step, t);
    }
  }

  lemma InitInvariant(s: State)
    requires Init(s)
    ensures Invariant(s)
  {}
}
