/** What holds over whole runs of the fleet: the stamps of the model are tied
    back to the steps that made them, and the main results are stated about
    those steps. */
module FleetRuns {
  import opened Prelude
  import opened SessionCookie
  import opened Fleet
  import opened FleetSafety
  import opened FleetChanges

  ghost predicate Takes(states: seq<State>, steps: seq<Step>, i: nat)
    requires |states| == |steps| + 1
  {
    i < |steps| && Next(states[i], steps[i], states[i + 1])
  }

  ghost predicate Run(states: seq<State>, steps: seq<Step>) {
    && |states| == |steps| + 1 && Init(states[0])
    && forall i: nat {:trigger Takes(states, steps, i)} :: i < |steps| ==> Takes(states, steps, i)
  }

  lemma {:induction false} RunClock(states: seq<State>, steps: seq<Step>, i: nat)
    requires Run(states, steps) && i < |states|
    ensures states[i].clock == i + 1
    decreases i
  {
    if i > 0 {
      RunClock(states, steps, i - 1);
      assert Takes(states, steps, i - 1);
    }
  }

  /** The invariant holds in every state of every run. */
  lemma {:induction false} RunInvariant(states: seq<State>, steps: seq<Step>, i: nat)
    requires Run(states, steps) && i < |states|
    ensures Invariant(states[i])
    decreases i
  {
    if i == 0 {
      InitInvariant(states[0]);
    } else {
      RunInvariant(states, steps, i - 1);
      assert Takes(states, steps, i - 1);
      NextKeeps(states[i - 1], steps[i - 1], states[i]);
    }
  }

  // --- What the stamps mean ---

  /** Step number `at` of the run. */
  ghost predicate Made(steps: seq<Step>, at: nat) { 1 <= at <= |steps| }

  /** Each stamp of the miss of this thread names that thread's own step. */
  ghost predicate FillTrue(states: seq<State>, steps: seq<Step>, m: nat, f: Fill)
    requires |states| == |steps| + 1
  {
    && Made(steps, f.verifiedAt)
    && steps[f.verifiedAt - 1] == Authenticate(m, f.node, f.key, f.session, f.identity)
    && (f.HasAdded() ==> Made(steps, f.addedAt) && steps[f.addedAt - 1] == AddToIndex(m))
    && (f.HasRecorded() ==>
          && Made(steps, f.recordedAt) && steps[f.recordedAt - 1] == SetDeadline(m)
          && f.recordedWall == states[f.recordedAt - 1].now)
    && (f.stage.Filled? ==>
          && Made(steps, f.loadedAt) && steps[f.loadedAt - 1] == LoadRules(m)
          && m in states[f.loadedAt].misses && states[f.loadedAt].misses[m] == f)
  }

  ghost predicate EntryTrue(states: seq<State>, steps: seq<Step>, n: nat, e: Entry)
    requires |states| == |steps| + 1
  {
    && Made(steps, e.insertedAt) && steps[e.insertedAt - 1].Insert?
    && (var m := steps[e.insertedAt - 1].thread;
        && FillTrue(states, steps, m, e.fill)
        && m in states[e.insertedAt - 1].misses && states[e.insertedAt - 1].misses[m] == e.fill)
    && e.fill.node == n && e.insertedWall == states[e.insertedAt - 1].now
  }

  ghost predicate ListedTrue(states: seq<State>, steps: seq<Step>, r: nat, rv: Revoker)
    requires |states| == |steps| + 1
  {
    Made(steps, rv.listedAt) &&
    match rv.kind
    case Kill =>
      steps[rv.listedAt - 1] == ListSessions(r) && rv.sessions == Indexed(states[rv.listedAt - 1].index, rv.sub)
    case Logout =>
      steps[rv.listedAt - 1].BeginLogout? && rv.sessions == {steps[rv.listedAt - 1].session}
  }

  ghost predicate PublishedTrue(steps: seq<Step>, r: nat, rv: Revoker) {
    && Made(steps, rv.publishedAt) && steps[rv.publishedAt - 1].Publish?
    && steps[rv.publishedAt - 1].thread == r && steps[rv.publishedAt - 1].answered == rv.announced
  }

  ghost predicate RevokerTrue(states: seq<State>, steps: seq<Step>, r: nat, rv: Revoker)
    requires |states| == |steps| + 1
  {
    && (rv.phase.Begun? ==> rv.kind.Kill?)
    && (rv.HasListed() ==> ListedTrue(states, steps, r, rv))
    && (rv.HasDeleted() ==> Made(steps, rv.deletedAt) && steps[rv.deletedAt - 1] == DeleteSessions(r))
    && (rv.HasPublished() ==> PublishedTrue(steps, r, rv))
    && (rv.HasRead() ==> Made(steps, rv.drop.since) && steps[rv.drop.since - 1] == StartDrop(r))
  }

  ghost predicate RemovalTrue(states: seq<State>, steps: seq<Step>, x: Text, removal: Removal)
    requires |states| == |steps| + 1
  {
    Made(steps, removal.at) && RemovedBy(states[removal.at - 1], steps[removal.at - 1], x, removal.cause)
  }

  ghost predicate Remembers(states: seq<State>, steps: seq<Step>, s: State)
    requires |states| == |steps| + 1
  {
    && (forall m :: m in s.misses ==> FillTrue(states, steps, m, s.misses[m]))
    && (forall n, k :: n in s.nodes && k in s.nodes[n].entries ==> EntryTrue(states, steps, n, s.nodes[n].entries[k]))
    && (forall r :: r in s.revokers ==> RevokerTrue(states, steps, r, s.revokers[r]))
    && (forall x :: x in s.removed ==> RemovalTrue(states, steps, x, s.removed[x]))
  }

  lemma MovedTrue(states: seq<State>, steps: seq<Step>, i: nat, m: nat, fill: Fill)
    requires |states| == |steps| + 1 && i < |steps| && states[i].clock == i + 1
    requires m in states[i].misses ==> FillTrue(states, steps, m, states[i].misses[m])
    requires Moved(states[i], steps[i], m, fill)
    requires m in states[i + 1].misses && states[i + 1].misses[m] == fill
    ensures FillTrue(states, steps, m, fill)
  {}

  lemma InsertedTrue(states: seq<State>, steps: seq<Step>, i: nat, n: nat, e: Entry)
    requires |states| == |steps| + 1 && i < |steps| && states[i].clock == i + 1
    requires Remembers(states, steps, states[i]) && Inserted(states[i], steps[i], n, e)
    ensures EntryTrue(states, steps, n, e)
  {}

  lemma AdvancedTrue(states: seq<State>, steps: seq<Step>, i: nat, r: nat, rv: Revoker)
    requires |states| == |steps| + 1 && i < |steps| && states[i].clock == i + 1
    requires r in states[i].revokers ==> RevokerTrue(states, steps, r, states[i].revokers[r])
    requires Advanced(states[i], steps[i], r, rv)
    ensures RevokerTrue(states, steps, r, rv)
  {
    if steps[i].DropOne? || steps[i].EndDrop? || steps[i].Forget? {
      SameStampsTrue(states, steps, r, states[i].revokers[r], rv);
    }
  }

  lemma SameStampsTrue(states: seq<State>, steps: seq<Step>, r: nat, before: Revoker, after: Revoker)
    requires |states| == |steps| + 1 && RevokerTrue(states, steps, r, before) && before.HasRead()
    requires after == before.(phase := after.phase, drop := after.drop) && after.drop.since == before.drop.since
    requires !after.phase.Begun?
    ensures RevokerTrue(states, steps, r, after)
  {}

  lemma NextRemembers(states: seq<State>, steps: seq<Step>, i: nat)
    requires |states| == |steps| + 1 && Takes(states, steps, i) && states[i].clock == i + 1
    requires Remembers(states, steps, states[i])
    ensures Remembers(states, steps, states[i + 1])
  {
    var s, step, t := states[i], steps[i], states[i + 1];
    forall m | m in t.misses ensures FillTrue(states, steps, m, t.misses[m]) {
      MissChanges(s, step, t, m);
      if Moved(s, step, m, t.misses[m]) { MovedTrue(states, steps, i, m, t.misses[m]); }
    }
    forall n, k | n in t.nodes && k in t.nodes[n].entries ensures EntryTrue(states, steps, n, t.nodes[n].entries[k]) {
      EntryChanges(s, step, t, n, k);
      if Inserted(s, step, n, t.nodes[n].entries[k]) { InsertedTrue(states, steps, i, n, t.nodes[n].entries[k]); }
    }
    forall r | r in t.revokers ensures RevokerTrue(states, steps, r, t.revokers[r]) {
      RevokerChanges(s, step, t, r);
      if Advanced(s, step, r, t.revokers[r]) { AdvancedTrue(states, steps, i, r, t.revokers[r]); }
    }
    forall x | x in t.removed ensures RemovalTrue(states, steps, x, t.removed[x]) {
      RemovalChanges(s, step, t, x);
    }
  }

  /** Every stamp names the step that made it. */
  lemma {:induction false} RunRemembers(states: seq<State>, steps: seq<Step>, i: nat)
    requires Run(states, steps) && i < |states|
    ensures Remembers(states, steps, states[i])
    decreases i
  {
    if i > 0 {
      RunRemembers(states, steps, i - 1);
      RunClock(states, steps, i - 1);
      NextRemembers(states, steps, i - 1);
    }
  }

  // --- What lasts ---

  lemma LastsTransitive(a: State, b: State, c: State)
    requires Lasts(a, b) && Lasts(b, c)
    ensures Lasts(a, c)
  {
    forall n | n in a.nodes ensures NodeLasts(a.nodes[n], c.nodes[n]) {
      assert NodeLasts(a.nodes[n], b.nodes[n]) && NodeLasts(b.nodes[n], c.nodes[n]);
    }
  }

  lemma {:induction false} RunLasts(states: seq<State>, steps: seq<Step>, i: nat, j: nat)
    requires Run(states, steps) && i <= j < |states|
    ensures Lasts(states[i], states[j])
    decreases j
  {
    if i < j {
      RunLasts(states, steps, i, j - 1);
      StepLasts(states, steps, j - 1);
      LastsTransitive(states[i], states[j - 1], states[j]);
    }
  }

  lemma StepLasts(states: seq<State>, steps: seq<Step>, i: nat)
    requires Run(states, steps) && i < |steps|
    ensures Lasts(states[i], states[i + 1])
  {
    RunInvariant(states, steps, i);
    assert Takes(states, steps, i);
    NextLasts(states[i], steps[i], states[i + 1]);
  }

  ghost predicate YoungerThan(s: State, n: nat, k: Key, at: nat) {
    n in s.nodes && k in s.nodes[n].entries ==> s.nodes[n].entries[k].insertedAt >= at
  }

  /** The step inserts under this key at this node. */
  ghost predicate InsertsAt(s: State, step: Step, n: nat, k: Key) {
    && step.Insert? && At(s, step.thread, Filled)
    && s.misses[step.thread].node == n && s.misses[step.thread].key == k
  }

  lemma InsertPutsIn(s: State, step: Step, t: State, n: nat, k: Key)
    requires Next(s, step, t) && InsertsAt(s, step, n, k)
    ensures YoungerThan(t, n, k, s.clock)
  {}

  lemma NextYounger(states: seq<State>, steps: seq<Step>, i: nat, n: nat, k: Key, at: nat)
    requires |states| == |steps| + 1 && Takes(states, steps, i) && states[i].clock >= at
    requires YoungerThan(states[i], n, k, at) || (InsertsAt(states[i], steps[i], n, k) && at == states[i].clock)
    ensures YoungerThan(states[i + 1], n, k, at)
  {
    if InsertsAt(states[i], steps[i], n, k) {
      InsertPutsIn(states[i], steps[i], states[i + 1], n, k);
    } else if n in states[i + 1].nodes && k in states[i + 1].nodes[n].entries {
      EntryChanges(states[i], steps[i], states[i + 1], n, k);
    }
  }

  /** An insertion leaves no older entry under its key, then or later. */
  lemma {:induction false} LatestInsert(states: seq<State>, steps: seq<Step>, j: nat, i: nat, n: nat, k: Key)
    requires Run(states, steps) && j < i < |states| && InsertsAt(states[j], steps[j], n, k)
    ensures YoungerThan(states[i], n, k, j + 1)
    decreases i
  {
    RunClock(states, steps, i - 1);
    if i > j + 1 {
      LatestInsert(states, steps, j, i - 1, n, k);
    }
    NextYounger(states, steps, i - 1, n, k, j + 1);
  }

  /** The same miss, however far it has come. */
  predicate SameMiss(f: Fill, g: Fill) {
    f.node == g.node && f.key == g.key && f.session == g.session && f.identity == g.identity
    && f.verifiedAt == g.verifiedAt
  }

  /** A miss has been in flight ever since it authenticated. */
  lemma {:induction false} InFlightSince(states: seq<State>, steps: seq<Step>, j: nat, i: nat, m: nat)
    requires Run(states, steps) && j <= i < |states|
    requires m in states[i].misses && states[i].misses[m].verifiedAt <= j
    ensures m in states[j].misses && SameMiss(states[j].misses[m], states[i].misses[m])
    decreases i
  {
    if j < i {
      WasInFlight(states, steps, i - 1, m);
      InFlightSince(states, steps, j, i - 1, m);
    }
  }

  lemma WasInFlight(states: seq<State>, steps: seq<Step>, i: nat, m: nat)
    requires Run(states, steps) && i < |steps|
    requires m in states[i + 1].misses && states[i + 1].misses[m].verifiedAt <= i
    ensures m in states[i].misses && SameMiss(states[i].misses[m], states[i + 1].misses[m])
  {
    RunClock(states, steps, i);
    assert Takes(states, steps, i);
    MissChanges(states[i], steps[i], states[i + 1], m);
  }

  // --- The life of an entry ---

  /** The steps of one miss, from its authentication to its insertion. */
  datatype Life = Life(thread: nat, verified: nat, added: nat, recorded: nat, loaded: nat, inserted: nat)

  /** This entry of this node was made by these steps and no others: one thread,
      in flight without a break, authenticated this session for this key,
      recorded it, loaded the rules and inserted them; and nothing has been
      inserted under the key since. */
  ghost predicate Lived(states: seq<State>, steps: seq<Step>, i: nat, n: nat, k: Key, e: Entry, life: Life)
    requires |states| == |steps| + 1
  {
    && life.verified < life.added < life.recorded < life.loaded < life.inserted < i < |states|
    && steps[life.verified] == Authenticate(life.thread, n, k, e.fill.session, e.fill.identity)
    && steps[life.added] == AddToIndex(life.thread)
    && steps[life.recorded] == SetDeadline(life.thread)
    && steps[life.loaded] == LoadRules(life.thread)
    && steps[life.inserted] == Insert(life.thread)
    && (forall j :: life.verified < j <= life.inserted ==>
          life.thread in states[j].misses && SameMiss(states[j].misses[life.thread], e.fill))
    && states[life.loaded + 1].misses[life.thread] == states[life.inserted].misses[life.thread] == e.fill
    && e.fill.node == n && e.fill.key == k
    && (forall j :: life.inserted < j < i ==> !InsertsAt(states[j], steps[j], n, k))
    && e.insertedWall == states[life.inserted].now
  }

  function LifeOf(steps: seq<Step>, e: Entry): Life
    requires Made(steps, e.insertedAt) && steps[e.insertedAt - 1].Insert?
    requires e.fill.verifiedAt > 0 && e.fill.addedAt > 0 && e.fill.recordedAt > 0 && e.fill.loadedAt > 0
  {
    Life(steps[e.insertedAt - 1].thread,
      e.fill.verifiedAt - 1, e.fill.addedAt - 1, e.fill.recordedAt - 1, e.fill.loadedAt - 1, e.insertedAt - 1)
  }

  /** Every entry of every state has lived, and its stamps are its life. */
  lemma EntryLived(states: seq<State>, steps: seq<Step>, i: nat, n: nat, k: Key) returns (life: Life)
    requires Run(states, steps) && i < |states| && n in states[i].nodes && k in states[i].nodes[n].entries
    ensures Lived(states, steps, i, n, k, states[i].nodes[n].entries[k], life)
    ensures var e := states[i].nodes[n].entries[k];
      && e.insertedAt == life.inserted + 1 && e.fill.verifiedAt == life.verified + 1 && e.fill.addedAt == life.added + 1
      && e.fill.recordedAt == life.recorded + 1 && e.fill.loadedAt == life.loaded + 1
      && e.fill.recordedWall == states[life.recorded].now
  {
    var e := states[i].nodes[n].entries[k];
    EntryStamps(states, steps, i, n, k);
    life := LifeOf(steps, e);
    var b := life.inserted;
    forall j | life.verified < j <= b
      ensures life.thread in states[j].misses && SameMiss(states[j].misses[life.thread], e.fill)
    {
      InFlightSince(states, steps, j, b, life.thread);
    }
    forall j | b < j < i ensures !InsertsAt(states[j], steps[j], n, k) {
      InsertIsYounger(states, steps, j, i, n, k);
    }
  }

  lemma EntryStamps(states: seq<State>, steps: seq<Step>, i: nat, n: nat, k: Key)
    requires Run(states, steps) && i < |states| && n in states[i].nodes && k in states[i].nodes[n].entries
    ensures EntryTrue(states, steps, n, states[i].nodes[n].entries[k])
    ensures var e := states[i].nodes[n].entries[k];
      && e.fill.stage.Filled? && e.fill.key == k
      && 0 < e.fill.verifiedAt < e.fill.addedAt < e.fill.recordedAt < e.fill.loadedAt < e.insertedAt <= i
  {
    RunRemembers(states, steps, i);
    RunInvariant(states, steps, i);
    RunClock(states, steps, i);
    assert EntriesOk(states[i], n);
    assert EntryOk(states[i], k, states[i].nodes[n].entries[k]);
  }

  lemma InsertIsYounger(states: seq<State>, steps: seq<Step>, j: nat, i: nat, n: nat, k: Key)
    requires Run(states, steps) && j < i < |states| && n in states[i].nodes && k in states[i].nodes[n].entries
    ensures InsertsAt(states[j], steps[j], n, k) ==> states[i].nodes[n].entries[k].insertedAt > j
  {
    if InsertsAt(states[j], steps[j], n, k) {
      LatestInsert(states, steps, j, i, n, k);
    }
  }
}
