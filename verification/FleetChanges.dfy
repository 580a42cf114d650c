/** What one step of the fleet can have changed: which thread it moved on, and
    which entry it put in. */
module FleetChanges {
  import opened Prelude
  import opened SessionCookie
  import opened Fleet
  import opened FleetSafety

  /** No entry is there that was not there before. */
  ghost predicate NoNewEntry(s: State, t: State) {
    t.nodes.Keys == s.nodes.Keys && forall n :: n in t.nodes ==> FewerEntries(s.nodes[n], t.nodes[n])
  }

  /** This miss was moved on by this very step. */
  ghost predicate Moved(s: State, step: Step, m: nat, fill: Fill) {
    || (step.Authenticate? && step.thread == m
        && fill == NewFill(s, step.node, step.key, step.session, step.identity))
    || (step == AddToIndex(m) && At(s, m, Verified) && fill == s.misses[m].(stage := Added, addedAt := s.clock))
    || (step == SetDeadline(m) && At(s, m, Added)
        && fill == s.misses[m].(stage := Recorded, recordedAt := s.clock, recordedWall := s.now))
    || (step == LoadRules(m) && At(s, m, Recorded)
        && fill == s.misses[m].(stage := Filled, loadedAt := s.clock, loaded := fill.loaded))
  }

  lemma RecordMisses(s: State, step: Step, t: State, m: nat)
    requires RecordNext(s, step, t) && m in t.misses
    ensures (m in s.misses && t.misses[m] == s.misses[m]) || Moved(s, step, m, t.misses[m])
  {}

  lemma FillMisses(s: State, step: Step, t: State, m: nat)
    requires FillNext(s, step, t) && m in t.misses
    ensures (m in s.misses && t.misses[m] == s.misses[m]) || Moved(s, step, m, t.misses[m])
  {}

  lemma StoreFrame(s: State, step: Step, t: State)
    requires StoreNext(s, step, t)
    ensures t.misses == s.misses && t.nodes == s.nodes && t.revokers == s.revokers
  {}

  lemma SubscriptionFrame(s: State, step: Step, t: State)
    requires SubscriptionNext(s, step, t)
    ensures t.misses == s.misses && t.revokers == s.revokers
    ensures NoNewEntry(s, t)
  {}

  lemma MessageFrame(s: State, step: Step, t: State)
    requires MessageNext(s, step, t)
    ensures t.misses == s.misses && t.revokers == s.revokers
    ensures NoNewEntry(s, t)
  {}

  lemma BeginFrame(s: State, step: Step, t: State)
    requires BeginNext(s, step, t)
    ensures t.misses == s.misses && t.nodes == s.nodes
  {}

  lemma CutFrame(s: State, step: Step, t: State)
    requires CutNext(s, step, t)
    ensures t.misses == s.misses
    ensures NoNewEntry(s, t)
  {}

  lemma FinishFrame(s: State, step: Step, t: State)
    requires FinishNext(s, step, t)
    ensures t.misses == s.misses
    ensures NoNewEntry(s, t)
  {}

  lemma MissChanges(s: State, step: Step, t: State, m: nat)
    requires Next(s, step, t) && m in t.misses
    ensures (m in s.misses && t.misses[m] == s.misses[m]) || Moved(s, step, m, t.misses[m])
  {
    if StoreNext(s, step, t) {
      StoreFrame(s, step, t);
    } else if RecordNext(s, step, t) {
      RecordMisses(s, step, t, m);
    } else if FillNext(s, step, t) {
      FillMisses(s, step, t, m);
    } else if SubscriptionNext(s, step, t) {
      SubscriptionFrame(s, step, t);
    } else if MessageNext(s, step, t) {
      MessageFrame(s, step, t);
    } else if BeginNext(s, step, t) {
      BeginFrame(s, step, t);
    } else if CutNext(s, step, t) {
      CutFrame(s, step, t);
    } else {
      FinishFrame(s, step, t);
    }
  }

  /** This entry was inserted by this very step. */
  ghost predicate Inserted(s: State, step: Step, n: nat, e: Entry) {
    && step.Insert? && At(s, step.thread, Filled) && s.misses[step.thread].node == n
    && e == Entry(s.misses[step.thread], s.clock, s.now)
  }

  lemma FillEntries(s: State, step: Step, t: State, n: nat, k: Key)
    requires FillNext(s, step, t) && n in t.nodes && k in t.nodes[n].entries
    ensures n in s.nodes && t.revokers == s.revokers
    ensures (k in s.nodes[n].entries && t.nodes[n].entries[k] == s.nodes[n].entries[k])
      || (Inserted(s, step, n, t.nodes[n].entries[k]) && k == s.misses[step.thread].key)
  {}

  lemma RecordFrame(s: State, step: Step, t: State)
    requires RecordNext(s, step, t)
    ensures t.nodes == s.nodes && t.revokers == s.revokers
  {}

  lemma EntryChanges(s: State, step: Step, t: State, n: nat, k: Key)
    requires Next(s, step, t) && n in t.nodes && k in t.nodes[n].entries
    ensures n in s.nodes
    ensures (k in s.nodes[n].entries && t.nodes[n].entries[k] == s.nodes[n].entries[k])
      || (Inserted(s, step, n, t.nodes[n].entries[k]) && k == s.misses[step.thread].key)
  {
    if StoreNext(s, step, t) {
      StoreFrame(s, step, t);
    } else if RecordNext(s, step, t) {
      RecordFrame(s, step, t);
    } else if FillNext(s, step, t) {
      FillEntries(s, step, t, n, k);
    } else if SubscriptionNext(s, step, t) {
      SubscriptionFrame(s, step, t);
    } else if MessageNext(s, step, t) {
      MessageFrame(s, step, t);
    } else if BeginNext(s, step, t) {
      BeginFrame(s, step, t);
    } else if CutNext(s, step, t) {
      CutFrame(s, step, t);
    } else {
      FinishFrame(s, step, t);
    }
  }

  /** This kill or logout was moved on by this very step. */
  ghost predicate Advanced(s: State, step: Step, r: nat, rv: Revoker) {
    || (step.BeginKill? && step.thread == r
        && rv == Revoker(step.node, step.sub, Kill, Begun, {}, 0, 0, 0, false, NO_DROP))
    || (step.BeginLogout? && step.thread == r && rv.kind.Logout? && rv.phase.Listed?
        && rv.sessions == {step.session} && rv.listedAt == s.clock)
    || (step == ListSessions(r) && In(s, r, Begun)
        && rv == s.revokers[r].(phase := Listed, sessions := Indexed(s.index, s.revokers[r].sub), listedAt := s.clock))
    || (step == DeleteSessions(r) && In(s, r, Listed)
        && rv == s.revokers[r].(phase := Deleted, deletedAt := s.clock))
    || (step.Publish? && step.thread == r && In(s, r, Deleted)
        && rv == s.revokers[r].(phase := Published, publishedAt := s.clock, announced := step.answered))
    || (step == StartDrop(r) && In(s, r, Published)
        && rv == s.revokers[r].(phase := Clearing, drop := rv.drop) && rv.drop.since == s.clock)
    || (step.DropOne? && step.thread == r && In(s, r, Clearing)
        && rv == s.revokers[r].(drop := rv.drop) && rv.drop.since == s.revokers[r].drop.since)
    || (step == EndDrop(r) && In(s, r, Clearing) && rv == s.revokers[r].(phase := Cleared))
    || (step.Forget? && step.thread == r && In(s, r, Cleared) && rv == s.revokers[r].(phase := Done))
  }

  lemma BeginRevokers(s: State, step: Step, t: State, r: nat)
    requires BeginNext(s, step, t) && r in t.revokers
    ensures (r in s.revokers && t.revokers[r] == s.revokers[r]) || Advanced(s, step, r, t.revokers[r])
  {}

  lemma CutRevokers(s: State, step: Step, t: State, r: nat)
    requires CutNext(s, step, t) && r in t.revokers
    ensures (r in s.revokers && t.revokers[r] == s.revokers[r]) || Advanced(s, step, r, t.revokers[r])
  {}

  lemma FinishRevokers(s: State, step: Step, t: State, r: nat)
    requires FinishNext(s, step, t) && r in t.revokers
    ensures (r in s.revokers && t.revokers[r] == s.revokers[r]) || Advanced(s, step, r, t.revokers[r])
  {}

  lemma FillFrame(s: State, step: Step, t: State)
    requires FillNext(s, step, t)
    ensures t.revokers == s.revokers
  {}

  lemma RevokerChanges(s: State, step: Step, t: State, r: nat)
    requires Next(s, step, t) && r in t.revokers
    ensures (r in s.revokers && t.revokers[r] == s.revokers[r]) || Advanced(s, step, r, t.revokers[r])
  {
    if StoreNext(s, step, t) {
      StoreFrame(s, step, t);
    } else if RecordNext(s, step, t) {
      RecordFrame(s, step, t);
    } else if FillNext(s, step, t) {
      FillFrame(s, step, t);
    } else if SubscriptionNext(s, step, t) {
      SubscriptionFrame(s, step, t);
    } else if MessageNext(s, step, t) {
      MessageFrame(s, step, t);
    } else if BeginNext(s, step, t) {
      BeginRevokers(s, step, t, r);
    } else if CutNext(s, step, t) {
      CutRevokers(s, step, t, r);
    } else {
      FinishRevokers(s, step, t, r);
    }
  }

  /** What lasts: sessions stay ended, completed kills and logouts are
      remembered, and publications, drops and flushes are only overtaken by
      later ones. */
  ghost predicate Lasts(s: State, t: State) {
    && t.nodes.Keys == s.nodes.Keys && s.now <= t.now
    && (forall x :: x in s.owner ==> x in t.owner && t.owner[x] == s.owner[x])
    && (forall x :: x in s.ended ==> x in t.ended)
    && (forall r :: r in s.revokers && s.revokers[r].phase.Done? ==> r in t.revokers && t.revokers[r] == s.revokers[r])
    && (forall sub :: sub in s.published ==> sub in t.published && t.published[sub] >= s.published[sub])
    && (forall n :: n in s.nodes ==> NodeLasts(s.nodes[n], t.nodes[n]))
  }

  ghost predicate NodeLasts(a: Node, b: Node) {
    && b.flushedAt >= a.flushedAt
    && (forall sub :: sub in a.cleared ==> sub in b.cleared && b.cleared[sub] >= a.cleared[sub])
  }

  lemma StoreLasts(s: State, step: Step, t: State)
    requires StoreNext(s, step, t)
    ensures Lasts(s, t)
  {
    StoreFrame(s, step, t);
    SameLasts(s, t);
  }

  lemma SameLasts(s: State, t: State)
    requires t.nodes == s.nodes && t.revokers == s.revokers && t.published == s.published && s.now <= t.now
    requires (forall x :: x in s.owner ==> x in t.owner && t.owner[x] == s.owner[x])
    requires (forall x :: x in s.ended ==> x in t.ended)
    ensures Lasts(s, t)
  {}

  lemma RecordLasts(s: State, step: Step, t: State)
    requires RecordNext(s, step, t)
    ensures Lasts(s, t)
  {}

  lemma FillLasts(s: State, step: Step, t: State)
    requires FillNext(s, step, t)
    ensures Lasts(s, t)
  {}

  lemma OneNodeLasts(s: State, t: State, n: nat)
    requires n in s.nodes && n in t.nodes && t == WithNode(s, n, t.nodes[n])
    requires NodeLasts(s.nodes[n], t.nodes[n])
    ensures Lasts(s, t)
  {}

  lemma SubscriptionLasts(s: State, step: Step, t: State)
    requires SubscriptionNext(s, step, t)
    requires forall n :: n in s.nodes && s.nodes[n].listener.Flushing? ==>
      s.nodes[n].flushedAt <= s.nodes[n].listener.drop.since
    ensures Lasts(s, t)
  {
    OneNodeLasts(s, t, step.node);
  }

  lemma MessageLasts(s: State, step: Step, t: State)
    requires MessageNext(s, step, t)
    ensures Lasts(s, t)
  {
    OneNodeLasts(s, t, step.node);
  }

  lemma BeginLasts(s: State, step: Step, t: State)
    requires BeginNext(s, step, t)
    ensures Lasts(s, t)
  {}

  lemma PublishLasts(s: State, t: State, r: nat, delivered: bool, answered: bool)
    requires PublishedOk(s) && In(s, r, Deleted) && t == Publishing(s, r, delivered, answered)
    ensures Lasts(s, t)
  {}

  lemma CutLasts(s: State, step: Step, t: State)
    requires PublishedOk(s) && CutNext(s, step, t)
    ensures Lasts(s, t)
  {
    if step.Publish? { PublishLasts(s, t, step.thread, step.delivered, step.answered); }
  }

  lemma OnNodeLasts(s: State, t: State, r: nat, n: nat)
    requires r in s.revokers && !s.revokers[r].phase.Done? && r in t.revokers
    requires n in s.nodes && n in t.nodes && NodeLasts(s.nodes[n], t.nodes[n])
    requires t == WithRevoker(s, r, t.revokers[r]).(nodes := s.nodes[n := t.nodes[n]])
    ensures Lasts(s, t)
  {}

  lemma FinishLasts(s: State, step: Step, t: State)
    requires FinishNext(s, step, t)
    ensures Lasts(s, t)
  {
    if !step.Forget? { OnNodeLasts(s, t, step.thread, s.revokers[step.thread].node); }
  }

  lemma NextLasts(s: State, step: Step, t: State)
    requires Invariant(s) && Next(s, step, t)
    ensures Lasts(s, t)
  {
    if StoreNext(s, step, t) {
      StoreLasts(s, step, t);
    } else if RecordNext(s, step, t) {
      RecordLasts(s, step, t);
    } else if FillNext(s, step, t) {
      FillLasts(s, step, t);
    } else if SubscriptionNext(s, step, t) {
      SubscriptionLasts(s, step, t);
    } else if MessageNext(s, step, t) {
      MessageLasts(s, step, t);
    } else if BeginNext(s, step, t) {
      BeginLasts(s, step, t);
    } else if CutNext(s, step, t) {
      CutLasts(s, step, t);
    } else {
      FinishLasts(s, step, t);
    }
  }

  /** What took this session out of the index. */
  ghost predicate RemovedBy(s: State, step: Step, x: Text, cause: Cause) {
    match cause
    case ByKill =>
      step.Forget? && In(s, step.thread, Cleared) && s.revokers[step.thread].kind == Kill
      && x in Indexed(s.index, s.revokers[step.thread].sub)
    case ByLogout =>
      step.Forget? && In(s, step.thread, Cleared) && s.revokers[step.thread].kind == Logout
      && x in s.revokers[step.thread].sessions
    case ByLapse =>
      step.Tick? && x in s.owner && Lapses(s, s.owner[x], step.now)
  }

  lemma StoreRemovals(s: State, step: Step, t: State, x: Text)
    requires StoreNext(s, step, t) && x in t.removed
    ensures (x in s.removed && t.removed[x] == s.removed[x])
      || (t.removed[x].at == s.clock && RemovedBy(s, step, x, t.removed[x].cause))
  {}

  lemma FinishRemovals(s: State, step: Step, t: State, x: Text)
    requires FinishNext(s, step, t) && x in t.removed
    ensures (x in s.removed && t.removed[x] == s.removed[x])
      || (t.removed[x].at == s.clock && RemovedBy(s, step, x, t.removed[x].cause))
  {}

  lemma NodeRemovals(s: State, step: Step, t: State)
    requires SubscriptionNext(s, step, t) || MessageNext(s, step, t)
    ensures t.removed == s.removed
  {}

  lemma ThreadRemovals(s: State, step: Step, t: State)
    requires RecordNext(s, step, t) || FillNext(s, step, t) || BeginNext(s, step, t) || CutNext(s, step, t)
    ensures t.removed == s.removed
  {}

  lemma RemovalChanges(s: State, step: Step, t: State, x: Text)
    requires Next(s, step, t) && x in t.removed
    ensures (x in s.removed && t.removed[x] == s.removed[x])
      || (t.removed[x].at == s.clock && RemovedBy(s, step, x, t.removed[x].cause))
  {
    if StoreNext(s, step, t) {
      StoreRemovals(s, step, t, x);
    } else if FinishNext(s, step, t) {
      FinishRemovals(s, step, t, x);
    } else if SubscriptionNext(s, step, t) || MessageNext(s, step, t) {
      NodeRemovals(s, step, t);
    } else {
      ThreadRemovals(s, step, t);
    }
  }

  /** The SADD of this session. */
  ghost predicate Adds(s: State, step: Step, x: Text, sub: Text) {
    step.AddToIndex? && At(s, step.thread, Verified) && s.misses[step.thread].session == x
    && s.misses[step.thread].Sub() == sub
  }

  /** The three ways out of the index: a kill of the sub, a logout that names
      the session, the deadline of the whole set. */
  ghost predicate Leaves(s: State, step: Step, x: Text, sub: Text) {
    || (step.Forget? && In(s, step.thread, Cleared) && s.revokers[step.thread].sub == sub
        && (s.revokers[step.thread].kind == Kill || x in s.revokers[step.thread].sessions))
    || (step.Tick? && Lapses(s, sub, step.now))
  }

  ghost predicate IndexFollows(s: State, step: Step, t: State, x: Text, sub: Text) {
    x in Indexed(t.index, sub) <==>
      Adds(s, step, x, sub) || (x in Indexed(s.index, sub) && !Leaves(s, step, x, sub))
  }

  lemma StoreIndex(s: State, step: Step, t: State, x: Text, sub: Text)
    requires StoreNext(s, step, t)
    ensures IndexFollows(s, step, t, x, sub)
  {}

  lemma RecordIndex(s: State, step: Step, t: State, x: Text, sub: Text)
    requires RecordNext(s, step, t)
    ensures IndexFollows(s, step, t, x, sub)
  {}

  lemma FinishIndex(s: State, step: Step, t: State, x: Text, sub: Text)
    requires FinishNext(s, step, t)
    ensures IndexFollows(s, step, t, x, sub)
  {}

  lemma NodeIndex(s: State, step: Step, t: State, x: Text, sub: Text)
    requires SubscriptionNext(s, step, t) || MessageNext(s, step, t)
    ensures IndexFollows(s, step, t, x, sub)
  {}

  lemma ThreadIndex(s: State, step: Step, t: State, x: Text, sub: Text)
    requires FillNext(s, step, t) || BeginNext(s, step, t) || CutNext(s, step, t)
    ensures IndexFollows(s, step, t, x, sub)
  {}

  lemma IndexChanges(s: State, step: Step, t: State, x: Text, sub: Text)
    requires Next(s, step, t)
    ensures IndexFollows(s, step, t, x, sub)
  {
    if StoreNext(s, step, t) {
      StoreIndex(s, step, t, x, sub);
    } else if RecordNext(s, step, t) {
      RecordIndex(s, step, t, x, sub);
    } else if FinishNext(s, step, t) {
      FinishIndex(s, step, t, x, sub);
    } else if SubscriptionNext(s, step, t) || MessageNext(s, step, t) {
      NodeIndex(s, step, t, x, sub);
    } else {
      ThreadIndex(s, step, t, x, sub);
    }
  }

  /** The sessions the kill or logout at this step deletes. */
  function SessionsCut(s: State, step: Step): set<Text> {
    if step.DeleteSessions? && step.thread in s.revokers then s.revokers[step.thread].sessions else {}
  }

  /** The step ends a session that lived until then. */
  ghost predicate Ends(s: State, step: Step, x: Text) {
    Live(s, x) && (step == EndSession(x) || x in SessionsCut(s, step))
  }

  ghost predicate EndedFollows(s: State, step: Step, t: State, x: Text) {
    x in t.ended <==> x in s.ended || Ends(s, step, x)
  }

  lemma StoreEnded(s: State, step: Step, t: State, x: Text)
    requires StoreNext(s, step, t)
    ensures EndedFollows(s, step, t, x)
  {}

  lemma CutEnded(s: State, step: Step, t: State, x: Text)
    requires CutNext(s, step, t)
    ensures EndedFollows(s, step, t, x)
  {}

  lemma NodeEnded(s: State, step: Step, t: State, x: Text)
    requires SubscriptionNext(s, step, t) || MessageNext(s, step, t)
    ensures EndedFollows(s, step, t, x)
  {}

  lemma MissEnded(s: State, step: Step, t: State, x: Text)
    requires RecordNext(s, step, t) || FillNext(s, step, t)
    ensures EndedFollows(s, step, t, x)
  {}

  lemma RevokerEnded(s: State, step: Step, t: State, x: Text)
    requires BeginNext(s, step, t) || FinishNext(s, step, t)
    ensures EndedFollows(s, step, t, x)
  {}

  lemma EndedChanges(s: State, step: Step, t: State, x: Text)
    requires Next(s, step, t)
    ensures EndedFollows(s, step, t, x)
  {
    if StoreNext(s, step, t) {
      StoreEnded(s, step, t, x);
    } else if CutNext(s, step, t) {
      CutEnded(s, step, t, x);
    } else if SubscriptionNext(s, step, t) || MessageNext(s, step, t) {
      NodeEnded(s, step, t, x);
    } else if RecordNext(s, step, t) || FillNext(s, step, t) {
      MissEnded(s, step, t, x);
    } else {
      RevokerEnded(s, step, t, x);
    }
  }
}
