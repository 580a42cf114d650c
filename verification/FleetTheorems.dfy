/** The main results about the fleet, over all runs: what a kill or a logout
    leaves behind, what the subscription keeps out of the cache, what a hit
    answers, and that a cached session can still be killed. */
module FleetTheorems {
  import opened Prelude
  import opened Store
  import opened SessionCookie
  import opened Fleet
  import opened FleetSafety
  import opened FleetChanges
  import opened FleetRuns
  import CacheState
  import Policy
  import PolicyLaws

  // --- Kill and logout ---

  /** From its DEL on, no session a kill or logout names is live, so none
      authenticates again. */
  lemma CutForGood(states: seq<State>, steps: seq<Step>, d: nat, i: nat)
    requires Run(states, steps) && d < i < |states|
    ensures forall x :: x in SessionsCut(states[d], steps[d]) ==> !Live(states[i], x)
    ensures i < |steps| && steps[i].Authenticate? ==> steps[i].session !in SessionsCut(states[d], steps[d])
  {
    if steps[d].DeleteSessions? {
      CutEnds(states, steps, d);
      RunLasts(states, steps, d + 1, i);
    }
    if i < |steps| && steps[i].Authenticate? {
      AuthenticatesLive(states, steps, i);
    }
  }

  lemma CutEnds(states: seq<State>, steps: seq<Step>, d: nat)
    requires Run(states, steps) && d < |steps| && steps[d].DeleteSessions?
    ensures forall x :: x in SessionsCut(states[d], steps[d]) ==> x in states[d + 1].ended
  {
    RunInvariant(states, steps, d);
    assert Takes(states, steps, d);
    DeleteEnds(states[d], steps[d], states[d + 1]);
  }

  lemma AuthenticatesLive(states: seq<State>, steps: seq<Step>, i: nat)
    requires Run(states, steps) && i < |steps| && steps[i].Authenticate?
    ensures Live(states[i], steps[i].session)
  {
    assert Takes(states, steps, i);
    AuthenticateNeedsLive(states[i], steps[i], states[i + 1]);
  }

  lemma DeleteEnds(s: State, step: Step, t: State)
    requires Next(s, step, t) && step.DeleteSessions? && RevokersOk(s)
    ensures forall x :: x in SessionsCut(s, step) ==> x in t.ended
  {}

  lemma AuthenticateNeedsLive(s: State, step: Step, t: State)
    requires Next(s, step, t) && step.Authenticate?
    ensures Live(s, step.session)
  {}

  /** The step that lets a kill or logout answer OK. */
  ghost predicate Completes(s: State, step: Step, r: nat) {
    step == Forget(r, true) && r in s.revokers
  }

  /** A kill or logout that has answered OK is remembered as it was. */
  lemma CompletedLasts(states: seq<State>, steps: seq<Step>, f: nat, i: nat, r: nat)
    requires Run(states, steps) && f < i < |states| && Completes(states[f], steps[f], r)
    ensures r in states[i].revokers && states[i].revokers[r] == states[f].revokers[r].(phase := Done)
  {
    CompletedStep(states, steps, f, r);
    RunLasts(states, steps, f + 1, i);
  }

  lemma CompletedStep(states: seq<State>, steps: seq<Step>, f: nat, r: nat)
    requires |states| == |steps| + 1 && Takes(states, steps, f) && Completes(states[f], steps[f], r)
    ensures r in states[f + 1].revokers && states[f + 1].revokers[r] == states[f].revokers[r].(phase := Done)
  {}

  /** In one state: what an entry of a cut session, at the instance that cut it,
      must have been. */
  lemma LeftBehind(s: State, r: nat, k: Key)
    requires Invariant(s) && r in s.revokers && s.revokers[r].phase.Done?
    requires k in s.nodes[s.revokers[r].node].entries
    requires s.nodes[s.revokers[r].node].entries[k].fill.session in s.revokers[r].sessions
    ensures var rv, e := s.revokers[r], s.nodes[s.revokers[r].node].entries[k];
      e.fill.verifiedAt < rv.deletedAt < rv.drop.since < e.insertedAt < s.clock
  {
    var rv := s.revokers[r];
    var e := s.nodes[rv.node].entries[k];
    assert RevokerOk(s, rv);
    assert EntriesOk(s, rv.node) && NodeOk(s.clock, s.published, s.nodes[rv.node]);
    assert EntryOk(s, k, e);
  }

  lemma LeftBehindLater(states: seq<State>, steps: seq<Step>, f: nat, i: nat, r: nat, k: Key)
    requires Run(states, steps) && f < i < |states| && Completes(states[f], steps[f], r)
    requires var n := states[f].revokers[r].node;
      n in states[i].nodes && k in states[i].nodes[n].entries
      && states[i].nodes[n].entries[k].fill.session in states[f].revokers[r].sessions
    ensures var rv := states[f].revokers[r]; var e := states[i].nodes[rv.node].entries[k];
      e.fill.verifiedAt < rv.deletedAt < rv.drop.since < e.insertedAt < i + 1
  {
    RunInvariant(states, steps, i);
    RunClock(states, steps, i);
    CompletedLasts(states, steps, f, i, r);
    LeftBehind(states[i], r, k);
  }

  /** Kill safety. Once a kill or a logout has answered OK, the miss that filled
      an entry its instance still holds for a session it named had authenticated
      before the DEL and inserted after the drop had read its keys; and the entry
      answers for less than TTL after that insertion. */
  lemma KillSafety(states: seq<State>, steps: seq<Step>, f: nat, i: nat, r: nat, k: Key)
    returns (life: Life, d: nat, c: nat)
    requires Run(states, steps) && f < i < |states| && Completes(states[f], steps[f], r)
    requires var n := states[f].revokers[r].node;
      n in states[i].nodes && k in states[i].nodes[n].entries
      && states[i].nodes[n].entries[k].fill.session in states[f].revokers[r].sessions
    ensures var n := states[f].revokers[r].node;
      Lived(states, steps, i, n, k, states[i].nodes[n].entries[k], life)
    ensures life.verified < d < c < life.inserted && c < f
    ensures steps[d] == DeleteSessions(r) && steps[c] == StartDrop(r)
    ensures i < |steps| && steps[i].Serve? && steps[i].node == states[f].revokers[r].node && steps[i].key == k ==>
      states[i].now < states[life.inserted].now + CacheState.TTL
  {
    var rv := states[f].revokers[r];
    LeftBehindLater(states, steps, f, i, r, k);
    RevokerSteps(states, steps, f, r);
    life := EntryLived(states, steps, i, rv.node, k);
    d, c := rv.deletedAt - 1, rv.drop.since - 1;
    HitIsYoung(states, steps, i, rv.node, k);
  }

  lemma HitIsYoung(states: seq<State>, steps: seq<Step>, i: nat, n: nat, k: Key)
    requires Run(states, steps) && i < |states| && n in states[i].nodes && k in states[i].nodes[n].entries
    ensures i < |steps| && steps[i].Serve? && steps[i].node == n && steps[i].key == k ==>
      states[i].now < states[i].nodes[n].entries[k].insertedWall + CacheState.TTL
  {
    if i < |steps| && steps[i].Serve? { ServedAt(states, steps, i); }
  }

  lemma EntryIsOk(states: seq<State>, steps: seq<Step>, i: nat, n: nat, k: Key)
    requires Run(states, steps) && i < |states| && n in states[i].nodes && k in states[i].nodes[n].entries
    ensures EntryOk(states[i], k, states[i].nodes[n].entries[k])
  {
    RunInvariant(states, steps, i);
    assert EntriesOk(states[i], n);
  }

  /** The stamps of a kill or logout about to answer OK, as steps. */
  lemma RevokerStamps(states: seq<State>, steps: seq<Step>, f: nat, r: nat)
    requires Run(states, steps) && f < |steps| && Completes(states[f], steps[f], r)
    ensures RevokerTrue(states, steps, r, states[f].revokers[r]) && RevokerOk(states[f], states[f].revokers[r])
    ensures states[f].revokers[r].phase.Cleared? && states[f].revokers[r].announced && states[f].clock == f + 1
  {
    RunRemembers(states, steps, f);
    RunInvariant(states, steps, f);
    RunClock(states, steps, f);
    assert Takes(states, steps, f);
    CompletingPhase(states[f], steps[f], states[f + 1], r);
  }

  lemma RevokerSteps(states: seq<State>, steps: seq<Step>, f: nat, r: nat)
    requires Run(states, steps) && f < |steps| && Completes(states[f], steps[f], r)
    ensures var rv := states[f].revokers[r];
      && 1 <= rv.deletedAt < rv.publishedAt < rv.drop.since <= f
      && steps[rv.deletedAt - 1] == DeleteSessions(r) && steps[rv.drop.since - 1] == StartDrop(r)
      && steps[rv.publishedAt - 1].Publish? && steps[rv.publishedAt - 1].thread == r
      && steps[rv.publishedAt - 1].answered
  {
    RevokerStamps(states, steps, f, r);
  }

  lemma CompletingPhase(s: State, step: Step, t: State, r: nat)
    requires Next(s, step, t) && Completes(s, step, r)
    ensures s.revokers[r].phase.Cleared? && s.revokers[r].announced
  {}

  /** Revocation ends everywhere, whatever becomes of publications and flags: at
      any moment from the DEL on when no miss for a cut session is in flight, no
      instance has more than TTL of hits left to serve for any of them. */
  lemma AccessEnds(states: seq<State>, steps: seq<Step>, d: nat, j: nat, i: nat)
    requires Run(states, steps) && d < j <= i < |steps| && steps[i].Serve?
    requires forall m :: m in states[j].misses ==> states[j].misses[m].session !in SessionsCut(states[d], steps[d])
    requires steps[i].node in states[i].nodes && steps[i].key in states[i].nodes[steps[i].node].entries
    requires states[i].nodes[steps[i].node].entries[steps[i].key].fill.session in SessionsCut(states[d], steps[d])
    ensures states[i].now < states[j].now + CacheState.TTL
  {
    var n, k := steps[i].node, steps[i].key;
    var life := EntryLived(states, steps, i, n, k);
    HitIsYoung(states, steps, i, n, k);
    CutBeforeStep(states, steps, d, life.verified);
    InFlightAt(states, steps, i, n, k, states[i].nodes[n].entries[k], life, j);
    RunLasts(states, steps, life.inserted, j);
  }

  lemma InFlightAt(
    states: seq<State>, steps: seq<Step>, i: nat, n: nat, k: Key, e: Entry, life: Life, j: nat)
    requires |states| == |steps| + 1 && Lived(states, steps, i, n, k, e, life) && life.verified < j < |states|
    ensures life.inserted < j
      || (life.thread in states[j].misses && states[j].misses[life.thread].session == e.fill.session)
  {}

  lemma CutBeforeStep(states: seq<State>, steps: seq<Step>, d: nat, a: nat)
    requires Run(states, steps) && d < |steps| && a < |steps|
    requires steps[a].Authenticate? && steps[a].session in SessionsCut(states[d], steps[d])
    ensures a < d
  {
    if a > d {
      CutForGood(states, steps, d, a);
      assert false;
    }
  }

  // --- The subscription ---

  /** In one state: an instance with its flag up, on a connection that is up,
      holds an entry from before a publication only while the publication waits
      in its queue or its drop is still at work on that entry. */
  lemma StaleIsPending(s: State, n: nat, k: Key)
    requires Invariant(s) && n in s.nodes && s.nodes[n].subscribed && s.nodes[n].connection == Up
    requires k in s.nodes[n].entries && s.nodes[n].entries[k].fill.Sub() in s.published
    ensures var e := s.nodes[n].entries[k];
      e.insertedAt <= s.published[e.fill.Sub()] ==> Pending(s.nodes[n], e.fill.Sub(), k)
  {
    var node := s.nodes[n];
    var sub := node.entries[k].fill.Sub();
    assert NodeOk(s.clock, s.published, node);
    assert HeardOf(node, sub, s.published[sub]);
  }

  /** A publication of the sub has yet to reach this entry. */
  ghost predicate Pending(node: Node, sub: Text, k: Key) {
    || sub in node.queue
    || (node.listener.Dropping? && node.listener.drop.sub == Some(sub) && k in node.listener.drop.todo)
  }

  /** The step publishes this sub, and Redis delivers it. */
  ghost predicate Publishes(s: State, step: Step, sub: Text) {
    step.Publish? && step.delivered && step.thread in s.revokers && s.revokers[step.thread].sub == sub
  }

  lemma PublicationStamp(states: seq<State>, steps: seq<Step>, p: nat, sub: Text)
    requires |states| == |steps| + 1 && Takes(states, steps, p) && Publishes(states[p], steps[p], sub)
    ensures sub in states[p + 1].published && states[p + 1].published[sub] == states[p].clock
  {}

  /** Fleet invalidation: at every instance whose flag is up and whose
      connection is up, every entry for a sub that was inserted before a
      publication of that sub still has that publication coming to it. */
  lemma FleetInvalidation(states: seq<State>, steps: seq<Step>, p: nat, i: nat, n: nat, k: Key)
    returns (life: Life)
    requires Run(states, steps) && p < i < |states| && n in states[i].nodes && k in states[i].nodes[n].entries
    requires states[i].nodes[n].subscribed && states[i].nodes[n].connection == Up
    requires Publishes(states[p], steps[p], states[i].nodes[n].entries[k].fill.Sub())
    ensures Lived(states, steps, i, n, k, states[i].nodes[n].entries[k], life)
    ensures life.inserted < p ==> Pending(states[i].nodes[n], states[i].nodes[n].entries[k].fill.Sub(), k)
  {
    life := EntryLived(states, steps, i, n, k);
    PublishedLasts(states, steps, p, i, states[i].nodes[n].entries[k].fill.Sub());
    RunInvariant(states, steps, i);
    StaleIsPending(states[i], n, k);
  }

  lemma PublishedLasts(states: seq<State>, steps: seq<Step>, p: nat, i: nat, sub: Text)
    requires Run(states, steps) && p < i < |states| && Publishes(states[p], steps[p], sub)
    ensures sub in states[i].published && states[i].published[sub] >= p + 1
  {
    RunClock(states, steps, p);
    assert Takes(states, steps, p);
    PublicationStamp(states, steps, p, sub);
    RunLasts(states, steps, p + 1, i);
  }

  /** A kill or logout that has answered OK cuts the whole fleet: wherever the
      flag and the connection are up and the publication has been worked off,
      the miss that filled an entry for a session it named had authenticated
      before the DEL and inserted after the publication. */
  lemma FleetKill(states: seq<State>, steps: seq<Step>, f: nat, i: nat, r: nat, n: nat, k: Key)
    returns (life: Life, d: nat, p: nat)
    requires Run(states, steps) && f < i < |states| && Completes(states[f], steps[f], r)
    requires n in states[i].nodes && k in states[i].nodes[n].entries
    requires states[i].nodes[n].entries[k].fill.session in states[f].revokers[r].sessions
    requires states[i].nodes[n].subscribed && states[i].nodes[n].connection == Up
    requires !Pending(states[i].nodes[n], states[f].revokers[r].sub, k)
    ensures Lived(states, steps, i, n, k, states[i].nodes[n].entries[k], life)
    ensures life.verified < d < p < life.inserted && p < f
    ensures steps[d] == DeleteSessions(r) && steps[p].Publish? && steps[p].thread == r && steps[p].delivered
  {
    var rv := states[f].revokers[r];
    LeftInFleet(states, steps, f, i, r, n, k);
    RevokerSteps(states, steps, f, r);
    life := EntryLived(states, steps, i, n, k);
    d, p := rv.deletedAt - 1, rv.publishedAt - 1;
    AnsweredDelivered(states, steps, p);
  }

  lemma LeftInFleet(states: seq<State>, steps: seq<Step>, f: nat, i: nat, r: nat, n: nat, k: Key)
    requires Run(states, steps) && f < i < |states| && Completes(states[f], steps[f], r)
    requires n in states[i].nodes && k in states[i].nodes[n].entries
    requires states[i].nodes[n].entries[k].fill.session in states[f].revokers[r].sessions
    requires states[i].nodes[n].subscribed && states[i].nodes[n].connection == Up
    requires !Pending(states[i].nodes[n], states[f].revokers[r].sub, k)
    ensures var rv := states[f].revokers[r]; var e := states[i].nodes[n].entries[k];
      e.fill.verifiedAt < rv.deletedAt && rv.publishedAt < e.insertedAt < i + 1
  {
    RunInvariant(states, steps, i);
    RunClock(states, steps, i);
    CompletedLasts(states, steps, f, i, r);
    EntryIsOk(states, steps, i, n, k);
    CutBefore(states[i], r, states[i].nodes[n].entries[k].fill);
    StaleIsPending(states[i], n, k);
  }

  /** What PUBLISH answered OK to, Redis delivered. */
  lemma AnsweredDelivered(states: seq<State>, steps: seq<Step>, p: nat)
    requires Run(states, steps) && p < |steps| && steps[p].Publish? && steps[p].answered
    ensures steps[p].delivered
  {
    assert Takes(states, steps, p);
  }

  lemma CutBefore(s: State, r: nat, fill: Fill)
    requires Invariant(s) && r in s.revokers && s.revokers[r].phase.Done?
    requires FillOk(s, fill) && fill.session in s.revokers[r].sessions
    ensures fill.verifiedAt < s.revokers[r].deletedAt && fill.Sub() == s.revokers[r].sub
    ensures fill.Sub() in s.published && s.published[fill.Sub()] >= s.revokers[r].publishedAt
  {
    assert RevokerOk(s, s.revokers[r]);
  }

  /** A kill names every session its SMEMBERS found, and no other. */
  lemma KillNamesTheIndexed(states: seq<State>, steps: seq<Step>, f: nat, r: nat) returns (l: nat)
    requires Run(states, steps) && f < |steps| && Completes(states[f], steps[f], r)
    requires states[f].revokers[r].kind == Kill
    ensures l < f && l < states[f].revokers[r].deletedAt - 1 && steps[l] == ListSessions(r)
    ensures l == states[f].revokers[r].listedAt - 1
    ensures states[f].revokers[r].sessions == Indexed(states[l].index, states[f].revokers[r].sub)
  {
    RevokerStamps(states, steps, f, r);
    l := states[f].revokers[r].listedAt - 1;
  }

  // --- The cache refines the decision ---

  /** What a miss would answer over these tables. */
  function FreshAnswer(t: Tables, slug: Text, who: Caller, uri: Text, now: int): Policy.Decision {
    var loaded := Load(t, slug, who);
    Policy.Decide(loaded.enabled, loaded.rules, uri, now)
  }

  lemma LoadedFrom(s: State, step: Step, t: State)
    requires Next(s, step, t) && step.LoadRules?
    ensures step.thread in t.misses
    ensures var fill := t.misses[step.thread]; fill.loaded == Load(s.tables, fill.key.slug, fill.Who())
  {}

  lemma ServedFrom(s: State, step: Step, t: State)
    requires Next(s, step, t) && step.Serve?
    ensures step.node in s.nodes && Serves(s.nodes[step.node], step.key, s.now)
    ensures var loaded := s.nodes[step.node].entries[step.key].fill.loaded;
      step.decision == Policy.Decide(loaded.enabled, loaded.rules, step.uri, s.now)
  {}

  /** Every hit answers what the decision engine answers at that moment over the
      tables as they stood when the rules of this very entry were loaded, for the
      identity its miss was given; the entry was inserted less than TTL ago, and
      the flag is up. If the enabled flag and the live rules have not changed
      since, a miss would have answered the same. */
  lemma HitRefinesMiss(states: seq<State>, steps: seq<Step>, i: nat) returns (life: Life, who: Caller)
    requires Run(states, steps) && i < |steps| && steps[i].Serve?
    ensures steps[i].node in states[i].nodes && steps[i].key in states[i].nodes[steps[i].node].entries
    ensures Lived(states, steps, i, steps[i].node, steps[i].key,
      states[i].nodes[steps[i].node].entries[steps[i].key], life)
    ensures who == states[life.inserted].misses[life.thread].Who()
    ensures steps[i].decision
      == FreshAnswer(states[life.loaded].tables, steps[i].key.slug, who, steps[i].uri, states[i].now)
    ensures states[i].nodes[steps[i].node].subscribed && states[i].now < states[life.inserted].now + CacheState.TTL
    ensures SameForNow(
        Load(states[life.loaded].tables, steps[i].key.slug, who), Load(states[i].tables, steps[i].key.slug, who),
        states[i].now)
      ==> steps[i].decision == FreshAnswer(states[i].tables, steps[i].key.slug, who, steps[i].uri, states[i].now)
  {
    ServedAt(states, steps, i);
    life, who := FilledFrom(states, steps, i, steps[i].node, steps[i].key);
    var loaded := states[i].nodes[steps[i].node].entries[steps[i].key].fill.loaded;
    AnswerFrom(
      loaded, states[life.loaded].tables, steps[i].key.slug, who, steps[i].uri, states[i].now, steps[i].decision);
    AnswersAlike(states[life.loaded].tables, states[i].tables, steps[i].key.slug, who, steps[i].uri, states[i].now);
  }

  lemma AnswerFrom(loaded: Loaded, t: Tables, slug: Text, who: Caller, uri: Text, now: int, d: Policy.Decision)
    requires loaded == Load(t, slug, who) && d == Policy.Decide(loaded.enabled, loaded.rules, uri, now)
    ensures d == FreshAnswer(t, slug, who, uri, now)
  {}

  lemma AnswersAlike(t: Tables, u: Tables, slug: Text, who: Caller, uri: Text, now: int)
    ensures SameForNow(Load(t, slug, who), Load(u, slug, who), now) ==>
      FreshAnswer(t, slug, who, uri, now) == FreshAnswer(u, slug, who, uri, now)
  {
    var a, b := Load(t, slug, who), Load(u, slug, who);
    if SameForNow(a, b, now) {
      PolicyLaws.LiveRulesDecide(a.enabled, a.rules, b.rules, uri, now);
    }
  }

  /** Where the rules of an entry came from. */
  lemma FilledFrom(states: seq<State>, steps: seq<Step>, i: nat, n: nat, k: Key) returns (life: Life, who: Caller)
    requires Run(states, steps) && i < |states| && n in states[i].nodes && k in states[i].nodes[n].entries
    ensures Lived(states, steps, i, n, k, states[i].nodes[n].entries[k], life)
    ensures who == states[i].nodes[n].entries[k].fill.Who()
    ensures states[i].nodes[n].entries[k].fill.loaded == Load(states[life.loaded].tables, k.slug, who)
  {
    var e := states[i].nodes[n].entries[k];
    life := EntryLived(states, steps, i, n, k);
    who := e.fill.Who();
    LoadedAt(states, steps, life.loaded);
  }

  lemma ServedAt(states: seq<State>, steps: seq<Step>, i: nat)
    requires Run(states, steps) && i < |steps| && steps[i].Serve?
    ensures steps[i].node in states[i].nodes && Serves(states[i].nodes[steps[i].node], steps[i].key, states[i].now)
    ensures var loaded := states[i].nodes[steps[i].node].entries[steps[i].key].fill.loaded;
      steps[i].decision == Policy.Decide(loaded.enabled, loaded.rules, steps[i].uri, states[i].now)
  {
    assert Takes(states, steps, i);
    ServedFrom(states[i], steps[i], states[i + 1]);
  }

  lemma LoadedAt(states: seq<State>, steps: seq<Step>, l: nat)
    requires Run(states, steps) && l < |steps| && steps[l].LoadRules?
    ensures steps[l].thread in states[l + 1].misses
    ensures var fill := states[l + 1].misses[steps[l].thread];
      fill.loaded == Load(states[l].tables, fill.key.slug, fill.Who())
  {
    assert Takes(states, steps, l);
    LoadedFrom(states[l], steps[l], states[l + 1]);
  }

  /** The step completes a drop of this sub, or a flush, at this node, whose
      keys were read at step `since`. */
  ghost predicate CompletesDrop(s: State, step: Step, n: nat, sub: Text, since: int) {
    n in s.nodes &&
    match step
    case EndDrop(r) => In(s, r, Clearing) && s.revokers[r].node == n && s.revokers[r].sub == sub
      && since == s.revokers[r].drop.since - 1
    case EndReceive(m) => m == n && s.nodes[n].listener.Dropping? && s.nodes[n].listener.drop.sub == Some(sub)
      && since == s.nodes[n].listener.drop.since - 1
    case RaiseFlag(m) => m == n && s.nodes[n].listener.Flushing? && since == s.nodes[n].listener.drop.since - 1
    case _ => false
  }

  ghost predicate ClearedSince(s: State, n: nat, sub: Text, since: int) {
    n in s.nodes
    && ((sub in s.nodes[n].cleared && s.nodes[n].cleared[sub] > since) || s.nodes[n].flushedAt > since)
  }

  lemma DropLeavesStamp(s: State, step: Step, t: State, n: nat, sub: Text, since: int)
    requires Next(s, step, t) && CompletesDrop(s, step, n, sub, since)
    ensures ClearedSince(t, n, sub, since)
  {}

  /** What a hit is served from has outlived nothing it should not: it is the
      latest insertion under its key, and every drop of its sub and every flush
      that has completed had read its keys before that insertion. */
  lemma HitIsCurrent(states: seq<State>, steps: seq<Step>, i: nat, n: nat, k: Key) returns (life: Life)
    requires Run(states, steps) && i < |states| && n in states[i].nodes && k in states[i].nodes[n].entries
    ensures Lived(states, steps, i, n, k, states[i].nodes[n].entries[k], life)
    ensures var sub := states[i].nodes[n].entries[k].fill.Sub();
      forall j, since :: 0 <= j < i ==> CompletesDrop(states[j], steps[j], n, sub, since) ==> since < life.inserted
  {
    var e := states[i].nodes[n].entries[k];
    life := EntryLived(states, steps, i, n, k);
    forall j, since | 0 <= j < i && CompletesDrop(states[j], steps[j], n, e.fill.Sub(), since)
      ensures since < life.inserted
    {
      DropIsOlder(states, steps, j, i, n, k, since);
    }
  }

  lemma DropIsOlder(states: seq<State>, steps: seq<Step>, j: nat, i: nat, n: nat, k: Key, since: int)
    requires Run(states, steps) && j < i < |states| && n in states[i].nodes && k in states[i].nodes[n].entries
    requires CompletesDrop(states[j], steps[j], n, states[i].nodes[n].entries[k].fill.Sub(), since)
    ensures since + 1 < states[i].nodes[n].entries[k].insertedAt
  {
    var sub := states[i].nodes[n].entries[k].fill.Sub();
    DropIsRemembered(states, steps, j, i, n, sub, since);
    ClearedAt(states, steps, i, n);
    YoungerThanCleared(states[i], n, k, since);
  }

  lemma ClearedAt(states: seq<State>, steps: seq<Step>, i: nat, n: nat)
    requires Run(states, steps) && i < |states| && n in states[i].nodes
    ensures ClearedOk(states[i].nodes[n])
  {
    RunInvariant(states, steps, i);
    assert NodeOk(states[i].clock, states[i].published, states[i].nodes[n]);
  }

  lemma ClearedLasts(s: State, t: State, n: nat, sub: Text, since: int)
    requires Lasts(s, t) && ClearedSince(s, n, sub, since)
    ensures ClearedSince(t, n, sub, since)
  {
    assert NodeLasts(s.nodes[n], t.nodes[n]);
  }

  lemma DropIsRemembered(states: seq<State>, steps: seq<Step>, j: nat, i: nat, n: nat, sub: Text, since: int)
    requires Run(states, steps) && j < i < |states| && CompletesDrop(states[j], steps[j], n, sub, since)
    ensures ClearedSince(states[i], n, sub, since)
  {
    assert Takes(states, steps, j);
    DropLeavesStamp(states[j], steps[j], states[j + 1], n, sub, since);
    RunLasts(states, steps, j + 1, i);
    ClearedLasts(states[j + 1], states[i], n, sub, since);
  }

  lemma YoungerThanCleared(s: State, n: nat, k: Key, since: int)
    requires n in s.nodes && k in s.nodes[n].entries && ClearedOk(s.nodes[n])
    requires ClearedSince(s, n, s.nodes[n].entries[k].fill.Sub(), since)
    ensures s.nodes[n].entries[k].insertedAt > since + 1
  {}

  // --- Indexed before cached, and still killable ---

  /** The step takes this session of this sub out of the index: a kill of the
      sub, a logout of this very session, or, before the EXPIRE at `w`, the
      lapse of a deadline that stood at the SADD. */
  ghost predicate TakesOut(s: State, step: Step, x: nat, w: nat, session: Text, sub: Text) {
    || (step.Forget? && In(s, step.thread, Cleared) && s.revokers[step.thread].kind == Kill
        && s.revokers[step.thread].sub == sub)
    || (step.Forget? && In(s, step.thread, Cleared) && s.revokers[step.thread].kind == Logout
        && s.revokers[step.thread].sessions == {session})
    || (step.Tick? && Lapses(s, sub, step.now) && x < w)
  }

  /** Every cached session was recorded under its sub before it was cached, by
      the SADD and then the EXPIRE of the very miss that cached it; until
      INDEX_TTL after that EXPIRE it is in the index of its sub, unless one of the
      steps above took it out after the SADD. */
  lemma IndexedAndKillable(states: seq<State>, steps: seq<Step>, i: nat, n: nat, k: Key)
    returns (life: Life)
    requires Run(states, steps) && i < |states| && n in states[i].nodes && k in states[i].nodes[n].entries
    ensures Lived(states, steps, i, n, k, states[i].nodes[n].entries[k], life)
    ensures var fill := states[i].nodes[n].entries[k].fill;
      Adds(states[life.added], steps[life.added], fill.session, fill.Sub())
    ensures states[i].now < states[life.recorded].now + INDEX_TTL ==>
      var fill := states[i].nodes[n].entries[k].fill;
      || fill.session in Indexed(states[i].index, fill.Sub())
      || exists x :: life.added < x < i
           && TakesOut(states[x], steps[x], x, life.recorded, fill.session, fill.Sub())
  {
    var fill := states[i].nodes[n].entries[k].fill;
    life := EntryLived(states, steps, i, n, k);
    AddsOwnSession(states, steps, life.added, life.thread, fill);
    EntryIsOk(states, steps, i, n, k);
    IndexedUnlessTakenOut(states, steps, i, fill);
  }

  lemma IndexedUnlessTakenOut(states: seq<State>, steps: seq<Step>, i: nat, fill: Fill)
    requires Run(states, steps) && i < |states| && FillOk(states[i], fill) && fill.HasRecorded()
    requires 1 <= fill.addedAt <= i && steps[fill.addedAt - 1].AddToIndex?
    ensures states[i].now < fill.recordedWall + INDEX_TTL ==>
      || fill.session in Indexed(states[i].index, fill.Sub())
      || exists x :: fill.addedAt - 1 < x < i
           && TakesOut(states[x], steps[x], x, fill.recordedAt - 1, fill.session, fill.Sub())
  {
    if fill.session !in Indexed(states[i].index, fill.Sub()) && states[i].now < fill.recordedWall + INDEX_TTL {
      var x := TakenOutBy(states, steps, i, fill);
    }
  }

  lemma TakenOutBy(states: seq<State>, steps: seq<Step>, i: nat, fill: Fill) returns (x: nat)
    requires Run(states, steps) && i < |states| && FillOk(states[i], fill) && fill.HasRecorded()
    requires fill.session !in Indexed(states[i].index, fill.Sub()) && states[i].now < fill.recordedWall + INDEX_TTL
    ensures fill.addedAt - 1 <= x < i
    ensures TakesOut(states[x], steps[x], x, fill.recordedAt - 1, fill.session, fill.Sub())
  {
    var removal := states[i].removed[fill.session];
    RemovalAt(states, steps, i, fill.session);
    x := removal.at - 1;
    RemovedNamesSub(states, steps, i, x, fill.session, removal.cause);
  }

  lemma AddsOwnSession(states: seq<State>, steps: seq<Step>, x: nat, m: nat, fill: Fill)
    requires Run(states, steps) && x < |steps| && steps[x] == AddToIndex(m)
    requires m in states[x].misses && SameMiss(states[x].misses[m], fill)
    ensures Adds(states[x], steps[x], fill.session, fill.Sub())
  {
    assert Takes(states, steps, x);
    AddsOwn(states[x], steps[x], states[x + 1]);
  }

  lemma AddsOwn(s: State, step: Step, t: State)
    requires Next(s, step, t) && step.AddToIndex?
    ensures At(s, step.thread, Verified)
  {}

  lemma RemovalAt(states: seq<State>, steps: seq<Step>, i: nat, session: Text)
    requires Run(states, steps) && i < |states| && session in states[i].removed
    ensures 1 <= states[i].removed[session].at <= i
    ensures RemovalTrue(states, steps, session, states[i].removed[session])
  {
    RunRemembers(states, steps, i);
    RunInvariant(states, steps, i);
    RunClock(states, steps, i);
  }

  /** Whatever removed a session belonged to the session's own sub. */
  lemma RemovedNamesSub(states: seq<State>, steps: seq<Step>, i: nat, x: nat, session: Text, cause: Cause)
    requires Run(states, steps) && x < i < |states| && RemovedBy(states[x], steps[x], session, cause)
    requires session in states[i].owner
    ensures cause.ByKill? ==> states[x].revokers[steps[x].thread].sub == states[i].owner[session]
    ensures cause.ByLogout? ==> states[x].revokers[steps[x].thread].sessions == {session}
    ensures cause.ByLapse? ==> Lapses(states[x], states[i].owner[session], steps[x].now)
  {
    IndexAt(states, steps, x);
    RunLasts(states, steps, x, i);
    if cause.ByLogout? {
      RunRemembers(states, steps, x);
      assert RevokerTrue(states, steps, steps[x].thread, states[x].revokers[steps[x].thread]);
    }
  }

  lemma IndexAt(states: seq<State>, steps: seq<Step>, i: nat)
    requires Run(states, steps) && i < |states|
    ensures IndexOk(states[i])
  {
    RunInvariant(states, steps, i);
  }

  /** Step `a` is a SADD of the session, and nothing has taken it out since. */
  ghost predicate AddedLast(states: seq<State>, steps: seq<Step>, a: nat, i: nat, x: Text, sub: Text)
    requires |states| == |steps| + 1
  {
    && a < i < |states| && Adds(states[a], steps[a], x, sub)
    && forall j :: a < j < i ==> !Leaves(states[j], steps[j], x, sub)
  }

  /** The index holds a session exactly when its last SADD came after the last
      kill of its sub, logout of it, and lapse of its set. */
  lemma {:induction false} IndexedExactly(states: seq<State>, steps: seq<Step>, i: nat, x: Text, sub: Text)
    requires Run(states, steps) && i < |states|
    ensures x in Indexed(states[i].index, sub) <==> exists a: nat :: AddedLast(states, steps, a, i, x, sub)
    decreases i
  {
    if i > 0 {
      IndexedExactly(states, steps, i - 1, x, sub);
      IndexStep(states, steps, i - 1, x, sub);
      if x in Indexed(states[i].index, sub) {
        if Adds(states[i - 1], steps[i - 1], x, sub) {
          assert AddedLast(states, steps, i - 1, i, x, sub);
        } else {
          var a: nat :| AddedLast(states, steps, a, i - 1, x, sub);
          assert AddedLast(states, steps, a, i, x, sub);
        }
      }
      forall a: nat | AddedLast(states, steps, a, i, x, sub) ensures x in Indexed(states[i].index, sub) {
        if a < i - 1 { assert AddedLast(states, steps, a, i - 1, x, sub); }
      }
    }
  }

  lemma IndexStep(states: seq<State>, steps: seq<Step>, i: nat, x: Text, sub: Text)
    requires Run(states, steps) && i < |steps|
    ensures IndexFollows(states[i], steps[i], states[i + 1], x, sub)
  {
    assert Takes(states, steps, i);
    IndexChanges(states[i], steps[i], states[i + 1], x, sub);
  }

  // --- Retries ---

  /** A session is ended exactly when it once lived and was ended by itself or by
      the DEL of a kill or logout that named it. */
  lemma {:induction false} EndedExactly(states: seq<State>, steps: seq<Step>, i: nat, x: Text)
    requires Run(states, steps) && i < |states|
    ensures x in states[i].ended <==> exists j: nat :: j < i && Ends(states[j], steps[j], x)
    decreases i
  {
    if i > 0 {
      EndedExactly(states, steps, i - 1, x);
      EndedStep(states, steps, i - 1, x);
      if x in states[i].ended && x !in states[i - 1].ended {
        assert Ends(states[i - 1], steps[i - 1], x);
      }
      forall j: nat | j < i && Ends(states[j], steps[j], x) ensures x in states[i].ended {
        if j < i - 1 { assert x in states[i - 1].ended; }
      }
    }
  }

  lemma EndedStep(states: seq<State>, steps: seq<Step>, i: nat, x: Text)
    requires Run(states, steps) && i < |steps|
    ensures EndedFollows(states[i], steps[i], states[i + 1], x)
  {
    RunInvariant(states, steps, i);
    assert Takes(states, steps, i);
    EndedChanges(states[i], steps[i], states[i + 1], x);
  }

  lemma {:induction false} StaysIndexed(states: seq<State>, steps: seq<Step>, l: nat, j: nat, x: Text, sub: Text)
    requires Run(states, steps) && l <= j < |states| && x in Indexed(states[l].index, sub)
    requires forall q :: l <= q < j ==> !Leaves(states[q], steps[q], x, sub)
    ensures x in Indexed(states[j].index, sub)
    decreases j
  {
    if l < j {
      StaysIndexed(states, steps, l, j - 1, x, sub);
      IndexStep(states, steps, j - 1, x, sub);
    }
  }

  /** Retries among everything else that goes on: however many attempts listed
      this session at `l` or later and stopped, and however they were
      interleaved with misses, once a kill that listed after them answers OK the
      session is among those it cut and is live in no later state - if no step
      took it out of the index in between, which an attempt that stops before
      its last step never does. What its entries may still be is `KillSafety`
      and `FleetKill`. */
  lemma RetryCutsAll(states: seq<State>, steps: seq<Step>, l: nat, f: nat, r: nat, x: Text, i: nat)
    returns (relisted: nat)
    requires Run(states, steps) && f < i < |states| && Completes(states[f], steps[f], r)
    requires states[f].revokers[r].kind == Kill && l < f && l < states[f].revokers[r].listedAt
    requires x in Indexed(states[l].index, states[f].revokers[r].sub)
    requires forall q :: l <= q < f ==> !Leaves(states[q], steps[q], x, states[f].revokers[r].sub)
    ensures l <= relisted < f && steps[relisted] == ListSessions(r)
    ensures x in states[f].revokers[r].sessions && !Live(states[i], x)
  {
    RevokerSteps(states, steps, f, r);
    relisted := KillNamesTheIndexed(states, steps, f, r);
    StaysIndexed(states, steps, l, relisted, x, states[f].revokers[r].sub);
    CutAfter(states, steps, f, r, i);
  }

  lemma CutAfter(states: seq<State>, steps: seq<Step>, f: nat, r: nat, i: nat)
    requires Run(states, steps) && f < i < |states| && Completes(states[f], steps[f], r)
    ensures forall x :: x in states[f].revokers[r].sessions ==> x in states[i].ended
  {
    RevokerStamps(states, steps, f, r);
    RunLasts(states, steps, f, i);
  }
}
