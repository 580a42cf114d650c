/** One thread of the fleet with nothing in between: the kill of `KillSwitch` and
    the miss of `DecisionPath`, call after call at one instance, are runs of the
    fleet, possible from every state, and leave there what they leave alone. */
module FleetAlone {
  import opened Prelude
  import opened SessionCookie
  import opened Store
  import opened Fleet
  import DecisionPath
  import KillSwitch
  import Services

  /** The steps, taken one after the other from s, can end in t. */
  ghost predicate Chain<S(!new), A(!new)>(next: (S, A, S) -> bool, s: S, steps: seq<A>, t: S)
    decreases |steps|
  {
    if steps == [] then s == t
    else exists u :: next(s, steps[0], u) && Chain(next, u, steps[1..], t)
  }

  lemma {:induction false} ChainOn<S(!new), A(!new)>(
    next: (S, A, S) -> bool, s: S, a: seq<A>, u: S, b: seq<A>, t: S)
    requires Chain(next, s, a, u) && Chain(next, u, b, t)
    ensures Chain(next, s, a + b, t)
    decreases |a|
  {
    if a == [] {
      assert a + b == b;
    } else {
      var v :| next(s, a[0], v) && Chain(next, v, a[1..], u);
      ChainOn(next, v, a[1..], u, b, t);
      assert (a + b)[1..] == a[1..] + b;
    }
  }

  ghost function FleetNext(): (State, Step, State) -> bool { (s, step, t) => Next(s, step, t) }

  ghost predicate Leads(s: State, steps: seq<Step>, t: State) { Chain(FleetNext(), s, steps, t) }

  lemma LeadsOn(s: State, a: seq<Step>, u: State, b: seq<Step>, t: State)
    requires Leads(s, a, u) && Leads(u, b, t)
    ensures Leads(s, a + b, t)
  {
    ChainOn(FleetNext(), s, a, u, b, t);
  }

  lemma OneStep(s: State, step: Step, t: State)
    requires Next(s, step, t)
    ensures Leads(s, [step], t)
  {
    assert FleetNext()(s, step, t) && Chain(FleetNext(), t, [step][1..], t);
  }

  lemma TwoSteps(s: State, x: Step, u: State, y: Step, t: State)
    requires Next(s, x, u) && Next(u, y, t)
    ensures Leads(s, [x, y], t)
  {
    OneStep(s, x, u);
    OneStep(u, y, t);
    LeadsOn(s, [x], u, [y], t);
    assert [x] + [y] == [x, y];
  }

  // --- The drop ---

  lemma DropsOne(s: State, r: nat, key: Key) returns (t: State)
    requires In(s, r, Clearing) && key in s.revokers[r].drop.todo
    ensures Leads(s, [DropOne(r, key)], t)
    ensures t == DroppingOne(s, r, key)
  {
    t := DroppingOne(s, r, key);
    assert FinishNext(s, DropOne(r, key), t);
    OneStep(s, DropOne(r, key), t);
  }

  /** Everything left to evict, evicted. */
  function Dropped(s: State, r: nat, steps: nat): State
    requires In(s, r, Clearing)
  {
    var rv := s.revokers[r];
    var node := s.nodes[rv.node];
    s.(clock := s.clock + steps,
       revokers := s.revokers[r := rv.(drop := rv.drop.(todo := {}))],
       nodes := s.nodes[rv.node := node.(entries := node.entries - rv.drop.todo)])
  }

  lemma {:induction false} DropsAll(s: State, r: nat) returns (steps: seq<Step>)
    requires In(s, r, Clearing)
    ensures Leads(s, steps, Dropped(s, r, |steps|))
    decreases |s.revokers[r].drop.todo|
  {
    var rv := s.revokers[r];
    if rv.drop.todo == {} {
      steps := [];
      DroppedNothing(s, r);
    } else {
      var key :| key in rv.drop.todo;
      var u := DropsOne(s, r, key);
      var rest := DropsAll(u, r);
      steps := [DropOne(r, key)] + rest;
      DropsNext(s, r, key, u, rest);
    }
  }

  lemma DropsNext(s: State, r: nat, key: Key, u: State, rest: seq<Step>)
    requires In(s, r, Clearing) && key in s.revokers[r].drop.todo && u == DroppingOne(s, r, key)
    requires Leads(s, [DropOne(r, key)], u) && Leads(u, rest, Dropped(u, r, |rest|))
    ensures Leads(s, [DropOne(r, key)] + rest, Dropped(s, r, |rest| + 1))
  {
    LeadsOn(s, [DropOne(r, key)], u, rest, Dropped(u, r, |rest|));
    DroppedOnce(s, r, key, u, |rest|);
  }

  lemma DroppedNothing(s: State, r: nat)
    requires In(s, r, Clearing) && s.revokers[r].drop.todo == {}
    ensures Dropped(s, r, 0) == s
  {
    var rv := s.revokers[r];
    var node := s.nodes[rv.node];
    assert node.entries - {} == node.entries;
    assert s.revokers[r := rv] == s.revokers && s.nodes[rv.node := node] == s.nodes;
  }

  lemma DroppedOnce(s: State, r: nat, key: Key, u: State, steps: nat)
    requires In(s, r, Clearing) && key in s.revokers[r].drop.todo && u == DroppingOne(s, r, key)
    ensures Dropped(u, r, steps) == Dropped(s, r, steps + 1)
  {
    var rv := s.revokers[r];
    var node := s.nodes[rv.node];
    assert node.entries - {key} - (rv.drop.todo - {key}) == node.entries - rv.drop.todo;
  }

  // --- The whole kill ---

  function Killer(n: nat, sub: Text): Revoker { Revoker(n, sub, Kill, Begun, {}, 0, 0, 0, false, NO_DROP) }

  lemma Names(s: State, r: nat, n: nat, sub: Text) returns (steps: seq<Step>, t: State)
    requires r !in s.revokers && n in s.nodes
    ensures Leads(s, steps, t)
    ensures t == s.(clock := s.clock + 2, revokers := s.revokers[r := Killer(n, sub).(
      phase := Listed, sessions := Indexed(s.index, sub), listedAt := s.clock + 1)])
  {
    var a := WithRevoker(s, r, Killer(n, sub));
    t := WithRevoker(a, r, Killer(n, sub).(phase := Listed, sessions := Indexed(s.index, sub), listedAt := a.clock));
    assert BeginNext(s, BeginKill(r, n, sub), a) && BeginNext(a, ListSessions(r), t);
    steps := [BeginKill(r, n, sub), ListSessions(r)];
    TwoSteps(s, BeginKill(r, n, sub), a, ListSessions(r), t);
  }

  lemma CutsAndTells(s: State, r: nat) returns (steps: seq<Step>, t: State)
    requires In(s, r, Listed)
    ensures Leads(s, steps, t)
    ensures var rv := s.revokers[r];
      && r in t.revokers
      && t.revokers[r] == rv.(
           phase := Published, deletedAt := s.clock, publishedAt := s.clock + 1, announced := true)
      && t.owner == s.owner && t.index == s.index && t.ended == Ending(s, rv.sessions)
      && t.nodes == Delivered(s.nodes, rv.sub)
  {
    var a := WithRevoker(s, r, s.revokers[r].(phase := Deleted, deletedAt := s.clock))
      .(ended := Ending(s, s.revokers[r].sessions));
    t := Publishing(a, r, true, true);
    assert CutNext(s, DeleteSessions(r), a) && CutNext(a, Publish(r, true, true), t);
    steps := [DeleteSessions(r), Publish(r, true, true)];
    TwoSteps(s, DeleteSessions(r), a, Publish(r, true, true), t);
  }

  lemma Drops(s: State, r: nat) returns (steps: seq<Step>, t: State)
    requires In(s, r, Published)
    ensures Leads(s, steps, t) && In(t, r, Clearing)
    ensures var rv := s.revokers[r];
      && t == s.(clock := t.clock, revokers := s.revokers[r := t.revokers[r]], nodes := s.nodes[rv.node :=
           s.nodes[rv.node].(entries := s.nodes[rv.node].entries - KeysOf(s.nodes[rv.node].entries, rv.sub))])
      && t.revokers[r] == rv.(phase := Clearing, drop := Drop(Some(rv.sub), s.clock, {}))
  {
    var a := StartingDrop(s, r);
    assert CutNext(s, StartDrop(r), a);
    OneStep(s, StartDrop(r), a);
    var drops := DropsAll(a, r);
    t := Dropped(a, r, |drops|);
    steps := [StartDrop(r)] + drops;
    LeadsOn(s, [StartDrop(r)], a, drops, t);
  }

  lemma EndsAndForgets(s: State, r: nat) returns (steps: seq<Step>, t: State)
    requires In(s, r, Clearing) && s.revokers[r].drop.todo == {}
    requires s.revokers[r].announced && s.revokers[r].kind == Kill
    ensures Leads(s, steps, t) && r in t.revokers
    ensures var rv := s.revokers[r]; var node := s.nodes[rv.node];
      && t.revokers[r] == rv.(phase := Done)
      && t.owner == s.owner && t.ended == s.ended && t.index == s.index - {rv.sub}
      && t.nodes == s.nodes[rv.node := node.(cleared := Stamped(node.cleared, rv.sub, rv.drop.since))]
  {
    var a := EndingDrop(s, r);
    t := Forgetting(a, r, true);
    assert FinishNext(s, EndDrop(r), a) && FinishNext(a, Forget(r, true), t);
    steps := [EndDrop(r), Forget(r, true)];
    TwoSteps(s, EndDrop(r), a, Forget(r, true), t);
  }

  /** Where a kill that runs through from s arrives. */
  ghost predicate RunThrough(s: State, r: nat, n: nat, sub: Text, t: State)
    requires n in s.nodes
  {
    && r in t.revokers && t.revokers[r].phase == Done && t.revokers[r].sessions == Indexed(s.index, sub)
    && t.owner == s.owner && t.ended.Keys == Ending(s, Indexed(s.index, sub)).Keys
    && t.index == s.index - {sub} && t.nodes.Keys == s.nodes.Keys
    && t.nodes[n].entries == s.nodes[n].entries - KeysOf(s.nodes[n].entries, sub)
    && forall j :: j in s.nodes ==>
         && (j != n ==> t.nodes[j].entries == s.nodes[j].entries)
         && t.nodes[j].queue == if s.nodes[j].connection == Up then s.nodes[j].queue + [sub] else s.nodes[j].queue
  }

  /** The two halves of it. */
  lemma Halves(s: State, r: nat, n: nat, sub: Text) returns (steps: seq<Step>, t: State)
    requires r !in s.revokers && n in s.nodes
    ensures Leads(s, steps, t) && In(t, r, Published)
    ensures var rv := t.revokers[r];
      rv.node == n && rv.sub == sub && rv.kind == Kill && rv.announced && rv.sessions == Indexed(s.index, sub)
    ensures t.owner == s.owner && t.index == s.index && t.ended.Keys == Ending(s, Indexed(s.index, sub)).Keys
    ensures t.nodes == Delivered(s.nodes, sub)
  {
    var first, a := Names(s, r, n, sub);
    var second;
    second, t := CutsAndTells(a, r);
    steps := first + second;
    LeadsOn(s, first, a, second, t);
  }

  lemma Rest(s: State, r: nat) returns (steps: seq<Step>, t: State)
    requires In(s, r, Published) && s.revokers[r].announced && s.revokers[r].kind == Kill
    ensures Leads(s, steps, t) && r in t.revokers && t.revokers[r].phase == Done
    ensures t.revokers[r].sessions == s.revokers[r].sessions
    ensures t.owner == s.owner && t.ended == s.ended && t.index == s.index - {s.revokers[r].sub}
    ensures t.nodes.Keys == s.nodes.Keys
    ensures forall j :: j in s.nodes && j != s.revokers[r].node ==> t.nodes[j] == s.nodes[j]
    ensures var n := s.revokers[r].node;
      && t.nodes[n].entries == s.nodes[n].entries - KeysOf(s.nodes[n].entries, s.revokers[r].sub)
      && t.nodes[n].queue == s.nodes[n].queue
  {
    var first, a := Drops(s, r);
    var second;
    second, t := EndsAndForgets(a, r);
    steps := first + second;
    LeadsOn(s, first, a, second, t);
  }

  /** What an instance and Redis are to a kill, in the terms of `KillSwitch`. */
  ghost predicate Seen(s: State, n: nat, w: KillSwitch.World)
    requires n in s.nodes
  {
    && (forall x :: x in w.sessions <==> Live(s, x))
    && (forall u :: Services.Members(w.index, u) == Indexed(s.index, u))
    && (forall k :: k in w.entries <==> k in s.nodes[n].entries)
    && (forall k :: k in w.entries ==> w.entries[k].sub == s.nodes[n].entries[k].fill.Sub())
  }

  lemma ThroughHalves(s: State, u: State, r: nat, n: nat, sub: Text, t: State)
    requires n in s.nodes && r in t.revokers && t.revokers[r].phase == Done
    requires t.revokers[r].sessions == Indexed(s.index, sub)
    requires t.owner == s.owner && t.ended.Keys == Ending(s, Indexed(s.index, sub)).Keys
    requires t.index == s.index - {sub}
    requires u.nodes == Delivered(s.nodes, sub) && t.nodes.Keys == u.nodes.Keys
    requires forall j :: j in u.nodes && j != n ==> t.nodes[j] == u.nodes[j]
    requires t.nodes[n].entries == u.nodes[n].entries - KeysOf(u.nodes[n].entries, sub)
    requires t.nodes[n].queue == u.nodes[n].queue
    ensures RunThrough(s, r, n, sub, t)
  {
    assert forall j :: j in s.nodes ==> u.nodes[j].entries == s.nodes[j].entries;
  }

  lemma SeenAfter(s: State, r: nat, n: nat, sub: Text, t: State, w: KillSwitch.World)
    requires n in s.nodes && Seen(s, n, w) && RunThrough(s, r, n, sub, t)
    ensures Seen(t, n, KillSwitch.KillRun(w, sub, KillSwitch.ALL_DONE).0)
    ensures KillSwitch.KillRun(w, sub, KillSwitch.ALL_DONE).1 == KillSwitch.Killed(|t.revokers[r].sessions|)
  {
    var w' := KillSwitch.KillRun(w, sub, KillSwitch.ALL_DONE).0;
    KillSwitch.StoppedIsRetryable(w, sub, KillSwitch.ALL_DONE);
    forall u ensures Services.Members(w'.index, u) == Indexed(t.index, u) {
      assert Services.Members(w.index, u) == Indexed(s.index, u);
    }
  }

  /** From any state, whatever else is under way, a kill can run through: it then
      answers OK, having left at its instance and in Redis what the kill of
      `KillSwitch` leaves when every call is done, and told every instance whose
      connection is up. */
  lemma KillRunsThrough(s: State, r: nat, n: nat, sub: Text, w: KillSwitch.World)
    returns (steps: seq<Step>, t: State)
    requires r !in s.revokers && n in s.nodes && Seen(s, n, w)
    ensures Leads(s, steps, t) && RunThrough(s, r, n, sub, t)
    ensures Seen(t, n, KillSwitch.KillRun(w, sub, KillSwitch.ALL_DONE).0)
    ensures KillSwitch.KillRun(w, sub, KillSwitch.ALL_DONE).1 == KillSwitch.Killed(|t.revokers[r].sessions|)
  {
    var first, u := Halves(s, r, n, sub);
    var second;
    second, t := Rest(u, r);
    steps := first + second;
    LeadsOn(s, first, u, second, t);
    ThroughHalves(s, u, r, n, sub, t);
    SeenAfter(s, r, n, sub, t, w);
  }

  // --- The whole miss ---

  /** One session more under one sub. */
  ghost predicate Gained(before: map<Text, Members>, after: map<Text, Members>, sub: Text, session: Text) {
    forall u :: Indexed(after, u) == Indexed(before, u) + (if u == sub then {session} else {})
  }

  ghost predicate SameMembers(before: map<Text, Members>, after: map<Text, Members>) {
    forall u :: Indexed(after, u) == Indexed(before, u)
  }

  lemma GainedOn(a: map<Text, Members>, b: map<Text, Members>, c: map<Text, Members>, sub: Text, session: Text)
    requires Gained(a, b, sub, session) && SameMembers(b, c)
    ensures Gained(a, c, sub, session)
  {}

  lemma SetsDeadline(s: State, m: nat) returns (t: State)
    requires At(s, m, Added)
    ensures Leads(s, [SetDeadline(m)], t) && At(t, m, Recorded)
    ensures t.misses[m] == s.misses[m].(stage := Recorded, recordedAt := s.clock, recordedWall := s.now)
    ensures t.nodes == s.nodes && t.tables == s.tables && t.now == s.now
    ensures SameMembers(s.index, t.index)
    ensures var sub := s.misses[m].Sub();
      sub in s.index ==> sub in t.index && t.index[sub].deadline == Some(s.now + INDEX_TTL)
  {
    t := SettingDeadline(s, m);
    assert RecordNext(s, SetDeadline(m), t);
    OneStep(s, SetDeadline(m), t);
  }

  /** A miss that has been added to the index of s, on its way. */
  ghost predicate Underway(s: State, m: nat, n: nat, key: Key, session: Text, identity: Identity, a: State) {
    && At(a, m, Added) && n in s.nodes
    && a.misses[m].node == n && a.misses[m].key == key
    && a.misses[m].session == session && a.misses[m].identity == identity
    && a.nodes == s.nodes && a.tables == s.tables && a.now == s.now
    && identity.sub in a.index && Gained(s.index, a.index, identity.sub, session)
  }

  lemma AddedUnderway(s: State, m: nat, n: nat, key: Key, session: Text, identity: Identity)
    requires n in s.nodes
    ensures var a := WithMiss(s, m, NewFill(s, n, key, session, identity));
      At(a, m, Verified) && Underway(s, m, n, key, session, identity, Adding(a, m))
  {}

  lemma EntersAndAdds(s: State, m: nat, n: nat, key: Key, session: Text, identity: Identity)
    returns (steps: seq<Step>, t: State)
    requires CanAuthenticate(s, m, n, key, session, identity)
    ensures Leads(s, steps, t) && Underway(s, m, n, key, session, identity, t)
  {
    var a := WithMiss(s, m, NewFill(s, n, key, session, identity));
    AddedUnderway(s, m, n, key, session, identity);
    t := Adding(a, m);
    assert RecordNext(s, Authenticate(m, n, key, session, identity), a) && RecordNext(a, AddToIndex(m), t);
    steps := [Authenticate(m, n, key, session, identity), AddToIndex(m)];
    TwoSteps(s, Authenticate(m, n, key, session, identity), a, AddToIndex(m), t);
  }

  /** The rules read and cached. */
  lemma Caches(s: State, m: nat) returns (steps: seq<Step>, t: State)
    requires At(s, m, Recorded) && s.misses[m].node in s.nodes
    ensures Leads(s, steps, t) && t.index == s.index && t.nodes.Keys == s.nodes.Keys
    ensures var fill := s.misses[m]; var node := s.nodes[fill.node];
      && fill.key in t.nodes[fill.node].entries
      && t.nodes == s.nodes[fill.node := node.(entries :=
           node.entries[fill.key := t.nodes[fill.node].entries[fill.key]])]
      && var e := t.nodes[fill.node].entries[fill.key];
         && e.insertedWall == s.now && e.fill.identity == fill.identity && e.fill.session == fill.session
         && e.fill.loaded == Load(s.tables, fill.key.slug, Caller(fill.identity.sub, fill.identity.groups))
  {
    var a := Loading(s, m);
    t := Inserting(a, m);
    assert FillNext(s, LoadRules(m), a) && FillNext(a, Insert(m), t);
    steps := [LoadRules(m), Insert(m)];
    TwoSteps(s, LoadRules(m), a, Insert(m), t);
  }

  /** In t the entry that a miss makes of s is cached, and no other has moved. */
  ghost predicate CachedAfter(s: State, n: nat, key: Key, session: Text, identity: Identity, t: State) {
    && n in s.nodes && n in t.nodes && key in t.nodes[n].entries
    && t.nodes == s.nodes[n := s.nodes[n].(entries := s.nodes[n].entries[key := t.nodes[n].entries[key]])]
    && var e, filled := t.nodes[n].entries[key], DecisionPath.Filled(s.tables, key.slug, identity);
       && e.fill.identity == filled.identity && e.fill.loaded == filled.loaded
       && e.fill.session == session && e.insertedWall == s.now
  }

  lemma CachedSame(s: State, a: State, n: nat, key: Key, session: Text, identity: Identity, t: State)
    requires CachedAfter(a, n, key, session, identity, t)
    requires a.nodes == s.nodes && a.tables == s.tables && a.now == s.now
    ensures CachedAfter(s, n, key, session, identity, t)
  {}

  /** The deadline set, and then the rules read and cached. */
  lemma Finishes(s: State, m: nat) returns (steps: seq<Step>, t: State)
    requires At(s, m, Added) && s.misses[m].node in s.nodes && s.misses[m].Sub() in s.index
    ensures Leads(s, steps, t) && SameMembers(s.index, t.index)
    ensures var sub := s.misses[m].Sub(); sub in t.index && t.index[sub].deadline == Some(s.now + INDEX_TTL)
    ensures var f := s.misses[m]; CachedAfter(s, f.node, f.key, f.session, f.identity, t)
  {
    var a := SetsDeadline(s, m);
    var rest;
    rest, t := Caches(a, m);
    steps := [SetDeadline(m)] + rest;
    LeadsOn(s, [SetDeadline(m)], a, rest, t);
  }

  lemma UnderwayFinishes(
    s: State, m: nat, n: nat, key: Key, session: Text, identity: Identity, first: seq<Step>, a: State)
    returns (steps: seq<Step>, t: State)
    requires Leads(s, first, a) && Underway(s, m, n, key, session, identity, a)
    ensures Leads(s, steps, t)
    ensures CachedAfter(s, n, key, session, identity, t)
    ensures Gained(s.index, t.index, identity.sub, session)
    ensures identity.sub in t.index && t.index[identity.sub].deadline == Some(s.now + INDEX_TTL)
  {
    var second;
    second, t := Finishes(a, m);
    steps := first + second;
    LeadsOn(s, first, a, second, t);
    GainedOn(s.index, a.index, t.index, identity.sub, session);
    CachedSame(s, a, n, key, session, identity, t);
  }

  /** From any state, for any session oauth2-proxy holds, a miss can run through:
      its session is then in the index of its owner, with the full deadline and
      beside whatever was there, and the data that `DecisionPath` fills an entry
      with is cached under its key, fresh. */
  lemma MissRunsThrough(s: State, m: nat, n: nat, key: Key, session: Text, identity: Identity)
    returns (steps: seq<Step>, t: State)
    requires CanAuthenticate(s, m, n, key, session, identity)
    ensures Leads(s, steps, t)
    ensures CachedAfter(s, n, key, session, identity, t)
    ensures Gained(s.index, t.index, identity.sub, session)
    ensures identity.sub in t.index && t.index[identity.sub].deadline == Some(s.now + INDEX_TTL)
  {
    var first, a := EntersAndAdds(s, m, n, key, session, identity);
    steps, t := UnderwayFinishes(s, m, n, key, session, identity, first, a);
  }
}
