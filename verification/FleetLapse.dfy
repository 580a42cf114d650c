/** A run in which a recorded session is cached and not indexed, with no kill and
    no logout in it: the set it was added to reaches a deadline of its own
    between the SADD and the EXPIRE. */
module FleetLapse {
  import opened Prelude
  import opened Store
  import opened SessionCookie
  import opened Fleet
  import opened FleetRuns
  import Ticket
  import Utf8

  /** One node, one user, one session. */
  datatype Scene = Scene(tables: Tables, key: Key, session: Text, identity: Identity)
  {
    predicate Fits() { Ticket.SessionKey(key.cookie, COOKIE_NAME) == Some(session) }

    function Owner(): map<Text, Text> { map[session := identity.sub] }

    function Set(deadline: Option<nat>): map<Text, Members> {
      map[identity.sub := Members({session}, deadline)]
    }

    /** The fleet at this moment, as far as the scene changes it. */
    function At(
      clock: nat, now: nat, owner: map<Text, Text>, index: map<Text, Members>, removed: map<Text, Removal>,
      entries: map<Key, Entry>, misses: map<nat, Fill>): State
    {
      State(clock, now, owner, map[], index, removed, map[], tables,
        map[0 := NEW_NODE.(entries := entries)], misses, map[])
    }

    function Miss(verifiedAt: nat): Fill {
      Fill(0, key, identity, session, Verified, Loaded(None, false, []), verifiedAt, 0, 0, 0, 0)
    }

    /** The first miss: indexed, with the deadline INDEX_TTL away. */
    function First(): Fill {
      Added(2).(stage := Stage.Recorded, recordedAt := 4, recordedWall := 0)
    }

    function Added(verifiedAt: nat): Fill {
      Miss(verifiedAt).(stage := Stage.Added, addedAt := verifiedAt + 1)
    }

    /** The second miss after its EXPIRE. */
    function Recorded(): Fill { Added(5).(stage := Stage.Recorded, recordedAt := 8, recordedWall := INDEX_TTL) }

    /** And once it has loaded its rules. */
    function Second(): Fill {
      Recorded().(stage := Filled, loadedAt := 9,
        loaded := Load(tables, key.slug, Caller(identity.sub, identity.groups)))
    }

    function Gone(): map<Text, Removal> { map[session := Removal(7, ByLapse)] }

    // The states, in order.

    function S0(): State { At(1, 0, map[], map[], map[], map[], map[]) }

    function S1(): State { At(2, 0, Owner(), map[], map[], map[], map[]) }

    function S2(): State { At(3, 0, Owner(), map[], map[], map[], map[0 := Miss(2)]) }

    function S3(): State { At(4, 0, Owner(), Set(None), map[], map[], map[0 := Added(2)]) }

    function S4(): State { At(5, 0, Owner(), Set(Some(INDEX_TTL)), map[], map[], map[0 := First()]) }

    function S5(): State { At(6, 0, Owner(), Set(Some(INDEX_TTL)), map[], map[], map[0 := First(), 1 := Miss(5)]) }

    function S6(): State { At(7, 0, Owner(), Set(Some(INDEX_TTL)), map[], map[], map[0 := First(), 1 := Added(5)]) }

    function S7(): State { At(8, INDEX_TTL, Owner(), map[], Gone(), map[], map[0 := First(), 1 := Added(5)]) }

    function S8(): State { At(9, INDEX_TTL, Owner(), map[], Gone(), map[], map[0 := First(), 1 := Recorded()]) }

    function S9(): State { At(10, INDEX_TTL, Owner(), map[], Gone(), map[], map[0 := First(), 1 := Second()]) }

    function S10(): State {
      At(11, INDEX_TTL, Owner(), map[], Gone(), map[key := Entry(Second(), 10, INDEX_TTL)], map[0 := First()])
    }

    function States(): seq<State> { [S0(), S1(), S2(), S3(), S4(), S5(), S6(), S7(), S8(), S9(), S10()] }

    function Steps(): seq<Step> {
      [Login(session, identity.sub),
       Authenticate(0, 0, key, session, identity), AddToIndex(0), SetDeadline(0),
       Authenticate(1, 0, key, session, identity), AddToIndex(1),
       Tick(INDEX_TTL),
       SetDeadline(1), LoadRules(1), Insert(1)]
    }
  }

  // One lemma a step; a run is given by what stands before and after the step.

  lemma LogsIn(x: Scene, states: seq<State>, steps: seq<Step>)
    requires |states| == 11 && |steps| == 10
    requires states[0] == x.S0() && steps[0] == Login(x.session, x.identity.sub) && states[1] == x.S1()
    ensures Takes(states, steps, 0)
  {}

  lemma FirstAuthenticates(x: Scene, states: seq<State>, steps: seq<Step>)
    requires |states| == 11 && |steps| == 10 && x.Fits()
    requires states[1] == x.S1() && steps[1] == Authenticate(0, 0, x.key, x.session, x.identity) && states[2] == x.S2()
    ensures Takes(states, steps, 1)
  {
    assert CanAuthenticate(x.S1(), 0, 0, x.key, x.session, x.identity);
  }

  lemma FirstAdds(x: Scene, states: seq<State>, steps: seq<Step>)
    requires |states| == 11 && |steps| == 10
    requires states[2] == x.S2() && steps[2] == AddToIndex(0) && states[3] == x.S3()
    ensures Takes(states, steps, 2)
  {
    assert {} + {x.session} == {x.session};
  }

  lemma FirstSetsDeadline(x: Scene, states: seq<State>, steps: seq<Step>)
    requires |states| == 11 && |steps| == 10
    requires states[3] == x.S3() && steps[3] == SetDeadline(0) && states[4] == x.S4()
    ensures Takes(states, steps, 3)
  {}

  lemma SecondAuthenticates(x: Scene, states: seq<State>, steps: seq<Step>)
    requires |states| == 11 && |steps| == 10 && x.Fits()
    requires states[4] == x.S4() && steps[4] == Authenticate(1, 0, x.key, x.session, x.identity) && states[5] == x.S5()
    ensures Takes(states, steps, 4)
  {
    assert CanAuthenticate(x.S4(), 1, 0, x.key, x.session, x.identity);
  }

  lemma SecondAdds(x: Scene, states: seq<State>, steps: seq<Step>)
    requires |states| == 11 && |steps| == 10
    requires states[5] == x.S5() && steps[5] == AddToIndex(1) && states[6] == x.S6()
    ensures Takes(states, steps, 5)
  {
    assert {x.session} + {x.session} == {x.session};
  }

  lemma Lapse(x: Scene, states: seq<State>, steps: seq<Step>)
    requires |states| == 11 && |steps| == 10
    requires states[6] == x.S6() && steps[6] == Tick(INDEX_TTL) && states[7] == x.S7()
    ensures Takes(states, steps, 6)
  {}

  lemma SecondFindsNoSet(x: Scene, states: seq<State>, steps: seq<Step>)
    requires |states| == 11 && |steps| == 10
    requires states[7] == x.S7() && steps[7] == SetDeadline(1) && states[8] == x.S8()
    ensures Takes(states, steps, 7)
  {}

  lemma SecondLoads(x: Scene, states: seq<State>, steps: seq<Step>)
    requires |states| == 11 && |steps| == 10
    requires states[8] == x.S8() && steps[8] == LoadRules(1) && states[9] == x.S9()
    ensures Takes(states, steps, 8)
  {}

  lemma SecondInserts(x: Scene, states: seq<State>, steps: seq<Step>)
    requires |states| == 11 && |steps| == 10
    requires states[9] == x.S9() && steps[9] == Insert(1) && states[10] == x.S10()
    ensures Takes(states, steps, 9)
  {}

  lemma SceneElements(x: Scene)
    ensures |x.States()| == 11 && |x.Steps()| == 10
    ensures x.States()[0] == x.S0()
    ensures x.States()[1] == x.S1()
    ensures x.States()[2] == x.S2()
    ensures x.States()[3] == x.S3()
    ensures x.States()[4] == x.S4()
    ensures x.States()[5] == x.S5()
    ensures x.States()[6] == x.S6()
    ensures x.States()[7] == x.S7()
    ensures x.States()[8] == x.S8()
    ensures x.States()[9] == x.S9()
    ensures x.States()[10] == x.S10()
  {}

  lemma SceneTakes(x: Scene, i: nat)
    requires x.Fits() && i < 10
    ensures |x.States()| == 11 && |x.Steps()| == 10 && Takes(x.States(), x.Steps(), i)
  {
    var states, steps := x.States(), x.Steps();
    SceneElements(x);
    if i == 0 { LogsIn(x, states, steps); }
    else if i == 1 { FirstAuthenticates(x, states, steps); }
    else if i == 2 { FirstAdds(x, states, steps); }
    else if i == 3 { FirstSetsDeadline(x, states, steps); }
    else if i == 4 { SecondAuthenticates(x, states, steps); }
    else if i == 5 { SecondAdds(x, states, steps); }
    else if i == 6 { Lapse(x, states, steps); }
    else if i == 7 { SecondFindsNoSet(x, states, steps); }
    else if i == 8 { SecondLoads(x, states, steps); }
    else { SecondInserts(x, states, steps); }
  }

  lemma SceneRuns(x: Scene)
    requires x.Fits()
    ensures Run(x.States(), x.Steps())
  {
    SceneElements(x);
    forall i: nat | i < 10 ensures Takes(x.States(), x.Steps(), i) {
      SceneTakes(x, i);
    }
  }

  /** For every application, identity and tables there is such a run: at its end
      the entry is cached and was recorded within INDEX_TTL, its session is in no
      index, and no step was the last of a kill or a logout. */
  lemma LapseReached(slug: Text, identity: Identity, tables: Tables)
    returns (states: seq<State>, steps: seq<Step>, k: Key, life: Life)
    ensures Run(states, steps) && |steps| == 10
    ensures 0 in states[10].nodes && k in states[10].nodes[0].entries && k.slug == slug
    ensures var e := states[10].nodes[0].entries[k];
      Lived(states, steps, 10, 0, k, e, life)
      && e.fill.identity == identity && e.fill.session !in Indexed(states[10].index, e.fill.Sub())
    ensures states[10].now < states[life.recorded].now + INDEX_TTL
    ensures forall j :: 0 <= j < 10 ==> !steps[j].Forget?
  {
    var x := SceneOf(slug, identity, tables);
    SceneRuns(x);
    states, steps, k := x.States(), x.Steps(), x.key;
    life := Life(1, 4, 5, 7, 8, 9);
    SceneLived(x);
    SceneEnds(x);
    SceneElements(x);
  }

  lemma SceneOf(slug: Text, identity: Identity, tables: Tables) returns (x: Scene)
    ensures x.Fits() && x.key.slug == slug && x.identity == identity
  {
    var session := COOKIE_NAME + [DASH];
    Utf8.ValidAscii(session);
    Ticket.RoundTrip(session, [], [], COOKIE_NAME);
    assert session[..|session|] == session;
    x := Scene(tables, Key(Ticket.Cookie(session, [], []), slug), session, identity);
  }

  lemma SceneLived(x: Scene)
    ensures Lived(x.States(), x.Steps(), 10, 0, x.key, x.S10().nodes[0].entries[x.key], Life(1, 4, 5, 7, 8, 9))
  {
    var states, steps, e := x.States(), x.Steps(), x.S10().nodes[0].entries[x.key];
    forall j | 4 < j <= 9 ensures 1 in states[j].misses && SameMiss(states[j].misses[1], e.fill) {
      InFlight(x, j);
    }
    LivedFrom(states, steps, x.key, e);
  }

  lemma LivedFrom(states: seq<State>, steps: seq<Step>, k: Key, e: Entry)
    requires |states| == 11 && |steps| == 10
    requires steps[4] == Authenticate(1, 0, k, e.fill.session, e.fill.identity)
    requires steps[5] == AddToIndex(1) && steps[7] == SetDeadline(1)
    requires steps[8] == LoadRules(1) && steps[9] == Insert(1)
    requires forall j :: 4 < j <= 9 ==> 1 in states[j].misses && SameMiss(states[j].misses[1], e.fill)
    requires states[9].misses[1] == e.fill && e.insertedWall == states[9].now && e.fill.node == 0 && e.fill.key == k
    ensures Lived(states, steps, 10, 0, k, e, Life(1, 4, 5, 7, 8, 9))
  {}

  lemma InFlight(x: Scene, j: nat)
    requires 4 < j <= 9
    ensures 1 in x.States()[j].misses && SameMiss(x.States()[j].misses[1], x.Second())
  {
    if j == 5 { assert x.States()[j] == x.S5(); }
    else if j == 6 { assert x.States()[j] == x.S6(); }
    else if j == 7 { assert x.States()[j] == x.S7(); }
    else if j == 8 { assert x.States()[j] == x.S8(); }
    else { assert x.States()[j] == x.S9(); }
  }

  /** How it ends. */
  lemma SceneEnds(x: Scene)
    ensures x.key in x.S10().nodes[0].entries
    ensures var e := x.S10().nodes[0].entries[x.key];
      e.fill.identity == x.identity && e.fill.session !in Indexed(x.S10().index, e.fill.Sub())
    ensures x.S10().now < x.S7().now + INDEX_TTL
    ensures forall j :: 0 <= j < 10 ==> !x.Steps()[j].Forget?
  {}
}
