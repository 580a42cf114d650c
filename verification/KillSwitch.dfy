/** A kill and a logout as they run at one instance: ordered effects on Keycloak,
    Redis and the cache, any of which can fail. */
module KillSwitch {
  import opened Prelude
  import opened SessionCookie
  import opened CacheState
  import opened DecisionCache
  import opened Services

  /** How each call of a kill will go. */
  datatype KillPlan = KillPlan(keycloak: LogoutAll, list: Call, delete: Call, publish: Call, forget: Call)

  datatype KillStep = KeycloakLogoutAll | ReadSessionIndex | DeleteSessions | PublishInvalidation | ForgetIndexEntry

  /** 200 with a count, 404, or 503 with the step that failed. */
  datatype KillAnswer = Killed(sessions: nat) | NotFound | Stopped(step: KillStep)

  /** How each call of a logout will go; the sign-out may end the session and
      the single sign-on by itself, answered or not. */
  datatype LogoutPlan = LogoutPlan(
    signedOut: bool, endsSession: bool, endsSignOn: bool, delete: Call, publish: Call, forget: Call)

  datatype LogoutAnswer = Gone | Failed

  /** Everything the two act on. `signedOn` is Keycloak's; an absent set of the
      index is an empty one, as in Redis. */
  datatype World = World(
    signedOn: set<Text>, sessions: set<Text>, index: map<Text, set<Text>>, published: seq<Text>,
    entries: map<Key, Entry>)

  function WithoutSub(entries: map<Key, Entry>, sub: Text): map<Key, Entry> {
    map k | k in entries && entries[k].sub != sub :: entries[k]
  }

  function Now(keycloak: Keycloak, redis: Redis, cache: Cache): World
    reads keycloak, redis, cache
  {
    World(keycloak.signedOn, redis.sessions, redis.index, redis.published, cache.entries)
  }

  // --- What a run does ---

  /** The publish and the local drop: the drop runs whatever the publish
      answers. */
  function Broadcast(w: World, sub: Text, publish: Call): World {
    w.(published := if publish.Applied() then w.published + [sub] else w.published,
       entries := WithoutSub(w.entries, sub))
  }

  function KillRun(w: World, sub: Text, plan: KillPlan): (World, KillAnswer) {
    var w1 := w.(signedOn := SignedOn(w.signedOn, sub, plan.keycloak));
    var found := Members(w.index, sub);
    var w2 := if plan.delete.Applied() then w1.(sessions := w1.sessions - found) else w1;
    var w3 := Broadcast(w2, sub, plan.publish);
    var w4 := if plan.forget.Applied() then w3.(index := w3.index - {sub}) else w3;
    if plan.keycloak.NoSuchUser? then (w1, NotFound)
    else if plan.keycloak.NoAnswer? then (w1, Stopped(KeycloakLogoutAll))
    else if !plan.list.Done? then (w1, Stopped(ReadSessionIndex))
    else if found != {} && !plan.delete.Done? then (w2, Stopped(DeleteSessions))
    else if !plan.publish.Done? then (w3, Stopped(PublishInvalidation))
    else if !plan.forget.Done? then (w4, Stopped(ForgetIndexEntry))
    else (w4, Killed(|found|))
  }

  method Kill(keycloak: Keycloak, redis: Redis, cache: Cache, sub: Text, plan: KillPlan) returns (answer: KillAnswer)
    requires cache.Valid()
    modifies keycloak, redis, cache`entries, cache`bySub, cache.audit
    ensures cache.Valid()
    ensures (Now(keycloak, redis, cache), answer) == KillRun(old(Now(keycloak, redis, cache)), sub, plan)
    ensures SameTotals(old(cache.Ledger()), cache.Ledger())
  {
    keycloak.SignOutEverywhere(sub, plan.keycloak);
    match plan.keycloak {
      case NoSuchUser => return NotFound;
      case NoAnswer(_) => return Stopped(KeycloakLogoutAll);
      case LoggedOut =>
    }
    var sessions := redis.Sessions(sub, plan.list);
    if sessions.None? { return Stopped(ReadSessionIndex); }
    var deleted := redis.DropSessions(sessions.value, plan.delete);
    if !deleted { return Stopped(DeleteSessions); }
    var published := redis.PublishInvalidation(sub, plan.publish);
    cache.DropSub(sub);
    if !published { return Stopped(PublishInvalidation); }
    var forgotten := redis.Forget(sub, plan.forget);
    if !forgotten { return Stopped(ForgetIndexEntry); }
    return Killed(|sessions.value|);
  }

  function LogoutRun(w: World, sub: Text, key: Text, plan: LogoutPlan): (World, LogoutAnswer) {
    var w1 := w.(signedOn := if plan.endsSignOn then w.signedOn - {sub} else w.signedOn,
                 sessions := if plan.endsSession then w.sessions - {key} else w.sessions);
    var w2 := if plan.delete.Applied() then w1.(sessions := w1.sessions - {key}) else w1;
    var w3 := Broadcast(w2, sub, plan.publish);
    var w4 := if plan.forget.Applied() then w3.(index := WithoutMember(w3.index, sub, key)) else w3;
    if !plan.signedOut then (w1, Failed)
    else if !plan.delete.Done? then (w2, Failed)
    else if !plan.publish.Done? then (w3, Failed)
    else if !plan.forget.Done? then (w4, Failed)
    else (w4, Gone)
  }

  method Logout(keycloak: Keycloak, redis: Redis, cache: Cache, sub: Text, key: Text, plan: LogoutPlan)
    returns (answer: LogoutAnswer)
    requires cache.Valid()
    modifies keycloak, redis, cache`entries, cache`bySub, cache.audit
    ensures cache.Valid()
    ensures (Now(keycloak, redis, cache), answer) == LogoutRun(old(Now(keycloak, redis, cache)), sub, key, plan)
    ensures SameTotals(old(cache.Ledger()), cache.Ledger())
  {
    // The sign-out, by oauth2-proxy.
    if plan.endsSignOn { keycloak.signedOn := keycloak.signedOn - {sub}; }
    if plan.endsSession { redis.sessions := redis.sessions - {key}; }
    if !plan.signedOut { return Failed; }
    var deleted := redis.DropSessions({key}, plan.delete);
    if !deleted { return Failed; }
    var published := redis.PublishInvalidation(sub, plan.publish);
    cache.DropSub(sub);
    if !published { return Failed; }
    var forgotten := redis.ForgetSession(sub, key, plan.forget);
    if !forgotten { return Failed; }
    return Gone;
  }

  // --- Each effect and the answer, exactly ---

  /** Where a step stands in a kill. */
  function Rank(step: KillStep): nat {
    match step
    case KeycloakLogoutAll => 0
    case ReadSessionIndex => 1
    case DeleteSessions => 2
    case PublishInvalidation => 3
    case ForgetIndexEntry => 4
  }

  /** The step is answered, and answered well; with no session to delete there
      is nothing to ask. */
  predicate StepOk(w: World, sub: Text, plan: KillPlan, step: KillStep) {
    match step
    case KeycloakLogoutAll => plan.keycloak == LoggedOut
    case ReadSessionIndex => plan.list == Done
    case DeleteSessions => plan.delete == Done || Members(w.index, sub) == {}
    case PublishInvalidation => plan.publish == Done
    case ForgetIndexEntry => plan.forget == Done
  }

  /** Every step before this one is. */
  ghost predicate Comes(w: World, sub: Text, plan: KillPlan, step: KillStep) {
    forall e :: Rank(e) < Rank(step) ==> StepOk(w, sub, plan, e)
  }

  lemma ComesExactly(w: World, sub: Text, plan: KillPlan)
    ensures Comes(w, sub, plan, ReadSessionIndex) == plan.keycloak.LoggedOut?
    ensures Comes(w, sub, plan, DeleteSessions) == (plan.keycloak.LoggedOut? && plan.list.Done?)
    ensures Comes(w, sub, plan, PublishInvalidation) ==
      (plan.keycloak.LoggedOut? && plan.list.Done? && (Members(w.index, sub) == {} || plan.delete.Done?))
    ensures Comes(w, sub, plan, ForgetIndexEntry) ==
      (Comes(w, sub, plan, PublishInvalidation) && plan.publish.Done?)
  {
    assert Rank(KeycloakLogoutAll) == 0 && Rank(ReadSessionIndex) == 1 && Rank(DeleteSessions) == 2;
    assert Rank(PublishInvalidation) == 3;
    assert StepOk(w, sub, plan, KeycloakLogoutAll) == plan.keycloak.LoggedOut?;
    assert StepOk(w, sub, plan, ReadSessionIndex) == plan.list.Done?;
    assert StepOk(w, sub, plan, DeleteSessions) == (plan.delete.Done? || Members(w.index, sub) == {});
    assert StepOk(w, sub, plan, PublishInvalidation) == plan.publish.Done?;
  }

  /** What a kill does to the sessions, the entries, the channel and the index:
      each effect happens exactly when its step comes and is carried out,
      answered or not; the local drop happens whenever the publish comes, and
      whatever the publish answers. */
  lemma KillEffects(w: World, sub: Text, plan: KillPlan)
    ensures var w' := KillRun(w, sub, plan).0;
      && (forall u :: u in w'.signedOn <==>
            u in w.signedOn && !(u == sub && (plan.keycloak.LoggedOut? || plan.keycloak == NoAnswer(true))))
      && (forall x :: x in w'.sessions <==>
            x in w.sessions
            && !(x in Members(w.index, sub) && Comes(w, sub, plan, DeleteSessions) && plan.delete != NotDone))
      && w'.published == w.published
           + (if Comes(w, sub, plan, PublishInvalidation) && plan.publish != NotDone then [sub] else [])
      && (forall k :: k in w'.entries <==>
            k in w.entries && !(w.entries[k].sub == sub && Comes(w, sub, plan, PublishInvalidation)))
      && (forall k :: k in w'.entries ==> w'.entries[k] == w.entries[k])
      && (forall s, x :: x in Members(w'.index, s) <==>
            x in Members(w.index, s)
            && !(s == sub && Comes(w, sub, plan, ForgetIndexEntry) && plan.forget != NotDone))
  {
    ComesExactly(w, sub, plan);
    assert w.published + [] == w.published;
  }

  /** The same drop without the words: once Keycloak has logged the user out, the
      index has been read and the sessions it named are deleted, exactly the
      user's entries leave, for every publish and every forget. */
  lemma KillDropsWhateverPublishAnswers(w: World, sub: Text, plan: KillPlan)
    requires plan.keycloak.LoggedOut? && plan.list.Done?
    requires Members(w.index, sub) == {} || plan.delete.Done?
    ensures forall k :: k in KillRun(w, sub, plan).0.entries <==> k in w.entries && w.entries[k].sub != sub
  {
    KillEffects(w, sub, plan);
    ComesExactly(w, sub, plan);
  }

  /** The answer: 404 exactly for a user Keycloak does not know, otherwise the
      first step that did not go well, and a count exactly when all did. */
  lemma KillAnswers(w: World, sub: Text, plan: KillPlan)
    ensures var answer := KillRun(w, sub, plan).1;
      && (answer == NotFound <==> plan.keycloak == NoSuchUser)
      && (forall step :: answer == Stopped(step) <==>
            plan.keycloak != NoSuchUser && Comes(w, sub, plan, step) && !StepOk(w, sub, plan, step))
      && (answer.Killed? <==> forall step :: StepOk(w, sub, plan, step))
      && (answer.Killed? ==> answer.sessions == |Members(w.index, sub)|)
  {
    ComesExactly(w, sub, plan);
    forall step ensures KillRun(w, sub, plan).1 == Stopped(step) <==>
      plan.keycloak != NoSuchUser && Comes(w, sub, plan, step) && !StepOk(w, sub, plan, step)
    {
      match step
      case KeycloakLogoutAll =>
      case ReadSessionIndex =>
      case DeleteSessions =>
      case PublishInvalidation =>
      case ForgetIndexEntry =>
    }
    assert (forall step :: StepOk(w, sub, plan, step)) <==>
      Comes(w, sub, plan, ForgetIndexEntry) && StepOk(w, sub, plan, ForgetIndexEntry);
  }

  /** The same for a logout: its own session and index member go. */
  lemma LogoutEndsOwn(w: World, sub: Text, key: Text, plan: LogoutPlan)
    ensures var w' := LogoutRun(w, sub, key, plan).0;
      && (forall u :: u in w'.signedOn <==> u in w.signedOn && !(u == sub && plan.endsSignOn))
      && (forall x :: x in w'.sessions <==>
            x in w.sessions && !(x == key && (plan.endsSession || (plan.signedOut && plan.delete != NotDone))))
      && (forall s, x :: x in Members(w'.index, s) <==>
            x in Members(w.index, s)
            && !(s == sub && x == key && plan.signedOut && plan.delete.Done? && plan.publish.Done?
                 && plan.forget != NotDone))
  {}

  /** And the user's entries leave this instance once the session is deleted,
      whatever the publish answers. */
  lemma LogoutDropsWhateverPublishAnswers(w: World, sub: Text, key: Text, plan: LogoutPlan)
    ensures var w' := LogoutRun(w, sub, key, plan).0;
      && w'.published == w.published
           + (if plan.signedOut && plan.delete.Done? && plan.publish != NotDone then [sub] else [])
      && (forall k :: k in w'.entries <==>
            k in w.entries && !(w.entries[k].sub == sub && plan.signedOut && plan.delete.Done?))
      && (forall k :: k in w'.entries ==> w'.entries[k] == w.entries[k])
  {
    assert w.published + [] == w.published;
  }

  /** A logout says done only of a session that is gone: from Redis, from the
      index and from this instance, and published to the others. */
  lemma LogoutDone(w: World, sub: Text, key: Text, plan: LogoutPlan)
    ensures var (w', answer) := LogoutRun(w, sub, key, plan);
      && (answer == Gone <==> plan.signedOut && plan.delete.Done? && plan.publish.Done? && plan.forget.Done?)
      && (answer == Gone ==>
            && key !in w'.sessions && key !in Members(w'.index, sub)
            && (forall k :: k in w'.entries ==> w'.entries[k].sub != sub)
            && w'.published == w.published + [sub])
  {
    LogoutEndsOwn(w, sub, key, plan);
    LogoutDropsWhateverPublishAnswers(w, sub, key, plan);
  }

  // --- What the order is for ---

  /** Each effect of a kill comes only after the ones before it: no session is
      deleted while Keycloak would sign the user back in, no entry is dropped
      while a session that could refill it is still there, and the index entry,
      the map to all of them, goes last. */
  lemma OrderKept(w: World, sub: Text, plan: KillPlan)
    ensures var w' := KillRun(w, sub, plan).0;
      && (w'.sessions != w.sessions ==> sub !in w'.signedOn)
      && (w'.entries != w.entries ==> w'.sessions == w.sessions - Members(w.index, sub))
      && (w'.index != w.index ==>
            w'.entries == WithoutSub(w.entries, sub) && w'.published == w.published + [sub]
            && w'.sessions == w.sessions - Members(w.index, sub) && sub !in w'.signedOn)
  {
    var w' := KillRun(w, sub, plan).0;
    assert w.sessions - {} == w.sessions;
  }

  /** A kill that stops before its last step leaves the whole index as it was;
      one that answers OK has cut everything the index named. */
  lemma StoppedIsRetryable(w: World, sub: Text, plan: KillPlan)
    ensures var (w', answer) := KillRun(w, sub, plan);
      && (answer != Stopped(ForgetIndexEntry) && !answer.Killed? ==> w'.index == w.index)
      && (answer.Killed? ==>
            && w' == World(w.signedOn - {sub}, w.sessions - Members(w.index, sub), w.index - {sub},
                           w.published + [sub], WithoutSub(w.entries, sub))
            && answer.sessions == |Members(w.index, sub)|)
  {
    assert w.sessions - {} == w.sessions;
  }

  const ALL_DONE: KillPlan := KillPlan(LoggedOut, Done, Done, Done, Done)

  /** Several attempts, one after the other. */
  function Attempts(w: World, sub: Text, plans: seq<KillPlan>): World
    decreases |plans|
  {
    if plans == [] then w else Attempts(KillRun(w, sub, plans[0]).0, sub, plans[1..])
  }

  /** How far any number of attempts can have come. */
  ghost predicate Underway(w: World, sub: Text, v: World) {
    && (v.signedOn == w.signedOn || v.signedOn == w.signedOn - {sub})
    && (v.sessions == w.sessions || v.sessions == w.sessions - Members(w.index, sub))
    && (v.entries == w.entries || v.entries == WithoutSub(w.entries, sub))
    && (v.index == w.index || (v.index == w.index - {sub} && v.sessions == w.sessions - Members(w.index, sub)))
  }

  /** One attempt, part by part. */
  lemma AttemptParts(v: World, sub: Text, plan: KillPlan)
    ensures var v' := KillRun(v, sub, plan).0; var cut := v.sessions - Members(v.index, sub);
      && (v'.signedOn == v.signedOn || v'.signedOn == v.signedOn - {sub})
      && (v'.sessions == v.sessions || v'.sessions == cut)
      && (v'.entries == v.entries || v'.entries == WithoutSub(v.entries, sub))
      && (v'.index == v.index || (v'.index == v.index - {sub} && v'.sessions == cut))
  {
    assert v.sessions - {} == v.sessions;
  }

  lemma AttemptUnderway(w: World, sub: Text, v: World, plan: KillPlan)
    requires Underway(w, sub, v)
    ensures Underway(w, sub, KillRun(v, sub, plan).0)
  {
    TwiceIsOnce(w, sub);
    AttemptParts(v, sub, plan);
    if v.index != w.index { assert Members(v.index, sub) == {}; }
  }

  lemma TwiceIsOnce(w: World, sub: Text)
    ensures WithoutSub(WithoutSub(w.entries, sub), sub) == WithoutSub(w.entries, sub)
    ensures w.index - {sub} - {sub} == w.index - {sub}
    ensures w.sessions - Members(w.index, sub) - Members(w.index, sub) == w.sessions - Members(w.index, sub)
    ensures w.sessions - Members(w.index, sub) - {} == w.sessions - Members(w.index, sub)
    ensures w.signedOn - {sub} - {sub} == w.signedOn - {sub}
  {}

  lemma {:induction false} AttemptsUnderway(w: World, sub: Text, v: World, plans: seq<KillPlan>)
    requires Underway(w, sub, v)
    ensures Underway(w, sub, Attempts(v, sub, plans))
    decreases |plans|
  {
    if plans != [] {
      AttemptUnderway(w, sub, v, plans[0]);
      AttemptsUnderway(w, sub, KillRun(v, sub, plans[0]).0, plans[1..]);
    }
  }

  /** Any attempts, however they went, and then a success leave the same
      sessions, entries, index and sign-on as one success at the start. */
  lemma RetriesConverge(w: World, sub: Text, plans: seq<KillPlan>, last: KillPlan)
    requires KillRun(Attempts(w, sub, plans), sub, last).1.Killed?
    ensures KillRun(Attempts(w, sub, plans), sub, last).0.(published := [])
         == KillRun(w, sub, ALL_DONE).0.(published := [])
  {
    var v := Attempts(w, sub, plans);
    AttemptsUnderway(w, sub, w, plans);
    StoppedIsRetryable(v, sub, last);
    StoppedIsRetryable(w, sub, ALL_DONE);
    TwiceIsOnce(w, sub);
  }

  /** A logout, however it goes, touches one session only: no other session
      ends, no other leaves the index, and no other user's entry is dropped. */
  lemma LogoutIsOnlyItsOwn(w: World, sub: Text, key: Text, plan: LogoutPlan)
    ensures var w' := LogoutRun(w, sub, key, plan).0;
      && (forall x :: x != key ==> (x in w'.sessions <==> x in w.sessions))
      && (forall s, x :: s != sub || x != key ==> (x in Members(w'.index, s) <==> x in Members(w.index, s)))
      && (forall k :: k in w.entries && w.entries[k].sub != sub ==> k in w'.entries && w'.entries[k] == w.entries[k])
  {}

  /** A logout hides nothing from a later kill: whatever the index named before
      it is ended after both. */
  lemma LogoutThenKill(w: World, sub: Text, key: Text, plan: LogoutPlan, last: KillPlan)
    requires KillRun(LogoutRun(w, sub, key, plan).0, sub, last).1.Killed?
    ensures KillRun(LogoutRun(w, sub, key, plan).0, sub, last).0.sessions !! Members(w.index, sub)
    ensures LogoutRun(w, sub, key, plan).1 == Gone ==> key !in LogoutRun(w, sub, key, plan).0.sessions
  {
    var v := LogoutRun(w, sub, key, plan).0;
    LogoutIsOnlyItsOwn(w, sub, key, plan);
    StoppedIsRetryable(v, sub, last);
    forall x | x in Members(w.index, sub) ensures x !in v.sessions - Members(v.index, sub) {
      if x == key && x !in Members(v.index, sub) {
        assert v.sessions == w.sessions - {key} || v.index == w.index || plan.delete.Done?;
      }
    }
  }
}
