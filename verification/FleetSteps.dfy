/** What the fleet can do from any state. The safety results speak of every run;
    these say which runs there are: no thread waits for another, and what a kill
    does at one instance with nothing in between is one of the runs. */
module FleetSteps {
  import opened Prelude
  import opened Policy
  import opened Store
  import opened SessionCookie
  import opened Fleet
  import CacheState
  import Ticket

  ghost predicate Can(s: State, step: Step) { exists t :: Next(s, step, t) }

  lemma CanStore(s: State, step: Step, t: State)
    requires t.clock == s.clock + 1 && StoreNext(s, step, t)
    ensures Can(s, step)
  {
    assert Next(s, step, t);
  }

  lemma CanFill(s: State, step: Step, t: State)
    requires t.clock == s.clock + 1 && (RecordNext(s, step, t) || FillNext(s, step, t))
    ensures Can(s, step)
  {
    assert Next(s, step, t);
  }

  lemma CanListen(s: State, step: Step, t: State)
    requires t.clock == s.clock + 1 && (SubscriptionNext(s, step, t) || MessageNext(s, step, t))
    ensures Can(s, step)
  {
    assert Next(s, step, t);
  }

  lemma CanRevoke(s: State, step: Step, t: State)
    requires t.clock == s.clock + 1
    requires BeginNext(s, step, t) || CutNext(s, step, t) || FinishNext(s, step, t)
    ensures Can(s, step)
  {
    assert Next(s, step, t);
  }

  // --- Everything else goes on ---

  /** Time passes and sessions begin and end at any moment. */
  lemma SessionsMove(s: State, now: nat, session: Text, sub: Text)
    requires now >= s.now
    ensures Can(s, Tick(now)) && Can(s, EndSession(session))
    ensures session !in s.owner ==> Can(s, Login(session, sub))
  {
    CanStore(s, Tick(now), Ticked(s, now));
    CanStore(s, EndSession(session), Later(s).(ended := Ending(s, {session})));
    if session !in s.owner { CanStore(s, Login(session, sub), Later(s).(owner := s.owner[session := sub])); }
  }

  /** So do the tables, and entries leave by the sweep or the bound. */
  lemma TablesMove(s: State, tables: Tables, n: nat, key: Key)
    ensures Can(s, ChangeTables(tables))
    ensures n in s.nodes ==> Can(s, Evict(n, key))
  {
    CanStore(s, ChangeTables(tables), Later(s).(tables := tables));
    if n in s.nodes { CanListen(s, Evict(n, key), WithNode(s, n, Evicted(s.nodes[n], key))); }
  }

  /** Any session oauth2-proxy holds authenticates anywhere, for its owner, under
      any cookie that names it, whatever kills are under way; no other does. */
  lemma LiveAuthenticates(s: State, m: nat, n: nat, key: Key, session: Text, identity: Identity)
    requires m !in s.misses
    ensures Can(s, Authenticate(m, n, key, session, identity)) <==>
      && n in s.nodes && session in s.owner && session !in s.ended
      && Ticket.SessionKey(key.cookie, COOKIE_NAME) == Some(session) && identity.sub == s.owner[session]
  {
    if CanAuthenticate(s, m, n, key, session, identity) {
      CanFill(s, Authenticate(m, n, key, session, identity), WithMiss(s, m, NewFill(s, n, key, session, identity)));
    }
  }

  /** An entry younger than TTL answers every URI with the engine's decision of
      that moment, as long as the flag is up. */
  lemma EntryServes(s: State, n: nat, key: Key, uri: Text, decision: Decision)
    requires n in s.nodes && key in s.nodes[n].entries
    ensures var e := s.nodes[n].entries[key];
      Can(s, Serve(n, key, uri, decision)) <==>
        && s.nodes[n].subscribed && s.now < e.insertedWall + CacheState.TTL
        && decision == Decide(e.fill.loaded.enabled, e.fill.loaded.rules, uri, s.now)
  {
    if Serves(s.nodes[n], key, s.now) {
      var loaded := s.nodes[n].entries[key].fill.loaded;
      CanStore(s, Serve(n, key, uri, Decide(loaded.enabled, loaded.rules, uri, s.now)), Later(s));
    }
  }

  lemma AddingGoesOn(s: State, m: nat)
    requires At(s, m, Verified)
    ensures Can(s, AddToIndex(m))
  {
    CanFill(s, AddToIndex(m), Adding(s, m));
  }

  lemma DeadlineGoesOn(s: State, m: nat)
    requires At(s, m, Added)
    ensures Can(s, SetDeadline(m))
  {
    CanFill(s, SetDeadline(m), SettingDeadline(s, m));
  }

  lemma FillingGoesOn(s: State, m: nat)
    requires m in s.misses && s.misses[m].node in s.nodes
    ensures s.misses[m].stage == Recorded ==> Can(s, LoadRules(m))
    ensures s.misses[m].stage == Filled ==> Can(s, Insert(m))
  {
    if s.misses[m].stage == Recorded {
      CanFill(s, LoadRules(m), Loading(s, m));
    } else if s.misses[m].stage == Filled {
      CanFill(s, Insert(m), Inserting(s, m));
    }
  }

  /** A miss in flight can always go on, and always stop. */
  lemma MissNeverWaits(s: State, m: nat)
    requires m in s.misses && s.misses[m].node in s.nodes
    ensures Can(s, Abandon(m))
    ensures match s.misses[m].stage
      case Verified => Can(s, AddToIndex(m))
      case Added => Can(s, SetDeadline(m))
      case Recorded => Can(s, LoadRules(m))
      case Filled => Can(s, Insert(m))
  {
    CanFill(s, Abandon(m), Later(s).(misses := s.misses - {m}));
    if At(s, m, Verified) { AddingGoesOn(s, m); }
    if At(s, m, Added) { DeadlineGoesOn(s, m); }
    FillingGoesOn(s, m);
  }

  /** A connection comes at any moment. */
  lemma ConnectionComes(s: State, n: nat)
    requires n in s.nodes && s.nodes[n].connection == Down
    ensures Can(s, Connect(n))
  {
    CanListen(s, Connect(n), WithNode(s, n, s.nodes[n].(connection := Up, upSince := s.clock, queue := [])));
  }

  /** It breaks at any moment, and the flag comes down between two messages. */
  lemma ConnectionGoes(s: State, n: nat)
    requires n in s.nodes && s.nodes[n].connection != Down
    ensures Can(s, Break(n))
    ensures s.nodes[n].listener == Idle ==> Can(s, ClearFlag(n))
  {
    var node := s.nodes[n];
    CanListen(s, Break(n), WithNode(s, n, node.(connection := Broken)));
    if node.listener == Idle {
      CanListen(s, ClearFlag(n), WithNode(s, n, node.(connection := Down, subscribed := false, queue := [])));
    }
  }

  /** The subscriber of a connection that is there can always go on: to the flush
      before the flag, to the next message, to the next eviction, or to the end of
      either. */
  lemma ListenerNeverWaits(s: State, n: nat)
    requires n in s.nodes && s.nodes[n].connection != Down
    ensures var node := s.nodes[n];
      match node.listener
      case Idle =>
        && (!node.subscribed ==> Can(s, StartFlush(n)))
        && (node.subscribed && node.queue != [] ==> Can(s, Receive(n)))
      case Flushing(drop) =>
        && (forall key :: key in drop.todo ==> Can(s, ListenerEvict(n, key)))
        && (drop.todo == {} ==> Can(s, RaiseFlag(n)))
      case Dropping(drop) =>
        && (forall key :: key in drop.todo ==> Can(s, ListenerEvict(n, key)))
        && (drop.todo == {} && drop.sub.Some? ==> Can(s, EndReceive(n)))
  {
    var node := s.nodes[n];
    if node.listener.Idle? {
      if !node.subscribed { FlushStarts(s, n); }
      if node.subscribed && node.queue != [] { DropStarts(s, n); }
    } else {
      forall key | key in node.listener.drop.todo ensures Can(s, ListenerEvict(n, key)) {
        CanListen(s, ListenerEvict(n, key), WithNode(s, n, ListenerEvicted(node, key)));
      }
      if node.listener.drop.todo == {} { FlushEnds(s, n); DropEnds(s, n); }
    }
  }

  lemma FlushStarts(s: State, n: nat)
    requires Waits(s, n) && !s.nodes[n].subscribed
    ensures Can(s, StartFlush(n))
  {
    var node := s.nodes[n];
    CanListen(s, StartFlush(n), WithNode(s, n, node.(listener := Flushing(Drop(None, s.clock, node.entries.Keys)))));
  }

  lemma DropStarts(s: State, n: nat)
    requires Waits(s, n) && s.nodes[n].subscribed && s.nodes[n].queue != []
    ensures Can(s, Receive(n))
  {
    CanListen(s, Receive(n), WithNode(s, n, Received(s, n)));
  }

  lemma FlushEnds(s: State, n: nat)
    requires Busy(s, n) && s.nodes[n].listener.drop.todo == {}
    ensures s.nodes[n].listener.Flushing? ==> Can(s, RaiseFlag(n))
  {
    var node, drop := s.nodes[n], s.nodes[n].listener.drop;
    if node.listener.Flushing? {
      CanListen(s, RaiseFlag(n),
        WithNode(s, n, node.(subscribed := true, flushedAt := drop.since, listener := Idle)));
    }
  }

  lemma DropEnds(s: State, n: nat)
    requires Busy(s, n) && s.nodes[n].listener.drop.todo == {}
    ensures s.nodes[n].listener.Dropping? && s.nodes[n].listener.drop.sub.Some? ==> Can(s, EndReceive(n))
  {
    var node, drop := s.nodes[n], s.nodes[n].listener.drop;
    if node.listener.Dropping? && drop.sub.Some? {
      CanListen(s, EndReceive(n),
        WithNode(s, n, node.(listener := Idle, cleared := Stamped(node.cleared, drop.sub.value, drop.since))));
    }
  }

  /** Kills and logouts begin at any moment, any number at once. */
  lemma RevokersBegin(s: State, r: nat, n: nat, sub: Text, session: Text)
    requires r !in s.revokers && n in s.nodes
    ensures Can(s, BeginKill(r, n, sub))
    ensures session in s.owner ==> Can(s, BeginLogout(r, n, session))
  {
    CanRevoke(s, BeginKill(r, n, sub),
      WithRevoker(s, r, Revoker(n, sub, Kill, Begun, {}, 0, 0, 0, false, NO_DROP)));
    if session in s.owner {
      CanRevoke(s, BeginLogout(r, n, session),
        WithRevoker(s, r, Revoker(n, s.owner[session], Logout, Listed, {session}, s.clock, 0, 0, false, NO_DROP)));
    }
  }

  lemma ListingGoesOn(s: State, r: nat)
    requires In(s, r, Begun)
    ensures Can(s, ListSessions(r))
  {
    var rv := s.revokers[r];
    CanRevoke(s, ListSessions(r),
      WithRevoker(s, r, rv.(phase := Listed, sessions := Indexed(s.index, rv.sub), listedAt := s.clock)));
  }

  lemma DeletingGoesOn(s: State, r: nat)
    requires In(s, r, Listed)
    ensures Can(s, DeleteSessions(r))
  {
    var rv := s.revokers[r];
    CanRevoke(s, DeleteSessions(r),
      WithRevoker(s, r, rv.(phase := Deleted, deletedAt := s.clock)).(ended := Ending(s, rv.sessions)));
  }

  lemma PublishingGoesOn(s: State, r: nat, delivered: bool, answered: bool)
    requires In(s, r, Deleted) && (answered ==> delivered)
    ensures Can(s, Publish(r, delivered, answered))
  {
    CanRevoke(s, Publish(r, delivered, answered), Publishing(s, r, delivered, answered));
  }

  lemma ClearingGoesOn(s: State, r: nat)
    requires In(s, r, Published)
    ensures Can(s, StartDrop(r))
  {
    CanRevoke(s, StartDrop(r), StartingDrop(s, r));
  }

  lemma DroppingGoesOn(s: State, r: nat)
    requires In(s, r, Clearing)
    ensures forall key :: key in s.revokers[r].drop.todo ==> Can(s, DropOne(r, key))
    ensures s.revokers[r].drop.todo == {} ==> Can(s, EndDrop(r))
  {
    forall key | key in s.revokers[r].drop.todo ensures Can(s, DropOne(r, key)) {
      CanRevoke(s, DropOne(r, key), DroppingOne(s, r, key));
    }
    if s.revokers[r].drop.todo == {} { CanRevoke(s, EndDrop(r), EndingDrop(s, r)); }
  }

  lemma EndingGoesOn(s: State, r: nat, answered: bool)
    requires r in s.revokers && s.revokers[r].node in s.nodes
    ensures s.revokers[r].phase == Cleared && s.revokers[r].announced ==> Can(s, Forget(r, answered))
    ensures s.revokers[r].phase != Done ==> Can(s, Fail(r))
  {
    if s.revokers[r].phase == Cleared && s.revokers[r].announced {
      CanRevoke(s, Forget(r, answered), Forgetting(s, r, answered));
    }
    if s.revokers[r].phase != Done { CanRevoke(s, Fail(r), Later(s).(revokers := s.revokers - {r})); }
  }

  /** And each can always go on, and always stop; only a publish that was not
      answered keeps one from its last step. */
  lemma RevokerNeverWaits(s: State, r: nat, answered: bool, delivered: bool)
    requires r in s.revokers && s.revokers[r].node in s.nodes && (answered ==> delivered)
    ensures s.revokers[r].phase != Done ==> Can(s, Fail(r))
    ensures var rv := s.revokers[r];
      match rv.phase
      case Begun => Can(s, ListSessions(r))
      case Listed => Can(s, DeleteSessions(r))
      case Deleted => Can(s, Publish(r, delivered, answered))
      case Published => Can(s, StartDrop(r))
      case Clearing =>
        && (forall key :: key in rv.drop.todo ==> Can(s, DropOne(r, key)))
        && (rv.drop.todo == {} ==> Can(s, EndDrop(r)))
      case Cleared => rv.announced ==> Can(s, Forget(r, answered))
      case Done => true
  {
    if In(s, r, Begun) { ListingGoesOn(s, r); }
    if In(s, r, Listed) { DeletingGoesOn(s, r); }
    if In(s, r, Deleted) { PublishingGoesOn(s, r, delivered, answered); }
    if In(s, r, Published) { ClearingGoesOn(s, r); }
    if In(s, r, Clearing) { DroppingGoesOn(s, r); }
    EndingGoesOn(s, r, answered);
  }
}
