/** The whole deployment as a transition system: oauth2-proxy's sessions and the
    session index in Redis, the tables, and any number of instances, each with
    its cache, its subscription, its misses in flight and its kills and logouts
    under way. Every Redis command and every cache lock region is one step, and
    steps of different threads interleave freely. The `...At` stamps are the
    number of the step that did it: they are the model's memory, the program
    keeps only the wall-clock ones. */
module Fleet {
  import opened Prelude
  import opened Policy
  import opened Store
  import opened SessionCookie
  import CacheState
  import Ticket

  type Identity = CacheState.Identity

  /** Eight days, in milliseconds. */
  const INDEX_TTL: nat := 8 * 24 * 60 * 60 * 1000

  // --- What there is ---

  /** How far a miss has come: authenticated, indexed in two Redis commands,
      the rules read. */
  datatype Stage = Verified | Added | Recorded | Filled

  datatype Fill = Fill(
    node: nat, key: Key, identity: Identity, session: Text, stage: Stage, loaded: Loaded,
    verifiedAt: nat, addedAt: nat, recordedAt: nat, recordedWall: nat, loadedAt: nat)
  {
    predicate HasAdded() { !stage.Verified? }
    predicate HasRecorded() { stage.Recorded? || stage.Filled? }
    function Sub(): Text { identity.sub }
    function Who(): Caller { Caller(identity.sub, identity.groups) }
  }

  /** A cache entry is what its fill left behind. */
  datatype Entry = Entry(fill: Fill, insertedAt: nat, insertedWall: nat)

  /** Keys read under the lock, and those still to evict. No sub is all of them. */
  datatype Drop = Drop(sub: Option<Text>, since: nat, todo: set<Key>)

  /** A broken connection delivers nothing and does not know it yet. */
  datatype Connection = Down | Up | Broken

  datatype Listener = Idle | Flushing(drop: Drop) | Dropping(drop: Drop)

  /** `cleared` and `flushedAt` remember when the last completed drop of a sub,
      and the last completed flush, read their keys. */
  datatype Node = Node(
    entries: map<Key, Entry>, subscribed: bool,
    connection: Connection, upSince: nat, queue: seq<Text>, listener: Listener,
    cleared: map<Text, nat>, flushedAt: nat)

  const NEW_NODE: Node := Node(map[], false, Down, 0, [], Idle, map[], 0)

  datatype Kind = Kill | Logout

  /** How far a kill or a logout has come. */
  datatype Phase = Begun | Listed | Deleted | Published | Clearing | Cleared | Done

  datatype Revoker = Revoker(
    node: nat, sub: Text, kind: Kind, phase: Phase, sessions: set<Text>,
    listedAt: nat, deletedAt: nat, publishedAt: nat, announced: bool, drop: Drop)
  {
    predicate HasListed() { !phase.Begun? }
    predicate HasDeleted() { HasListed() && !phase.Listed? }
    predicate HasPublished() { HasDeleted() && !phase.Deleted? }
    predicate HasRead() { phase.Clearing? || HasCleared() }
    predicate HasCleared() { phase.Cleared? || phase.Done? }
  }

  datatype Members = Members(keys: set<Text>, deadline: Option<nat>)

  /** Why a session last left the index. */
  datatype Cause = ByKill | ByLogout | ByLapse

  datatype Removal = Removal(at: nat, cause: Cause)

  datatype State = State(
    clock: nat,
    now: nat,
    owner: map<Text, Text>,
    ended: map<Text, nat>,
    index: map<Text, Members>,
    removed: map<Text, Removal>,
    published: map<Text, nat>,
    tables: Tables,
    nodes: map<nat, Node>,
    misses: map<nat, Fill>,
    revokers: map<nat, Revoker>)

  /** A session key oauth2-proxy still holds. */
  predicate Live(s: State, session: Text) { session in s.owner && session !in s.ended }

  function Indexed(index: map<Text, Members>, sub: Text): set<Text> {
    if sub in index then index[sub].keys else {}
  }

  function KeysOf(entries: map<Key, Entry>, sub: Text): set<Key> {
    set k | k in entries && entries[k].fill.Sub() == sub
  }

  /** `get`. */
  predicate Serves(node: Node, key: Key, now: nat) {
    node.subscribed && key in node.entries && now - node.entries[key].insertedWall < CacheState.TTL
  }

  ghost predicate Init(s: State) {
    && s.clock == 1
    && s.owner == map[] && s.ended == map[] && s.index == map[] && s.removed == map[] && s.published == map[]
    && s.misses == map[] && s.revokers == map[]
    && forall n :: n in s.nodes ==> s.nodes[n] == NEW_NODE
  }

  // --- What can happen ---

  datatype Step =
    | Tick(now: nat)
    | Login(session: Text, sub: Text)
    | EndSession(session: Text)
    | ChangeTables(tables: Tables)
    // A request, hit or miss.
    | Serve(node: nat, key: Key, uri: Text, decision: Decision)
    | Authenticate(thread: nat, node: nat, key: Key, session: Text, identity: Identity)
    | AddToIndex(thread: nat)
    | SetDeadline(thread: nat)
    | LoadRules(thread: nat)
    | Insert(thread: nat)
    | Abandon(thread: nat)
    // The sweep and the capacity bound.
    | Evict(node: nat, key: Key)
    // The subscription.
    | Connect(node: nat)
    | StartFlush(node: nat)
    | RaiseFlag(node: nat)
    | Receive(node: nat)
    | ListenerEvict(node: nat, key: Key)
    | EndReceive(node: nat)
    | Break(node: nat)
    | ClearFlag(node: nat)
    // Kill and logout.
    | BeginKill(thread: nat, node: nat, sub: Text)
    | BeginLogout(thread: nat, node: nat, session: Text)
    | ListSessions(thread: nat)
    | DeleteSessions(thread: nat)
    | Publish(thread: nat, delivered: bool, answered: bool)
    | StartDrop(thread: nat)
    | DropOne(thread: nat, key: Key)
    | EndDrop(thread: nat)
    | Forget(thread: nat, answered: bool)
    | Fail(thread: nat)

  /** `t` is `s` one step later, but for what the step itself changes. */
  function Later(s: State): State { s.(clock := s.clock + 1) }

  function WithNode(s: State, n: nat, node: Node): State { Later(s).(nodes := s.nodes[n := node]) }

  function WithMiss(s: State, m: nat, fill: Fill): State { Later(s).(misses := s.misses[m := fill]) }

  function WithRevoker(s: State, r: nat, revoker: Revoker): State {
    Later(s).(revokers := s.revokers[r := revoker])
  }

  // Time, sessions, tables.

  /** The index sets whose deadline passes: Redis removes them by itself. */
  predicate Lapses(s: State, sub: Text, now: nat) {
    sub in s.index && s.index[sub].deadline.Some? && s.index[sub].deadline.value <= now
  }

  function Ticked(s: State, now: nat): State {
    Later(s).(
      now := now,
      index := map sub | sub in s.index && !Lapses(s, sub, now) :: s.index[sub],
      removed := s.removed
        + map x | x in s.owner && Lapses(s, s.owner[x], now) && x in s.index[s.owner[x]].keys
            :: Removal(s.clock, ByLapse))
  }

  /** Sessions end now, those that had not ended before. */
  function Ending(s: State, sessions: set<Text>): map<Text, nat> {
    s.ended + map x | x in sessions && Live(s, x) :: s.clock
  }

  // A miss: authenticate, record (SADD, then EXPIRE), load, insert.

  /** oauth2-proxy answers 200 only for a session it holds, and the identity it
      reports is its owner's. The session is the one the cookie names. */
  predicate CanAuthenticate(s: State, m: nat, n: nat, key: Key, session: Text, identity: Identity) {
    && m !in s.misses && n in s.nodes && Live(s, session)
    && Ticket.SessionKey(key.cookie, COOKIE_NAME) == Some(session)
    && identity.sub == s.owner[session]
  }

  function NewFill(s: State, n: nat, key: Key, session: Text, identity: Identity): Fill {
    Fill(n, key, identity, session, Verified, Loaded(None, false, []), s.clock, 0, 0, 0, 0)
  }

  predicate At(s: State, m: nat, stage: Stage) { m in s.misses && s.misses[m].stage == stage }

  function Adding(s: State, m: nat): State
    requires At(s, m, Verified)
  {
    var fill := s.misses[m];
    var sub := fill.Sub();
    var deadline := if sub in s.index then s.index[sub].deadline else None;
    WithMiss(s, m, fill.(stage := Added, addedAt := s.clock))
      .(index := s.index[sub := Members(Indexed(s.index, sub) + {fill.session}, deadline)])
  }

  /** EXPIRE does nothing for a set that is not there. */
  function SettingDeadline(s: State, m: nat): State
    requires At(s, m, Added)
  {
    var fill := s.misses[m];
    var sub := fill.Sub();
    WithMiss(s, m, fill.(stage := Recorded, recordedAt := s.clock, recordedWall := s.now))
      .(index := if sub in s.index
        then s.index[sub := s.index[sub].(deadline := Some(s.now + INDEX_TTL))]
        else s.index)
  }

  function Loading(s: State, m: nat): State
    requires At(s, m, Recorded)
  {
    var fill := s.misses[m];
    WithMiss(s, m, fill.(stage := Filled, loadedAt := s.clock, loaded := Load(s.tables, fill.key.slug, fill.Who())))
  }

  function Inserting(s: State, m: nat): State
    requires At(s, m, Filled) && s.misses[m].node in s.nodes
  {
    var fill := s.misses[m];
    var node := s.nodes[fill.node];
    WithNode(s, fill.node, node.(entries := node.entries[fill.key := Entry(fill, s.clock, s.now)]))
      .(misses := s.misses - {m})
  }

  function Evicted(node: Node, key: Key): Node { node.(entries := node.entries - {key}) }

  // The subscription.

  function Stamped(cleared: map<Text, nat>, sub: Text, since: nat): map<Text, nat> {
    cleared[sub := if sub in cleared && cleared[sub] > since then cleared[sub] else since]
  }

  predicate Listens(s: State, n: nat) { n in s.nodes && s.nodes[n].connection != Down }

  predicate Waits(s: State, n: nat) { Listens(s, n) && s.nodes[n].listener.Idle? }

  predicate Busy(s: State, n: nat) { Listens(s, n) && !s.nodes[n].listener.Idle? }

  function Received(s: State, n: nat): Node
    requires n in s.nodes && s.nodes[n].queue != []
  {
    var node := s.nodes[n];
    var sub := node.queue[0];
    node.(queue := node.queue[1..], listener := Dropping(Drop(Some(sub), s.clock, KeysOf(node.entries, sub))))
  }

  function ListenerEvicted(node: Node, key: Key): Node
    requires !node.listener.Idle?
  {
    var drop := node.listener.drop.(todo := node.listener.drop.todo - {key});
    Evicted(node, key).(listener := if node.listener.Flushing? then Flushing(drop) else Dropping(drop))
  }

  // Kill and logout.

  predicate In(s: State, r: nat, phase: Phase) {
    r in s.revokers && s.revokers[r].phase == phase && s.revokers[r].node in s.nodes
  }

  const NO_DROP: Drop := Drop(None, 0, {})

  /** A published sub reaches every connection that is up. */
  function Delivered(nodes: map<nat, Node>, sub: Text): map<nat, Node> {
    map n | n in nodes :: if nodes[n].connection.Up? then nodes[n].(queue := nodes[n].queue + [sub]) else nodes[n]
  }

  function Publishing(s: State, r: nat, delivered: bool, answered: bool): State
    requires In(s, r, Deleted)
  {
    var rv := s.revokers[r];
    WithRevoker(s, r, rv.(phase := Published, publishedAt := s.clock, announced := answered)).(
      published := if delivered then s.published[rv.sub := s.clock] else s.published,
      nodes := if delivered then Delivered(s.nodes, rv.sub) else s.nodes)
  }

  function StartingDrop(s: State, r: nat): State
    requires In(s, r, Published)
  {
    var rv := s.revokers[r];
    WithRevoker(s, r, rv.(phase := Clearing,
      drop := Drop(Some(rv.sub), s.clock, KeysOf(s.nodes[rv.node].entries, rv.sub))))
  }

  function DroppingOne(s: State, r: nat, key: Key): State
    requires In(s, r, Clearing)
  {
    var rv := s.revokers[r];
    WithRevoker(s, r, rv.(drop := rv.drop.(todo := rv.drop.todo - {key})))
      .(nodes := s.nodes[rv.node := Evicted(s.nodes[rv.node], key)])
  }

  function EndingDrop(s: State, r: nat): State
    requires In(s, r, Clearing)
  {
    var rv := s.revokers[r];
    var node := s.nodes[rv.node];
    WithRevoker(s, r, rv.(phase := Cleared))
      .(nodes := s.nodes[rv.node := node.(cleared := Stamped(node.cleared, rv.sub, rv.drop.since))])
  }

  /** SREM of one key: Redis removes a set that becomes empty. */
  function Without(index: map<Text, Members>, sub: Text, keys: set<Text>): map<Text, Members> {
    if sub !in index then index
    else if index[sub].keys - keys == {} then index - {sub}
    else index[sub := index[sub].(keys := index[sub].keys - keys)]
  }

  /** A kill deletes the index entry of the sub, a logout removes its own key. */
  function Forgetting(s: State, r: nat, answered: bool): State
    requires In(s, r, Cleared)
  {
    var rv := s.revokers[r];
    var gone := if rv.kind.Kill? then Indexed(s.index, rv.sub) else Indexed(s.index, rv.sub) * rv.sessions;
    var cause := if rv.kind.Kill? then ByKill else ByLogout;
    Later(s).(
      index := if rv.kind.Kill? then s.index - {rv.sub} else Without(s.index, rv.sub, rv.sessions),
      removed := s.removed + map x | x in gone :: Removal(s.clock, cause),
      revokers := if answered then s.revokers[r := rv.(phase := Done)] else s.revokers - {r})
  }

  /** Time, sessions and tables, and a request that is a hit. */
  ghost predicate StoreNext(s: State, step: Step, t: State) {
    match step
    case Tick(now) => s.now <= now && t == Ticked(s, now)
    case Login(session, sub) => session !in s.owner && t == Later(s).(owner := s.owner[session := sub])
    case EndSession(session) => t == Later(s).(ended := Ending(s, {session}))
    case ChangeTables(tables) => t == Later(s).(tables := tables)
    case Serve(n, key, uri, decision) =>
      && n in s.nodes && Serves(s.nodes[n], key, s.now)
      && var loaded := s.nodes[n].entries[key].fill.loaded;
         decision == Decide(loaded.enabled, loaded.rules, uri, s.now) && t == Later(s)
    case _ => false
  }

  /** A miss up to the index: authenticate, then SADD, then EXPIRE. */
  ghost predicate RecordNext(s: State, step: Step, t: State) {
    match step
    case Authenticate(m, n, key, session, identity) =>
      CanAuthenticate(s, m, n, key, session, identity) && t == WithMiss(s, m, NewFill(s, n, key, session, identity))
    case AddToIndex(m) => At(s, m, Verified) && t == Adding(s, m)
    case SetDeadline(m) => At(s, m, Added) && t == SettingDeadline(s, m)
    case _ => false
  }

  /** The rest of a miss: load the rules, insert. It may stop at any point. */
  ghost predicate FillNext(s: State, step: Step, t: State) {
    match step
    case LoadRules(m) => At(s, m, Recorded) && t == Loading(s, m)
    case Insert(m) => At(s, m, Filled) && s.misses[m].node in s.nodes && t == Inserting(s, m)
    case Abandon(m) => t == Later(s).(misses := s.misses - {m})
    case _ => false
  }

  /** The subscription, its flag, and the flush before the flag goes up. */
  ghost predicate SubscriptionNext(s: State, step: Step, t: State) {
    match step
    case Connect(n) =>
      && n in s.nodes && s.nodes[n].connection == Down
      && t == WithNode(s, n, s.nodes[n].(connection := Up, upSince := s.clock, queue := []))
    case StartFlush(n) =>
      && Waits(s, n) && !s.nodes[n].subscribed
      && t == WithNode(s, n, s.nodes[n].(listener := Flushing(Drop(None, s.clock, s.nodes[n].entries.Keys))))
    case RaiseFlag(n) =>
      && Busy(s, n) && s.nodes[n].listener.Flushing? && s.nodes[n].listener.drop.todo == {}
      && t == WithNode(s, n,
           s.nodes[n].(subscribed := true, flushedAt := s.nodes[n].listener.drop.since, listener := Idle))
    case Break(n) => Listens(s, n) && t == WithNode(s, n, s.nodes[n].(connection := Broken))
    case ClearFlag(n) =>
      Waits(s, n) && t == WithNode(s, n, s.nodes[n].(connection := Down, subscribed := false, queue := []))
    case _ => false
  }

  /** A message received, and evictions one key at a time. */
  ghost predicate MessageNext(s: State, step: Step, t: State) {
    match step
    case Evict(n, key) => n in s.nodes && t == WithNode(s, n, Evicted(s.nodes[n], key))
    case Receive(n) =>
      Waits(s, n) && s.nodes[n].subscribed && s.nodes[n].queue != [] && t == WithNode(s, n, Received(s, n))
    case ListenerEvict(n, key) =>
      && Busy(s, n) && key in s.nodes[n].listener.drop.todo
      && t == WithNode(s, n, ListenerEvicted(s.nodes[n], key))
    case EndReceive(n) =>
      && Busy(s, n) && s.nodes[n].listener.Dropping? && s.nodes[n].listener.drop.todo == {}
      && s.nodes[n].listener.drop.sub.Some?
      && var drop := s.nodes[n].listener.drop;
         t == WithNode(s, n,
           s.nodes[n].(listener := Idle, cleared := Stamped(s.nodes[n].cleared, drop.sub.value, drop.since)))
    case _ => false
  }

  /** A kill or logout begins, and may stop at any point. */
  ghost predicate BeginNext(s: State, step: Step, t: State) {
    match step
    case BeginKill(r, n, sub) =>
      && r !in s.revokers && n in s.nodes
      && t == WithRevoker(s, r, Revoker(n, sub, Kill, Begun, {}, 0, 0, 0, false, NO_DROP))
    case BeginLogout(r, n, session) =>
      && r !in s.revokers && n in s.nodes && session in s.owner
      && t == WithRevoker(s, r, Revoker(n, s.owner[session], Logout, Listed, {session}, s.clock, 0, 0, false, NO_DROP))
    case ListSessions(r) =>
      && In(s, r, Begun)
      && t == WithRevoker(s, r,
           s.revokers[r].(phase := Listed, sessions := Indexed(s.index, s.revokers[r].sub), listedAt := s.clock))
    case Fail(r) => r in s.revokers && !s.revokers[r].phase.Done? && t == Later(s).(revokers := s.revokers - {r})
    case _ => false
  }

  /** It ends the sessions and tells the fleet. */
  ghost predicate CutNext(s: State, step: Step, t: State) {
    match step
    case DeleteSessions(r) =>
      && In(s, r, Listed)
      && t == WithRevoker(s, r, s.revokers[r].(phase := Deleted, deletedAt := s.clock))
                .(ended := Ending(s, s.revokers[r].sessions))
    case Publish(r, delivered, answered) =>
      In(s, r, Deleted) && (answered ==> delivered) && t == Publishing(s, r, delivered, answered)
    case StartDrop(r) => In(s, r, Published) && t == StartingDrop(s, r)
    case _ => false
  }

  /** It drops its own instance's entries, and forgets the index entry last. */
  ghost predicate FinishNext(s: State, step: Step, t: State) {
    match step
    case DropOne(r, key) => In(s, r, Clearing) && key in s.revokers[r].drop.todo && t == DroppingOne(s, r, key)
    case EndDrop(r) => In(s, r, Clearing) && s.revokers[r].drop.todo == {} && t == EndingDrop(s, r)
    case Forget(r, answered) =>
      In(s, r, Cleared) && s.revokers[r].announced && t == Forgetting(s, r, answered)
    case _ => false
  }

  /** Any one step; each takes the next number. */
  ghost predicate Next(s: State, step: Step, t: State) {
    && t.clock == s.clock + 1
    && (|| StoreNext(s, step, t)
        || RecordNext(s, step, t)
        || FillNext(s, step, t)
        || SubscriptionNext(s, step, t)
        || MessageNext(s, step, t)
        || BeginNext(s, step, t)
        || CutNext(s, step, t)
        || FinishNext(s, step, t))
  }
}
