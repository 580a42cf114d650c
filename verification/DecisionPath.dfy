/** `/decide` from headers to answer, hit or miss, with its effects in order. */
module DecisionPath {
  import opened Prelude
  import opened TextOps
  import opened Policy
  import opened Store
  import opened SessionCookie
  import opened CacheState
  import opened DecisionCache
  import opened AuditRows
  import opened Services
  import PolicyLaws
  import Ticket
  import Utf8

  const COMMA: byte := 0x2C

  const AUDIT_PATH_LIMIT: nat := 512

  /** The headers the shared nginx include writes, those that read as text. */
  datatype Request = Request(
    slug: Option<Text>, uri: Option<Text>, verb: Option<Text>, realIp: Option<Text>, requestId: Option<Text>,
    cookie: Option<Text>)

  /** What oauth2-proxy answers. */
  datatype Reply = NoReply | Replied(status: nat, user: Option<Text>, username: Text, email: Text, groups: Text)

  datatype Authentication = Verified(identity: Identity) | Anonymous | Unavailable

  /** A decision with the identity it was made for, a refusal before any
      decision, or the 401 that nginx turns into a login. */
  datatype Response = Answered(decision: Decision, identity: Identity) | Refused(reason: Reason) | Unauthenticated

  function NonEmpty(parts: seq<Text>): seq<Text> {
    if parts == [] then [] else (if parts[0] != [] then [parts[0]] else []) + NonEmpty(parts[1..])
  }

  /** An answer without a sub is an outage, not an unnamed user. */
  function Authenticate(reply: Reply): Authentication {
    match reply
    case NoReply => Unavailable
    case Replied(status, user, username, email, groups) =>
      if status == 401 then Anonymous
      else if !(200 <= status < 300) then Unavailable
      else if user.None? || user.value == [] then Unavailable
      else Verified(Identity(user.value, username, email, NonEmpty(Split(groups, COMMA))))
  }

  function AuditPath(uri: Text): Text {
    var path := Before(uri, QUESTION);
    if |path| > AUDIT_PATH_LIMIT then path[..AUDIT_PATH_LIMIT] else path
  }

  /** No query string, no more than the limit, and nothing less than both allow. */
  lemma AuditPathExactly(uri: Text)
    ensures var p := AuditPath(uri);
      && p <= uri && QUESTION !in p && |p| <= 512
      && (|p| < 512 ==> p == uri || uri[|p|] == QUESTION)
  {}

  predicate HasContext(r: Request) {
    r.slug.Some? && r.uri.Some? && r.verb.Some? && r.realIp.Some? && r.requestId.Some?
  }

  function SessionOfCookie(cookie: Option<Text>): Option<Text> {
    match SessionCookieOf(cookie)
    case Ok(Some(value)) => Ticket.SessionKey(value, COOKIE_NAME)
    case _ => None
  }

  function Filled(tables: Tables, slug: Text, identity: Identity): Cached {
    Cached(identity, Load(tables, slug, Caller(identity.sub, identity.groups)))
  }

  /** The entry a request is served from without asking anyone. */
  function HitFor(inner: Inner, subscribed: bool, r: Request, at: nat): Option<Cached>
    requires HasContext(r)
  {
    match KeyFor(r.cookie, r.slug.value)
    case Some(key) => Hit(inner, subscribed, key, at)
    case None => None
  }

  /** What a miss finds: the data to decide over, or why there is none. */
  function MissFor(tables: Option<Tables>, r: Request, reply: Reply, recorded: bool): Result<Cached, Response>
    requires HasContext(r)
  {
    match Authenticate(reply)
    case Anonymous => Err(Unauthenticated)
    case Unavailable => Err(Refused(AuthUnavailable))
    case Verified(identity) =>
      if SessionOfCookie(r.cookie).None? || !recorded || tables.None? then Err(Refused(StoreUnavailable))
      else Ok(Filled(tables.value, r.slug.value, identity))
  }

  function AnswerOver(cached: Cached, r: Request, now: int): Response
    requires HasContext(r)
  {
    Answered(Decide(cached.loaded.enabled, cached.loaded.rules, r.uri.value, now), cached.identity)
  }

  /** Looked up at `at`, and again at `again` once the fill lock is held. */
  function Respond(
    inner: Inner, subscribed: bool, tables: Option<Tables>, r: Request, reply: Reply, recorded: bool,
    at: nat, again: nat, now: int)
    : Response
  {
    if !HasContext(r) then Refused(MissingContext)
    else if SessionCookieOf(r.cookie).Err? then Refused(AmbiguousSession)
    else KeyedResponse(inner, subscribed, tables, r, reply, recorded, at, again, now)
  }

  function KeyedResponse(
    inner: Inner, subscribed: bool, tables: Option<Tables>, r: Request, reply: Reply, recorded: bool,
    at: nat, again: nat, now: int)
    : Response
    requires HasContext(r)
  {
    match HitFor(inner, subscribed, r, at)
    case Some(cached) => AnswerOver(cached, r, now)
    case None => LockedResponse(inner, subscribed, tables, r, reply, recorded, again, now)
  }

  function LockedResponse(
    inner: Inner, subscribed: bool, tables: Option<Tables>, r: Request, reply: Reply, recorded: bool,
    again: nat, now: int)
    : Response
    requires HasContext(r)
  {
    match HitFor(inner, subscribed, r, again)
    case Some(cached) => AnswerOver(cached, r, now)
    case None => MissResponse(tables, r, reply, recorded, now)
  }

  function MissResponse(tables: Option<Tables>, r: Request, reply: Reply, recorded: bool, now: int): Response
    requires HasContext(r)
  {
    match MissFor(tables, r, reply, recorded)
    case Ok(cached) => AnswerOver(cached, r, now)
    case Err(response) => response
  }

  /** Nothing a request does takes a session out of the index. */
  ghost predicate IndexGrows(before: map<Text, set<Text>>, after: map<Text, set<Text>>) {
    forall sub, x :: x in Members(before, sub) ==> x in Members(after, sub)
  }

  /** Only a session that is in the index is ever cached. */
  method InsertIndexed(cache: Cache, redis: Redis, key: Key, session: Text, cached: Cached, at: nat)
    returns (ghost victim: Option<Key>)
    requires cache.Valid() && session in Members(redis.index, cached.identity.sub)
    modifies cache`entries, cache`bySub, cache.audit
    ensures cache.Valid() && SameTotals(old(cache.Ledger()), cache.Ledger())
    ensures Inserts(old(cache.State()), key, NewEntry(key, cached.identity.sub, cached, at), victim, cache.State())
  {
    victim := cache.Insert(key, cached.identity.sub, cached, at);
  }

  /** The miss, from oauth2-proxy's reply to the filled entry. */
  method Fill(
    cache: Cache, redis: Redis, tables: Option<Tables>, key: Option<Key>, r: Request, reply: Reply,
    add: Call, expire: Call, at: nat)
    returns (filled: Result<Cached, Response>)
    requires cache.Valid() && HasContext(r) && key == KeyFor(r.cookie, r.slug.value)
    modifies redis`index, cache`entries, cache`bySub, cache.audit
    ensures cache.Valid() && filled == MissFor(tables, r, reply, add.Done? && expire.Done?)
    ensures SameTotals(old(cache.Ledger()), cache.Ledger()) && IndexGrows(old(redis.index), redis.index)
    ensures filled.Err? ==> cache.State() == old(cache.State())
    // Cached under this request's key, with its session in the index.
    ensures filled.Ok? ==>
      && SessionOfCookie(r.cookie).Some? && key.Some?
      && redis.index == WithMember(old(redis.index), filled.value.identity.sub, SessionOfCookie(r.cookie).value)
      && exists victim :: Inserts(old(cache.State()), key.value,
           NewEntry(key.value, filled.value.identity.sub, filled.value, at), victim, cache.State())
  {
    match Authenticate(reply) {
      case Anonymous => return Err(Unauthenticated);
      case Unavailable => return Err(Refused(AuthUnavailable));
      case Verified(_) =>
    }
    var identity := Authenticate(reply).identity;
    var session := SessionOfCookie(r.cookie);
    if session.None? { return Err(Refused(StoreUnavailable)); }
    var recorded := redis.Record(identity.sub, session.value, add, expire);
    if !recorded { return Err(Refused(StoreUnavailable)); }
    if tables.None? { return Err(Refused(StoreUnavailable)); }
    var cached := Filled(tables.value, r.slug.value, identity);
    ghost var victim := InsertIndexed(cache, redis, key.value, session.value, cached, at);
    return Ok(cached);
  }

  /** What an answer leaves in the index: its session, if it was a miss. */
  ghost predicate AnswerIndexed(index: map<Text, set<Text>>, r: Request, response: Response) {
    response.Answered? ==>
      SessionOfCookie(r.cookie).Some? && SessionOfCookie(r.cookie).value in Members(index, response.identity.sub)
  }

  /** One decision counted, or nothing at all. */
  ghost predicate Accounts(before: Books, after: Books, r: Request, srcIp: Option<Text>, response: Response) {
    match response
    case Answered(decision, _) => r.slug.Some? && OneMore(before, after, Cell(r.slug.value, Outcome(decision, srcIp)))
    case _ => SameTotals(before, after)
  }

  /** What an answer leaves behind: the request counted in the entry under its key,
      or a row of its own. */
  ghost predicate CountedOrWritten(
    before: Inner, after: Inner, recorded: seq<AuditEvent>, recordedAfter: seq<AuditEvent>,
    key: Option<Key>, cached: Cached, a: Asked, slug: Text)
  {
    if key.Some? && key.value in before.entries
    then after == CountedAll(before, key.value, [a]) && recordedAfter == recorded
    else after == before && recordedAfter == recorded + [OwnRow(slug, cached, a.outcome, a.now, a.path, a.requestId)]
  }

  /** The decision over data in hand, counted under the request's key, or in a row
      of its own when there is no entry under it. */
  method AnswerWith(
    cache: Cache, key: Option<Key>, r: Request, srcIp: Option<Text>, cached: Cached, hash: nat, now: int)
    returns (response: Response)
    requires cache.Valid() && HasContext(r) && key == KeyFor(r.cookie, r.slug.value)
    modifies cache`entries, cache.audit
    ensures cache.Valid() && response == AnswerOver(cached, r, now)
    ensures Accounts(old(cache.Ledger()), cache.Ledger(), r, srcIp, response)
    ensures CountedOrWritten(
      old(cache.State()), cache.State(), old(cache.audit.recorded), cache.audit.recorded,
      key, cached, Asked(Outcome(response.decision, srcIp), now, AuditPath(r.uri.value), hash, r.requestId),
      r.slug.value)
  {
    var request := Subrequest(key, r.slug.value, r.uri.value, AuditPath(r.uri.value), srcIp, r.requestId);
    var decision := Answer(cache, request, cached, hash, now);
    assert [Asked(Outcome(decision, srcIp), now, request.auditPath, hash, r.requestId)][..0] == [];
    return Answered(decision, cached.identity);
  }

  method Miss(
    cache: Cache, redis: Redis, tables: Option<Tables>, key: Option<Key>, r: Request, srcIp: Option<Text>,
    reply: Reply, add: Call, expire: Call, hash: nat, at: nat, now: int)
    returns (response: Response)
    requires cache.Valid() && HasContext(r) && key == KeyFor(r.cookie, r.slug.value)
    modifies redis`index, cache`entries, cache`bySub, cache.audit
    ensures cache.Valid()
    ensures response == MissResponse(tables, r, reply, add.Done? && expire.Done?, now)
    ensures Accounts(old(cache.Ledger()), cache.Ledger(), r, srcIp, response)
    ensures IndexGrows(old(redis.index), redis.index) && AnswerIndexed(redis.index, r, response)
    ensures !response.Answered? ==> cache.State() == old(cache.State())
  {
    var filled := Fill(cache, redis, tables, key, r, reply, add, expire, at);
    if filled.Err? { return filled.error; }
    ghost var between := cache.Ledger();
    response := AnswerWith(cache, key, r, srcIp, filled.value, hash, now);
    OneMoreAfterSame(
      old(cache.Ledger()), between, cache.Ledger(), Cell(r.slug.value, Outcome(response.decision, srcIp)));
  }

  /** A look at the cache, and the answer if it is a hit. */
  method Look(
    cache: Cache, key: Option<Key>, r: Request, srcIp: Option<Text>, hash: nat, at: nat, now: int)
    returns (response: Option<Response>)
    requires cache.Valid() && HasContext(r) && key == KeyFor(r.cookie, r.slug.value)
    modifies cache`entries, cache.audit
    ensures cache.Valid()
    ensures match HitFor(old(cache.State()), cache.subscribed, r, at)
      case Some(cached) => response == Some(AnswerOver(cached, r, now))
      case None => response == None && cache.State() == old(cache.State()) && cache.Ledger() == old(cache.Ledger())
    ensures response.Some? ==> Accounts(old(cache.Ledger()), cache.Ledger(), r, srcIp, response.value)
  {
    if key.None? { return None; }
    var hit := cache.Get(key.value, at);
    if hit.None? { return None; }
    var answer := AnswerWith(cache, key, r, srcIp, hit.value, hash, now);
    return Some(answer);
  }

  /** What runs under the fill lock: whoever lost the race looks again. */
  method Locked(
    cache: Cache, redis: Redis, tables: Option<Tables>, key: Option<Key>, r: Request, srcIp: Option<Text>,
    reply: Reply, add: Call, expire: Call, hash: nat, again: nat, now: int)
    returns (response: Response)
    requires cache.Valid() && HasContext(r) && key == KeyFor(r.cookie, r.slug.value)
    modifies redis`index, cache`entries, cache`bySub, cache.audit
    ensures cache.Valid()
    ensures response == LockedResponse(
      old(cache.State()), cache.subscribed, tables, r, reply, add.Done? && expire.Done?, again, now)
    ensures Accounts(old(cache.Ledger()), cache.Ledger(), r, srcIp, response)
    ensures IndexGrows(old(redis.index), redis.index)
    ensures HitFor(old(cache.State()), cache.subscribed, r, again).None? ==> AnswerIndexed(redis.index, r, response)
    ensures !response.Answered? ==> cache.State() == old(cache.State())
  {
    var second := Look(cache, key, r, srcIp, hash, again, now);
    if second.Some? { return second.value; }
    response := Miss(cache, redis, tables, key, r, srcIp, reply, add, expire, hash, again, now);
  }

  /** Neither look finds a live entry. */
  predicate Misses(inner: Inner, subscribed: bool, r: Request, at: nat, again: nat) {
    HasContext(r) && HitFor(inner, subscribed, r, at).None? && HitFor(inner, subscribed, r, again).None?
  }

  /** The first look, and what follows when it finds nothing. */
  method Keyed(
    cache: Cache, redis: Redis, tables: Option<Tables>, key: Option<Key>, r: Request, srcIp: Option<Text>,
    reply: Reply, add: Call, expire: Call, hash: nat, at: nat, again: nat, now: int)
    returns (response: Response)
    requires cache.Valid() && HasContext(r) && key == KeyFor(r.cookie, r.slug.value)
    modifies redis`index, cache`entries, cache`bySub, cache.audit
    ensures cache.Valid()
    ensures response == KeyedResponse(
      old(cache.State()), cache.subscribed, tables, r, reply, add.Done? && expire.Done?, at, again, now)
    ensures Accounts(old(cache.Ledger()), cache.Ledger(), r, srcIp, response)
    ensures IndexGrows(old(redis.index), redis.index)
    ensures Misses(old(cache.State()), cache.subscribed, r, at, again) ==> AnswerIndexed(redis.index, r, response)
    ensures !response.Answered? ==> cache.State() == old(cache.State())
  {
    var first := Look(cache, key, r, srcIp, hash, at, now);
    if first.Some? { return first.value; }
    response := Locked(cache, redis, tables, key, r, srcIp, reply, add, expire, hash, again, now);
  }

  /** `decided`. */
  method Decided(
    cache: Cache, redis: Redis, tables: Option<Tables>, r: Request, srcIp: Option<Text>, reply: Reply,
    add: Call, expire: Call, hash: nat, at: nat, again: nat, now: int)
    returns (response: Response)
    requires cache.Valid()
    modifies redis`index, cache`entries, cache`bySub, cache.audit
    ensures cache.Valid()
    ensures response == Respond(
      old(cache.State()), cache.subscribed, tables, r, reply, add.Done? && expire.Done?, at, again, now)
    ensures Accounts(old(cache.Ledger()), cache.Ledger(), r, srcIp, response)
    ensures IndexGrows(old(redis.index), redis.index)
    ensures Misses(old(cache.State()), cache.subscribed, r, at, again) ==> AnswerIndexed(redis.index, r, response)
    ensures !response.Answered? ==> cache.State() == old(cache.State())
  {
    if !HasContext(r) { return Refused(MissingContext); }
    var session := FindSessionCookie(r.cookie);
    if session.Err? { return Refused(AmbiguousSession); }
    var key := KeyFor(r.cookie, r.slug.value);
    response := Keyed(cache, redis, tables, key, r, srcIp, reply, add, expire, hash, at, again, now);
  }

  lemma OneMoreAfterSame(a: Books, b: Books, c: Books, here: Cell)
    requires SameTotals(a, b) && OneMore(b, c, here)
    ensures OneMore(a, c, here)
  {
    forall cell ensures Total(c, cell) == Total(a, cell) + Unit(cell, here) {
      assert Total(b, cell) == Total(a, cell);
    }
  }

  // --- Who the caller is ---

  lemma {:induction false} NonEmptyKept(parts: seq<Text>)
    requires forall p :: p in parts ==> p != []
    ensures NonEmpty(parts) == parts
  {
    if parts != [] {
      assert parts == [parts[0]] + parts[1..];
      assert parts[0] in parts && forall p :: p in parts[1..] ==> p in parts;
      NonEmptyKept(parts[1..]);
    }
  }

  /** Groups arrive joined with commas and come out as they were, none added and
      none lost. */
  lemma GroupsRoundTrip(groups: seq<Text>)
    requires forall g :: g in groups ==> g != [] && COMMA !in g
    ensures NonEmpty(Split(Join(groups, COMMA), COMMA)) == groups
  {
    if groups == [] {
      var none: Text := [];
      assert Split(none, COMMA) == [none] && [none][1..] == [];
    } else {
      SplitJoin(groups, COMMA);
      NonEmptyKept(groups);
    }
  }

  /** Whatever arrives, the pieces kept are the ones that are not empty. */
  lemma {:induction false} NonEmptyMembers(parts: seq<Text>)
    ensures forall p :: p in NonEmpty(parts) <==> p in parts && p != []
  {
    if parts != [] {
      NonEmptyMembers(parts[1..]);
      assert parts == [parts[0]] + parts[1..];
    }
  }

  /** oauth2-proxy's word, exactly: a 401 is nobody, a 2xx with a sub is that sub
      with the names and groups given, and everything else is an outage. */
  lemma AuthenticateExactly(status: nat, user: Option<Text>, username: Text, email: Text, groups: seq<Text>)
    requires forall g :: g in groups ==> g != [] && COMMA !in g
    ensures var reply := Replied(status, user, username, email, Join(groups, COMMA));
      && (Authenticate(reply) == Anonymous <==> status == 401)
      && (forall sub :: user == Some(sub) && sub != [] && status / 100 == 2 ==>
            Authenticate(reply) == Verified(Identity(sub, username, email, groups)))
      && (Authenticate(reply) == Unavailable <==>
            status != 401 && (status / 100 != 2 || user == None || user == Some([])))
    ensures Authenticate(NoReply) == Unavailable
  {
    GroupsRoundTrip(groups);
  }

  /** Why a request is refused rather than decided, exactly, in the order in which
      the reasons are looked for. */
  lemma RefusalsExactly(
    inner: Inner, subscribed: bool, tables: Option<Tables>, r: Request, reply: Reply, recorded: bool,
    at: nat, again: nat, now: int)
    ensures var response := Respond(inner, subscribed, tables, r, reply, recorded, at, again, now);
      var asked := HasContext(r) && SessionCookieOf(r.cookie) != Err(Ambiguous);
      var missed := asked && Misses(inner, subscribed, r, at, again);
      && (response == Refused(MissingContext) <==>
            r.slug == None || r.uri == None || r.verb == None || r.realIp == None || r.requestId == None)
      && (response == Refused(AmbiguousSession) <==> HasContext(r) && SessionCookieOf(r.cookie) == Err(Ambiguous))
      && (response == Unauthenticated <==> missed && Authenticate(reply) == Anonymous)
      && (response == Refused(AuthUnavailable) <==> missed && Authenticate(reply) == Unavailable)
      && (response == Refused(StoreUnavailable) <==>
            missed && Authenticate(reply).Verified?
            && (SessionOfCookie(r.cookie) == None || !recorded || tables == None))
      && (forall reason :: response == Refused(reason) ==>
            reason in {MissingContext, AmbiguousSession, AuthUnavailable, StoreUnavailable})
  {}

  /** When a decision is made at all, over which rules, and for whom: those of the
      entry that is live at the first look, else at the second, else those the
      tables hold for the caller that oauth2-proxy names. */
  lemma AnswersExactly(
    inner: Inner, subscribed: bool, tables: Option<Tables>, r: Request, reply: Reply, recorded: bool,
    at: nat, again: nat, now: int)
    requires HasContext(r) && SessionCookieOf(r.cookie) != Err(Ambiguous)
    ensures var response := Respond(inner, subscribed, tables, r, reply, recorded, at, again, now);
      var missed := Misses(inner, subscribed, r, at, again);
      && (response.Answered? <==> (missed ==>
            Authenticate(reply).Verified? && SessionOfCookie(r.cookie).Some? && recorded && tables.Some?))
      && (forall c :: HitFor(inner, subscribed, r, at) == Some(c) ==>
            response == Answered(Decide(c.loaded.enabled, c.loaded.rules, r.uri.value, now), c.identity))
      && (forall c :: HitFor(inner, subscribed, r, at) == None && HitFor(inner, subscribed, r, again) == Some(c) ==>
            response == Answered(Decide(c.loaded.enabled, c.loaded.rules, r.uri.value, now), c.identity))
      && (missed && response.Answered? ==>
            var identity := Authenticate(reply).identity;
            var loaded := Load(tables.value, r.slug.value, Caller(identity.sub, identity.groups));
            response == Answered(Decide(loaded.enabled, loaded.rules, r.uri.value, now), identity))
  {}

  /** From a browser's header to the key in Redis: the cookie oauth2-proxy printed
      for a session, among any others, names that session's key. */
  lemma SessionOfHeader(pairs: seq<Pair>, i: int, key: Text, secret: Text, signature: Text)
    requires PairsText(pairs) && OnlySession(pairs, i)
    requires pairs[i].value == Ticket.Cookie(key, secret, signature)
    requires signature == [] || signature[0] == BAR
    requires Utf8.Valid(key) && StartsWith(key, COOKIE_NAME + [DASH])
    ensures SessionOfCookie(Some(Header(pairs))) == Some(key)
  {
    HeaderRoundTrip(pairs);
    KeyOfSession(Some(Header(pairs)), pairs[i].value);
    Ticket.RoundTrip(key, secret, signature, COOKIE_NAME);
  }

  lemma KeyOfSession(header: Option<Text>, value: Text)
    requires SessionCookieOf(header) == Ok(Some(value))
    ensures SessionOfCookie(header) == Ticket.SessionKey(value, COOKIE_NAME)
  {}

  // --- The portal's and the admin's calls ---

  /** `indexed`, in front of every /api handler: an authenticated caller whose
      session cannot be recorded does not get through. */
  method Indexed(redis: Redis, sub: Option<Text>, cookie: Option<Text>, add: Call, expire: Call) returns (through: bool)
    modifies redis`index
    ensures through && sub.Some? && sub.value != [] ==>
      SessionOfCookie(cookie).Some? && SessionOfCookie(cookie).value in Members(redis.index, sub.value)
    ensures sub.None? || sub.value == [] ==> through && redis.index == old(redis.index)
    ensures sub.Some? && sub.value != [] ==> through == (SessionOfCookie(cookie).Some? && add.Done? && expire.Done?)
    ensures forall s, x :: x in Members(old(redis.index), s) ==> x in Members(redis.index, s)
  {
    if sub.None? || sub.value == [] { return true; }
    var key := SessionOfCookie(cookie);
    if key.None? { return false; }
    through := redis.Record(sub.value, key.value, add, expire);
  }

  // --- What the answers mean ---

  /** A decision is made only for a request that carries exactly one session of
      ours; without a live entry it also takes oauth2-proxy's word, an index
      that has recorded the session, and tables that answer. */
  lemma FailsClosed(
    inner: Inner, subscribed: bool, tables: Option<Tables>, r: Request, reply: Reply, recorded: bool,
    at: nat, again: nat, now: int)
    requires Respond(inner, subscribed, tables, r, reply, recorded, at, again, now).Answered?
    ensures HasContext(r) && KeyFor(r.cookie, r.slug.value).Some?
    ensures Misses(inner, subscribed, r, at, again) ==>
      recorded && tables.Some? && Authenticate(reply).Verified? && SessionOfCookie(r.cookie).Some?
  {}

  /** A hit answers what a miss would answer over the tables as they are now, for
      the same identity, as long as the application's flag and the rules that are
      live now have not changed: rules may have expired, gone, or come back in
      another order. */
  lemma HitAnswersLikeMiss(
    inner: Inner, subscribed: bool, tables: Tables, r: Request, reply: Reply, at: nat, again: nat, now: int)
    requires HasContext(r) && SessionOfCookie(r.cookie).Some?
    requires HitFor(inner, subscribed, r, at).Some?
    requires Authenticate(reply) == Verified(HitFor(inner, subscribed, r, at).value.identity)
    requires var cached := HitFor(inner, subscribed, r, at).value;
      SameForNow(cached.loaded, Filled(tables, r.slug.value, cached.identity).loaded, now)
    ensures Respond(inner, subscribed, Some(tables), r, reply, true, at, again, now)
         == Respond(EMPTY, subscribed, Some(tables), r, reply, true, at, again, now)
  {
    var cached := HitFor(inner, subscribed, r, at).value;
    AnswersAlike(cached, Filled(tables, r.slug.value, cached.identity), r, now);
  }

  lemma AnswersAlike(a: Cached, b: Cached, r: Request, now: int)
    requires HasContext(r) && a.identity == b.identity && SameForNow(a.loaded, b.loaded, now)
    ensures AnswerOver(a, r, now) == AnswerOver(b, r, now)
  {
    PolicyLaws.LiveRulesDecide(a.loaded.enabled, a.loaded.rules, b.loaded.rules, r.uri.value, now);
  }
}
