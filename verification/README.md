# OpenBerat's policy decision point, modelled and proved

OpenBerat's backend answers one question for an identity-aware proxy: may this
session have this path of this application, now? Four parts of it carry
guarantees that no single function body shows, and this project models those
parts in Dafny and proves the guarantees.

1. **The path decision engine** (`policy.rs`, `validate.rs`). A request URI is
   decoded, resolved and lower-cased in three different orders, and the decision
   is taken under all three. Proved: the second and third readings exist whenever
   the first does; what an allow and an explicit deny mean, exactly; that a deny
   survives every sequence of rewrites an upstream would undo; that `resolve` is
   canonical, idempotent and, on absolute paths, remove_dot_segments of section
   5.2.4 of RFC 3986 after slashes have been collapsed; and that no pattern the
   validator accepts is dead.
2. **The decision cache and its audit ledger** (`cache.rs`, `decide.rs`,
   `store.rs`). Proved: the reverse index is exact and the bound kept; under every
   interleaving of the lock regions each answered request is counted exactly once,
   in a live entry, in an entry on its way out, or in a row handed to the audit
   channel; every hit answers what the decision engine answers at that moment over
   the data of the latest fill.
3. **The kill switch, logout and the invalidation channel**, over any number of
   instances (`admin.rs`, `portal.rs`, `session.rs`, `api.rs`). A transition system
   of every Redis command and every lock region. Proved over all runs: what a kill
   leaves behind, on its own instance and on every other; that access to a cut
   session ends everywhere within one TTL of its last miss in flight; that a cached
   session is indexed and can be killed; that a kill can be retried.
4. **The parsers and readers around them**: the session ticket, the cookie header,
   the portal's joined query, and keyset paging of the audit record.

## Files

| file | what it holds |
|---|---|
| `Prelude.dfy`, `Text.dfy`, `Utf8.dfy`, `Percent.dfy` | bytes, text as bytes, split and join, UTF-8, percent-decoding |
| `Path.dfy` | `resolve`, canonical paths, and section 5.2.4 of RFC 3986 |
| `Policy.dfy`, `PolicyLaws.dfy` | the decision engine and its laws |
| `Rewrites.dfy`, `PathPattern.dfy`, `Readings.dfy` | rewrites of a path, the patterns rules are stored with, and what the three readings hold |
| `Base64.dfy`, `Ticket.dfy`, `SessionCookie.dfy` | the session ticket, the `Cookie` header and the cache key |
| `Store.dfy` | the two queries over the tables, the portal's fold, and which rules a load returns |
| `AuditPaging.dfy` | the audit viewer's cursor |
| `Cache.dfy`, `AuditRow.dfy`, `DecisionCache.dfy`, `Ledger.dfy` | the cache as values, what its audit rows stand for, the cache as objects, and under every interleaving |
| `Services.dfy`, `DecisionPath.dfy`, `KillSwitch.dfy` | Redis and Keycloak call by call; `/decide`, kill and logout at one instance |
| `Fleet.dfy` | the whole deployment as a transition system |
| `FleetCache.dfy`, `FleetAlone.dfy`, `FleetSteps.dfy` | a node of that system stands for the cache of `Cache.dfy`; one thread alone does there what the calls of `KillSwitch.dfy` and `DecisionPath.dfy` do; no thread waits for another |
| `FleetSafety.dfy`, `FleetChanges.dfy`, `FleetRuns.dfy`, `FleetTheorems.dfy` | its invariant, what a step can change, runs, and the main results |
| `FleetLapse.dfy` | the one run in which a recorded session drops out of the index by itself |

`dafny verify dfyconfig.toml` checks all of it.

## What is assumed of the surroundings

- oauth2-proxy answers 200 only for a session key it holds at that moment, in one
  atomic step, reports that session's owner, and never brings an ended key back.
  A refresh that rewrites a key while it is being deleted is excluded by this.
- Every login gets a fresh session key.
- The session oauth2-proxy authenticates is the one the cookie's ticket names.
- SHA-256 of the cookie is injective, so the cookie's value itself is the key.
- Clocks do not run backwards. The fleet reads rule expiry, TTL and the index
  deadline off one clock; milliseconds are the unit.
- Redis commands are atomic, a set disappears at its deadline, and PUBLISH reaches
  every subscriber whose connection is up. A call that fails may have been carried
  out, its answer lost.
- A lookup that hits reads the flag and the entry in one step. The code reads the
  flag just before it takes the lock, so "flag up" at a hit holds up to that instant.
- Queries see one consistent state of the tables; a slug and an id name one
  application. Row order is left open wherever the query leaves it open.
- `i32` counters do not overflow: counts are natural numbers.
- A header value reaches the code only if it is ASCII, so trimming a cookie name
  is trimming ASCII white space. Text is a sequence of bytes.
- The 64-bit hash of a path is a number the caller supplies.
- One answer reads the clock once: the code reads it for the decision and again for the audit record.

## Where a claim of the code needs a condition

- `normalise` is idempotent exactly when its output holds neither `?` nor `#`: an
  escaped one is decoded and would cut or spoil the path the second time
  (`PolicyLaws.NormaliseIdempotent`; `PolicyLaws.EscapedQuestionMark` is one input).
- A recorded session can leave the index without a kill or logout in one further
  way: the deadline of an index set that was already there passes between the SADD
  and the EXPIRE of `record`, and the EXPIRE then finds no set and says nothing.
  `FleetTheorems.IndexedAndKillable` names that step beside the two intended ones,
  `FleetLapse.LapseReached` is a run that takes it, and
  `FleetTheorems.IndexedExactly` says for every state when a session is indexed.
- `answer` writes a row of its own when there is no entry to count in. On a request
  without a key this cannot be reached: such a request never gets as far as a
  decision (`DecisionPath.FailsClosed`).

## Model

| member | source | states |
|---|---|---|
| TextOps.MakeAsciiLowercase | backend/src/policy.rs:121 | the in-place loop leaves every byte lower-cased and nothing else changed |
| TextOps.LowerByteExactly | backend/src/policy.rs:119-121 | the 26 capital letters, spelled out, become the small ones and no other byte changes |
| TextOps.SplitAround | backend/src/policy.rs:136-139 | a separator is exactly a seam of the split text, so pieces on both sides split independently |
| TextOps.SplitPrefix | backend/src/policy.rs:247-251 | one text's pieces are the first pieces of another exactly when it equals it or is followed there by the separator |
| Utf8.ValidAround | backend/src/policy.rs:105 | a UTF-8 character never straddles an ASCII byte: text around one is well-formed exactly when both sides are |
| Utf8.ValidExactly | backend/src/policy.rs:105 | well-formed text is exactly what the table of section 3 of RFC 3629 makes of Unicode scalar values |
| Utf8.EncodedValid | backend/src/policy.rs:113 | and it holds a control character exactly when one of those values is below U+0020 or from U+007F to U+009F |
| Percent.PercentDecode | backend/src/policy.rs:156-173 | the index loop decodes every complete escape once and fails on any `%` that begins none |
| Percent.HexValueExactly | backend/src/policy.rs:167-168 | the sixteen digits in capitals or not, spelled out, have their values and no other byte has one |
| Percent.EscapeRoundTrip | backend/src/policy.rs:156-173 | every byte written as an escape, each digit in either case, decodes to itself |
| Percent.DecodedAround | backend/src/policy.rs:136-150 | an escape never straddles an unescaped separator: decoding goes piece by piece |
| Path.Resolve | backend/src/policy.rs:177-198 | the stack loop over the split path yields the resolved path |
| Path.ResolvedCanonical | backend/src/policy.rs:175-198 | whatever it is given, the result begins with a slash, has no two slashes in a row and no dot segment |
| Path.CanonicalFixed | backend/src/policy.rs:175-198 | the paths `resolve` leaves alone are exactly the canonical ones |
| Path.ResolvedIdempotent | backend/src/policy.rs:175-198 | resolving twice is resolving once |
| DotSegments.ResolvedIsRemoveDotSegments | backend/src/policy.rs:175-198 | on absolute paths it is the loop of section 5.2.4 of RFC 3986 run after repeated slashes are collapsed |
| Policy.Normalise | backend/src/policy.rs:98-123 | the step-by-step normaliser, early returns and in-place lower-casing included, computes the normalised path or MalformedUri |
| ReadingLaws.NormalisesExactly | backend/src/policy.rs:98-115 | a URI normalises exactly when its path begins with a slash, holds no `#`, has complete escapes only, and decodes to scalar values without `%` and without control characters |
| PolicyLaws.NormalisedShape | backend/src/policy.rs:92-123 | a normalised path is canonical, lower-case, printable UTF-8, and holds no `%` and no backslash |
| PolicyLaws.NormaliseIdempotent | backend/src/policy.rs:98-123 | normalising again changes nothing exactly when the result holds neither `?` nor `#` |
| PolicyLaws.EscapedQuestionMark | backend/src/policy.rs:99 | the input that shows the condition is needed: `/%3F` normalises to `/?`, and that to `/` |
| PolicyLaws.ReadingsExist | backend/src/policy.rs:133-151 | the second and third decodes never fail when the first succeeds, and the first reading is the normalised path; what each holds is in the next three rows |
| ReadingLaws.FirstReading | backend/src/policy.rs:105-122 | the first reading is the decoded path with every backslash a slash, resolved after that, in lower case |
| ReadingLaws.SecondReading | backend/src/policy.rs:133-151 | the second is the final segments of the path as written, each decoded where it stands, in order, in lower case: what an escape stands for is never resolved again |
| ReadingLaws.ThirdReading | backend/src/policy.rs:133-151 | the third is the same over the segments cut at their first `;` |
| ReadingLaws.ReadsAsOne | backend/src/policy.rs:140-150 | this determines the reading |
| PolicyLaws.MalformedExactly | backend/src/policy.rs:200-204 | malformed_uri is answered exactly when normalisation fails, enabled or not, whatever the rules |
| PolicyLaws.AllowsExactly | backend/src/policy.rs:200-216 | allow exactly when enabled, well-formed, and under each of the three readings (`ReadingLaws.FirstReading` to `ThirdReading`) some live allow matches (`PathPattern.MatchesExactly`) and no live deny does |
| PolicyLaws.DeniesExactly | backend/src/policy.rs:208-216 | explicit_deny exactly when enabled, well-formed, and under some reading, in the same sense, a live deny matches |
| PolicyLaws.OtherRefusalsExactly | backend/src/policy.rs:205-216 | application_disabled exactly for a well-formed URI of a disabled application; no_matching_grant exactly when no reading is denied and some reading has no allow; there are no further answers |
| ReadingLaws.DenyHoldsUnderEscapes | backend/src/policy.rs:125-151 | a live deny on an accepted `S/*` is the answer for every URI that normalises and reads S in any letters, a slash, and ordinary segments, whatever is escaped in those |
| PolicyLaws.LiveRulesDecide | backend/src/policy.rs:218-235 | only the set of live rules matters: order, duplicates and expired rules do not |
| PolicyLaws.PermutedRulesDecide | backend/src/policy.rs:218-235 | a permuted rule list decides alike |
| PolicyLaws.RulesAreMonotone | backend/src/policy.rs:218-235 | added denies never create an allow, added allows never remove one |
| PolicyLaws.SteadyBetweenExpiries | backend/src/policy.rs:219 | the answer is constant from t1 to t2 when no expiry lies after t1 and up to t2 |
| PolicyLaws.MatchesSegments | backend/src/policy.rs:237-252 | on a path that begins with a slash a pattern matches exactly when its base's segments are the path's first segments; `PathPattern.MatchesExactly` says it from the pattern's text |
| PathPattern.MatchesExactly | backend/src/policy.rs:237-252 | for any stored pattern: with the stars off its end, the segments it resolves to, in lower case, are the first segments of the path |
| PathPattern.EmptyMatchesAll | backend/src/policy.rs:239 | the empty pattern matches every path |
| PathPattern.WholeDeny | backend/src/policy.rs:239 | a live deny with the empty pattern answers every URI of an enabled application that normalises, and no other |
| PathPattern.WholeAllow | backend/src/policy.rs:239 | a live allow with the empty pattern and no live deny beside it allows exactly those |
| PathPattern.SpellingsMatchAlike | backend/src/validate.rs:22-31 | for S without a star at its end, `S`, `S/`, `S/*` and S in other letters match the same paths, accepted by the validator or not |
| PolicyLaws.ExplainAgrees | backend/src/policy.rs:254-291 | the trace carries the decision itself, one entry a rule, expiry exactly, and no path exactly when the answer is malformed_uri |
| PolicyLaws.ExplainMarks | backend/src/policy.rs:268-291 | a rule is marked matched exactly when its pattern matches the normalised path, expired or not; a matched, unexpired deny is the answer of an enabled application |
| Rewrites.RewriteKeepsNormal | backend/src/policy.rs:92-123 | escaping a byte, changing case, slipping in a detour after a slash, or writing a slash as a backslash leaves the normalised path as it was |
| Rewrites.RewritesKeepNormal | backend/src/policy.rs:92-123 | so does any finite sequence of them |
| Rewrites.PlainReadings | backend/src/policy.rs:133-151 | on a path without `%`, backslash and `;` the three readings are one |
| Rewrites.DenySurvivesRewrites | backend/src/policy.rs:92-123 | an explicit deny of a plain path is the answer for everything reached from it by rewrites |
| Rewrites.DenySurvivesParams | backend/src/policy.rs:125-151 | and for the plain path with `;` parameters appended to any of its segments |
| PathPattern.FixedExactly | backend/src/validate.rs:53-54 | which texts normalise to themselves, said without running `normalise` |
| PathPattern.AcceptedExactly | backend/src/validate.rs:33-60 | accepted are the empty pattern and exactly the patterns `S/*` with no other star whose `S/` is written as it is matched |
| PathPattern.TrimmedTail | backend/src/validate.rs:39 | every text is a base that ends in neither a star nor a slash, and stars and slashes behind it |
| PathPattern.RefusedWithoutMarker | backend/src/validate.rs:38-48 | a pattern without `/*` at its end is refused, naming what is left of it without the stars and slashes at its end |
| PathPattern.RefusedWithMarker | backend/src/validate.rs:49-59 | one with it is refused for a further star, else for not normalising, else for normalising to something else, which is named |
| PathPattern.AdviceAccepted | backend/src/validate.rs:53-57 | what that refusal names is accepted with its star put back exactly when it ends in a slash and holds no star, `?` or `#` |
| PathPattern.AcceptedBase | backend/src/policy.rs:243-246 | the base of an accepted `S/*` is S itself |
| PathPattern.AcceptedSubtree | backend/src/policy.rs:237-252 | an accepted `S/*` matches S and what lies below it, nothing else |
| PathPattern.AcceptedDenyFires | backend/src/validate.rs:14-21 | no accepted deny is dead: it fires on the path it was written for and on every rewriting of that path |
| Base64.DecodesExactly | backend/src/session.rs:156-159 | an unpadded alphabet's decoder accepts exactly what its encoder prints, and gives it back (sections 3.2 and 5 of RFC 4648) |
| Base64.SymbolsExactly | backend/src/session.rs:156-159 | the symbols are those of tables 1 and 2 of RFC 4648, spelled out |
| Base64.GroupsExactly | backend/src/session.rs:156-159 | four groups are the base-64 digits of the 24-bit number that three bytes are |
| Base64.DecodeExactly | backend/src/session.rs:153-162 | the three decoders in turn read exactly the three printed forms |
| Ticket.SessionKeyExactly | backend/src/session.rs:136-151 | which key comes out of a cookie, and exactly from which cookies one does |
| Ticket.RoundTrip | backend/src/session.rs:335-342 | from a cookie printed around a key, any secret and any signature the key comes back exactly when it begins with the cookie name and a dash |
| Ticket.RefreshKeepsKey | backend/src/session.rs:145-146 | only the text before the first bar matters, so a refreshed signature changes nothing |
| SessionCookie.FindSessionCookie | backend/src/cache.rs:57-80 | the loop counting the family and keeping the plain cookie computes what the family cookies of the header say |
| SessionCookie.SessionExactly | backend/src/cache.rs:48-80 | a value exactly when one cookie of the family is there and has the plain name; Ambiguous exactly when two or more are |
| SessionCookie.CookieNameSpelled | backend/src/cache.rs:41 | the cookie name, letter by letter |
| SessionCookie.PrintedCookieReads | backend/src/cache.rs:60-73 | of a printed cookie, with any white space around its name, name and value come out, and it is of the family exactly when its name is the cookie name, or that with an underscore and a number |
| SessionCookie.HeaderRoundTrip | backend/src/cache.rs:57-80 | of a header as a browser joins it, the session is the value of the pair with the cookie name if no other name is of the family, and Ambiguous is answered exactly when two are |
| SessionCookie.OnlyTheFamilyMatters | backend/src/cache.rs:48-80 | headers whose family cookies are permutations of one another name the same session |
| SessionCookie.StrangersDoNotMatter | backend/src/cache.rs:102-106 | cookies of applications may be added anywhere and all of them reordered without changing the session |
| SessionCookie.KeysAreSessions | backend/src/cache.rs:102-120 | two requests share a cache key exactly when they present the same one session for the same application |
| Grants.LoadExactly | backend/src/store.rs:50-104 | a load returns the rule of exactly those rows that name this application or none, and the caller's sub or one of the caller's groups; flag and id are those of the application with the slug |
| Grants.WildcardDenyEverywhere | backend/src/store.rs:61-63 | a live whole-application deny without an application id that names the caller is the answer under every enabled slug |
| Portal.PortalApps | backend/src/store.rs:235-258 | the loop over the joined rows folds each row into the last application or a new one |
| Portal.GroupedFolds | backend/src/store.rs:235-258 | rows that stand together by slug fold into one entry a slug, with that slug's fields and rules in order |
| Portal.AnswerContiguous | backend/src/store.rs:226-228 | the ordering by name and slug keeps each application's rows together, whatever the collation |
| Portal.PortalIsExact | backend/src/store.rs:212-259 | each enabled application comes out once, with its own fields and a permutation of the rules a load returns (`Grants.LoadExactly`), and no other application does |
| Portal.PortalAgrees | backend/src/portal.rs:123-151 | an application is listed exactly when `decide` at `/` over the decision path's own rules allows |
| AuditPaging.PageRows | backend/src/audit.rs:81-130 | a page holds matching rows before the cursor, strictly descending, and leaves none out above its last row |
| AuditPaging.FiltersCompose | backend/src/audit.rs:105-110 | each filter narrows by itself and by its own column, the actor by either of two, and an empty filter not at all |
| AuditPaging.WindowsMeet | backend/src/audit.rs:72-75 | consecutive windows neither overlap nor leave a gap |
| AuditPaging.NewestFirst | backend/src/audit.rs:112 | any two rows of a page stand newest first, and by id within one instant |
| AuditPaging.ListAuditBounds | backend/src/audit.rs:85-90 | half a cursor is refused and nothing else is; the page size is what was asked for brought into 1 to 1000, or 100 |
| AuditPaging.ShownDescends | frontend/src/audit.js:307-326 | paging until a short page ends, and shows matching rows strictly descending, each found in some request's table, however the table moves |
| AuditPaging.ShownCovers | frontend/src/audit.js:307-326 | a matching row present throughout is shown |
| AuditPaging.ShownComplete | frontend/src/audit.js:307-326 | and shown exactly once |
| AuditPaging.ShownUnchanged | frontend/src/audit.js:247-250 | on a table that stands still the pages make up the whole sorted result |
| CacheState.ForgetSubExact | backend/src/cache.rs:430-437 | exactly one pair leaves the reverse index, and no empty set stays behind |
| CacheState.WithoutConsistent | backend/src/cache.rs:381-391 | an eviction keeps the index exact and removes one entry |
| CacheState.InsertsConsistent | backend/src/cache.rs:246-294 | an insert keeps the index exact and the bound, replaces its key's entry, and gives up at most one entry, only from a full cache |
| CacheState.InsertedIsServed | backend/src/cache.rs:227-294 | what an insert put in is served for exactly TTL and found under its sub, unless the bound took that entry out; every other entry but the one given up is served as before |
| CacheState.CountedConsistent | backend/src/cache.rs:296-328 | counting keeps the index, and every outcome has one to count distinct paths |
| CacheState.KeysOfExact | backend/src/cache.rs:348-358 | the keys `drop_sub` reads are the sub's entries, all of them and no others |
| CacheState.RowsForOneMore | backend/src/cache.rs:410-427 | flushing one outcome more writes its row, once, with its count; what the row says is `AuditRows.RowOfRequests` |
| AuditRows.CountersStand | backend/src/cache.rs:298-328 | the counters of an outcome stand for the requests that had it, by induction over the requests: how many, first and last time, first path and request id, and the set of hashes; nothing else in the cache moves |
| AuditRows.RowOfRequests | backend/src/cache.rs:410-427 | the row an entry writes of an outcome, from those requests alone, and no row for an outcome without one; `distinct_path` is the number of different hashes |
| AuditRows.FlushedRows | backend/src/cache.rs:410-428 | a flush writes exactly these rows, each once |
| AuditRows.OwnRowIsOfOne | backend/src/decide.rs:253-275 | the row of a request without an entry is the row a fresh entry would write for it |
| CacheState.TakenOutTotals | backend/src/cache.rs:376-391 | an entry out and its rows written: every cell's total is what it was |
| CacheState.CountedTotals | backend/src/cache.rs:298-328 | counting adds one to one cell and nothing to any other |
| DecisionCache.AuditLog.Record | backend/src/store.rs:298-304 | never waits: the row is queued, or counted as dropped when the channel is full or closed |
| DecisionCache.AuditLog.WriteNext | backend/src/store.rs:313-341 | the oldest row is written or counted as dropped; what was recorded is always what was written, queued and lost |
| DecisionCache.Cache.constructor | backend/src/cache.rs:184-193 | a cache starts empty and unsubscribed |
| DecisionCache.Cache.Get | backend/src/cache.rs:227-234 | a hit exactly when subscribed, present and younger than TTL |
| DecisionCache.Cache.ForgetSub | backend/src/cache.rs:430-437 | the reverse index loses the key, and the sub with its last key |
| DecisionCache.Cache.TakeOut | backend/src/cache.rs:381-389 | the locked half of an eviction removes the entry from both structures |
| DecisionCache.Cache.Flush | backend/src/cache.rs:410-428 | one row an outcome; over the requests an entry stands for, what each row says is `AuditRows.FlushedRows` |
| DecisionCache.Cache.Evict | backend/src/cache.rs:376-391 | the key leaves and its counters are handed over; nothing counted is lost |
| DecisionCache.Cache.GiveUpOldest | backend/src/cache.rs:280-292 | what goes is a minimum of `inserted`, flushed on its way out |
| DecisionCache.Cache.KeepBound | backend/src/cache.rs:279-293 | the eviction loop turns at most once after an insert and restores the bound |
| DecisionCache.Cache.Insert | backend/src/cache.rs:246-294 | the whole of `insert`: replaced and given-up entries flushed, index exact, bound kept, totals unchanged |
| DecisionCache.Cache.Count | backend/src/cache.rs:296-328 | one request more in its cell if the entry is there, nothing otherwise |
| DecisionCache.Cache.EvictEach | backend/src/cache.rs:341-343 | evicting a set of keys one at a time removes exactly those and keeps every total |
| DecisionCache.Cache.Sweep | backend/src/cache.rs:330-344 | left alone, a sweep removes exactly the entries of age TTL or more |
| DecisionCache.Cache.DropSub | backend/src/cache.rs:346-362 | left alone, it removes all of the sub's entries and nothing else |
| DecisionCache.Cache.FlushAll | backend/src/cache.rs:364-374 | left alone, it empties both structures |
| DecisionCache.Cache.SetSubscribed | backend/src/cache.rs:207-221 | the flag goes up only on an emptied cache, and losing it keeps the entries |
| DecisionCache.IndexDetermined | backend/src/cache.rs:162-168 | an exact reverse index is determined by the entries |
| DecisionCache.Answer | backend/src/decide.rs:231-275 | every request is decided anew over the data in hand and accounted for exactly once: the whole new cache and log are stated, the request counted in the entry, or a row of its own |
| Ledger.NextKeeps | backend/src/cache.rs:376-391 | each lock region, and each row written outside the lock, keeps the books balanced, the index exact and every row sane |
| Ledger.RunKeeps | backend/src/cache.rs:246-428 | in every state of every interleaving the decisions answered equal the counts recorded, live and taken out but not yet written, cell by cell |
| Ledger.DrainedAccounts | backend/src/cache.rs:364-374 | once the cache is empty and every evicting thread is done, the recorded rows account for every decision answered |
| Services.Redis.Record | backend/src/session.rs:174-181 | SADD then EXPIRE: OK only if both were answered |
| Services.Redis.DropSessions | backend/src/session.rs:248-258 | no DEL for an empty list, and otherwise exactly these keys go |
| Services.Redis.ForgetSession | backend/src/session.rs:277-282 | one member goes, and the set with its last member |
| DecisionPath.Decided | backend/src/decide.rs:49-172 | the answer for every combination of headers, cookie, cache, oauth2-proxy reply, index write and store, with the second look under the fill lock; one decision counted if and only if one was made, the cache untouched otherwise; the index loses no member, and an answered miss leaves its session in it |
| DecisionPath.Fill | backend/src/decide.rs:116-158 | a miss that answers has its session in the index and its data under its key, and a refused miss inserts nothing; no member leaves the index |
| DecisionPath.InsertIndexed | backend/src/decide.rs:129-158 | the insert may be called only with the session already in the index of its sub |
| DecisionPath.AnswerWith | backend/src/decide.rs:231-285 | the decision is that of the engine over the data in hand; it is counted in the entry under the request's key, with the audit path, or written as a row of its own, and nothing else changes |
| DecisionPath.AuditPathExactly | backend/src/decide.rs:76-83 | the audited path is as much of the URI as the query string and the limit of 512 allow |
| DecisionPath.Indexed | backend/src/api.rs:167-203 | an authenticated call reaches its handler only with its session in the index; no other member is lost |
| DecisionPath.FailsClosed | backend/src/decide.rs:129-155 | a decision takes a context and one session; if neither look finds a live entry also a verified identity, a recorded session and an answering store |
| DecisionPath.RefusalsExactly | backend/src/decide.rs:49-172 | each refusal of the decision path exactly: no context, two sessions, nobody, no word from oauth2-proxy, no record or no store |
| DecisionPath.AnswersExactly | backend/src/decide.rs:85-172 | an answer exactly when none of them applies, over the data of the live entry at the first look, else at the second, else over what a load returns for the caller oauth2-proxy names |
| DecisionPath.AuthenticateExactly | backend/src/decide.rs:294-340 | 401 is nobody, 2xx with a sub is that sub with the names and groups sent, everything else is an outage |
| DecisionPath.GroupsRoundTrip | backend/src/decide.rs:185-192 | groups joined with commas come out as they were |
| DecisionPath.SessionOfHeader | backend/src/decide.rs:134-143 | from a header that holds the cookie printed for a session, among any others, the key of that session is read |
| DecisionPath.HitAnswersLikeMiss | backend/src/decide.rs:231-239 | for the same identity a hit answers what a miss over the present tables answers as long as the enabled flag and the live rules are the same, whatever rules expired, went or moved |
| KillSwitch.Kill | backend/src/admin.rs:118-175 | the ordered steps with their early exits, over any mix of failed and lost calls, equal the specified run, whose effects and answers are the next three rows; no counter is lost by the drop |
| KillSwitch.KillEffects | backend/src/admin.rs:118-175 | each effect of a kill exactly: sign-on, sessions, publication, entries and index, each when its step comes and is carried out, and the local drop whenever the publish comes |
| KillSwitch.KillDropsWhateverPublishAnswers | backend/src/admin.rs:153-165 | once the sessions are deleted exactly the user's entries leave the cache, for every publish and every forget |
| KillSwitch.KillAnswers | backend/src/admin.rs:118-175 | 404 exactly for an unknown user, otherwise the first step that did not go well, and a count exactly when all did |
| KillSwitch.Logout | backend/src/portal.rs:70-113 | the same for logout, whose effects and answers are the next three rows |
| KillSwitch.LogoutEndsOwn | backend/src/portal.rs:70-113 | exactly its own session ends and exactly its own index member leaves, each when its step comes and is carried out |
| KillSwitch.LogoutDropsWhateverPublishAnswers | backend/src/portal.rs:96-106 | once its session is deleted exactly the user's entries leave the cache, whatever the publish answers |
| KillSwitch.LogoutDone | backend/src/portal.rs:70-113 | done is answered exactly when every step went well, and then the session is gone from Redis, from the index and from this instance, and published |
| KillSwitch.OrderKept | backend/src/admin.rs:97-105 | no session is cut while Keycloak would sign the user back in, no entry dropped while its session lives, the index entry goes last |
| KillSwitch.StoppedIsRetryable | backend/src/admin.rs:106-110 | a kill stopped before its last step leaves the index as it was; an OK has cut all the index named and says how many |
| KillSwitch.AttemptsUnderway | backend/src/admin.rs:106-110 | however many attempts fail, the index is intact or every session it named is gone |
| KillSwitch.RetriesConverge | backend/src/admin.rs:106-110 | any attempts and then a success end with the same sessions, entries, index and sign-on as one success |
| KillSwitch.LogoutIsOnlyItsOwn | backend/src/portal.rs:39-41 | no other session ends or leaves the index, and no other user's entry is dropped |
| KillSwitch.LogoutThenKill | backend/src/portal.rs:39-41 | a logout hides nothing from a later kill |
| FleetCache.SameHits | backend/src/cache.rs:227-234 | a node of the fleet hits exactly when the cache it stands for does, with the same rules |
| FleetCache.SameInsert | backend/src/cache.rs:246-294 | an insert of the cache is the fleet's insert and then its eviction of the key given up |
| FleetCache.SameEvict | backend/src/cache.rs:381-391 | an eviction is the fleet's eviction |
| FleetCache.SameCount | backend/src/cache.rs:296-328 | counting is invisible to the fleet |
| FleetCache.SameKeys | backend/src/cache.rs:348-358 | the keys read from the reverse index are the keys the fleet reads off the entries |
| FleetSteps.LiveAuthenticates | backend/src/decide.rs:116-127 | in every state exactly the sessions oauth2-proxy holds can authenticate, for their owner, under a cookie that names them, whatever else is under way |
| FleetSteps.EntryServes | backend/src/decide.rs:87-92 | an entry younger than TTL can answer every URI exactly with the engine's decision of that moment, exactly while the flag is up |
| FleetSteps.MissNeverWaits | backend/src/decide.rs:116-158 | a miss in flight can always take its next step, and stop, whatever the others are doing |
| FleetSteps.ListenerNeverWaits | backend/src/session.rs:98-134 | so can the subscriber of a connection that is there |
| FleetSteps.RevokerNeverWaits | backend/src/admin.rs:118-175 | so can a kill or a logout; only an unanswered publish keeps one from its last step |
| FleetAlone.KillRunsThrough | backend/src/admin.rs:118-175 | from every state a kill with nothing in between is a run of the fleet, leaves at its instance and in Redis what `KillSwitch.KillRun` leaves, and has told every instance whose connection is up |
| FleetAlone.MissRunsThrough | backend/src/decide.rs:116-158 | from every state a miss of a live session is one too: it leaves the session indexed with the full deadline, and cached what `DecisionPath` fills an entry with, and nothing else moved |
| FleetSafety.NextKeeps | backend/src/session.rs:63-73 | every step of every thread keeps the fleet's invariant: indexed fills, covered drops, completed kills, and no publication unheard on a connection that is up |
| FleetRuns.RunInvariant | backend/src/session.rs:63-73 | the invariant holds in every state of every run |
| FleetRuns.RunRemembers | backend/src/decide.rs:87-158 | every stamp of a miss, an entry, a kill or a removal names the very step of its own thread that made it |
| FleetRuns.LatestInsert | backend/src/cache.rs:248-268 | what stands under a key is never older than the last insertion there |
| FleetRuns.InFlightSince | backend/src/admin.rs:112-115 | a miss has been in flight in every state since it authenticated |
| FleetRuns.EntryLived | backend/src/decide.rs:116-158 | every cached entry was made by one miss, in flight without a break: it authenticated this session for this key, added and recorded it, loaded the rules and inserted them, in this order, and nothing has been inserted under the key since |
| FleetTheorems.CutForGood | backend/src/session.rs:248-252 | from its DEL on no session a kill or logout names is live, so none ever authenticates again |
| FleetTheorems.KillSafety | backend/src/admin.rs:112-175 | after an OK, the very miss that filled an entry its instance still holds for a cut session had authenticated before the DEL and inserted after the drop read its keys, and the entry serves for less than TTL after that insertion: the one window the code names is the only one |
| FleetTheorems.KillNamesTheIndexed | backend/src/admin.rs:146-149 | the sessions a kill cuts are exactly those in the index at its SMEMBERS |
| FleetTheorems.AccessEnds | backend/src/admin.rs:112-117 | from any moment after the DEL when no miss for a cut session is in flight, every instance stops serving it within TTL, whatever becomes of publications and flags |
| FleetTheorems.StaleIsPending | backend/src/cache.rs:195-206 | with flag and connection up, an entry older than a publication of its sub has that publication queued or its drop at work on it |
| FleetTheorems.FleetInvalidation | backend/src/session.rs:98-134 | over runs: an entry whose own insertion came before a publication of its sub has that publication queued or its drop at work on it, so none outlives the processing of the queue, or a lost and regained subscription |
| FleetTheorems.FleetKill | backend/src/admin.rs:153-165 | after an OK, at every instance that has worked off the publication, the very miss that filled an entry for a cut session had authenticated before the DEL and inserted after the publication |
| FleetTheorems.HitRefinesMiss | backend/src/decide.rs:87-172 | every hit answers the engine's decision now over the tables as they stood when the rules of that entry were loaded, with the flag up, less than TTL after that entry's insertion, the latest under its key; while the enabled flag and the live rules are the same it answers what a miss would |
| FleetTheorems.HitIsCurrent | backend/src/cache.rs:207-234 | every completed drop of the entry's sub and every completed flush had read its keys before the entry's own insertion |
| FleetTheorems.IndexedAndKillable | backend/src/decide.rs:129-158 | every cached session was added and recorded under its sub by the very miss that cached it, before it did; until the index TTL from that EXPIRE it stays indexed unless a kill of its sub, a logout of that very session, or a lapse between that SADD and that EXPIRE took it out |
| FleetTheorems.IndexedExactly | backend/src/session.rs:173-181 | in every state of every run the index holds a session exactly when its last SADD came after the last kill of its sub, logout of it, and lapse of its set |
| FleetLapse.LapseReached | backend/src/session.rs:174-181 | that lapse is real: for every application, identity and tables there is a run of ten steps, none of them the last step of a kill or logout, at whose end a session recorded within the index TTL is cached and in no index |
| FleetTheorems.EndedExactly | backend/src/session.rs:248-258 | a session is ended exactly when it lived and ended by itself or was named by the DEL of a kill or logout |
| FleetTheorems.RetryCutsAll | backend/src/admin.rs:106-110 | retries among everything else: a session in the index at some moment and not taken out since is cut by any later kill of its sub that answers OK, whatever attempts stopped in between, and is live in no later state |

## Left out

- HTTP plumbing, routing, metrics, timeouts, and the identity headers on an answer: nothing of the guarantees above rests on them.
- Keycloak's Admin API: `logout_all` is a step that answers ok, no such user, or unavailable.
- The real Redis, Postgres and pub/sub clients: atomic operations on sets, maps and queues, and relations over finite tables.
- The time between a connection breaking and the flag coming down: a state named Broken, in which nothing is claimed but what TTL bounds.
- A session recorded for the first time between a kill's SMEMBERS and its last DEL: accepted at TODO.md:156-158; results about a kill are about the sessions its SMEMBERS returned.
- Single-flight: the fleet lets any number of misses for one key run at once, which only adds runs; between the two looks of `DecisionPath.Decided` no other request runs.
- A restart of an instance: its cache is lost with it.
- Services.Redis.Record: the EXPIRE's deadline is not kept, because nothing there waits; the fleet has it, with what follows from it.
- Rewrites and path parameters together: `DenySurvivesRewrites` and `DenySurvivesParams` are separate results, and their combination is not claimed.
- `explain` marks rules by the first reading alone, so an explicit deny found under another reading may have no rule marked.
- The explain endpoint trims group names and the decision path does not (TODO.md:71-72): the two are compared from equal group lists on.
- Refusals of logout before its first step (no caller, foreign origin, no cookie), and the sessions and users lists.
- `validate_upstream`, `validate_hostname`, names and icons, `nginx.rs`, application and entitlement editing, audit retention and partitions, migrations, the frontend apart from its paging loop.
- DecisionCache.Cache.Sweep: states what the sweep does undisturbed; with other threads between its evictions only the balance of `Ledger.RunKeeps` is claimed.
- DecisionCache.Cache.DropSub: likewise undisturbed; what an interleaved drop guarantees is in `FleetTheorems.HitIsCurrent`.
- DecisionCache.Cache.FlushAll: likewise undisturbed, and `FleetTheorems.HitIsCurrent` for an interleaved flush.
- DecisionCache.Cache.SetSubscribed: the flush and the flag change are stated with no other thread between them; the fleet takes them step by step, and `FleetTheorems.HitIsCurrent` and `FleetTheorems.FleetInvalidation` say what then holds.
- KillSwitch.RetriesConverge: the attempts follow one another with nothing in between; among other threads `FleetTheorems.RetryCutsAll` says what a retry cuts.
- Kills that Keycloak refuses: in the fleet every kill begins after Keycloak has answered OK; a refused one changes nothing there.
