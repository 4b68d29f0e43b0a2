# Verified model of the edge proxy and the auth stores

This project models the algorithms of the edge proxy (`crates/dn7-edge`), of the
panel's authentication stores (`src/infra/auth`, `src/app/auth`), of the client's
chunked decoder (`crates/dn7-cli`) and of the bind-mount rule (`src/core`), and
proves what each of them is for. `dafny verify dfyconfig.toml` checks everything.

Code that changes state in place is a class or a method with a loop, proved
against a specification function; what the source promises is then proved about
those functions, over every input, every run or every interleaving.

- `Calendar`, `HttpDate`: the closed-form Gregorian conversions against a calendar
  that counts one day at a time; the date printer and parser (section 5.6.7 of
  RFC 9110); entity tags and the 304 decision.
- `Limiter` on `Ledger`: the per-client token bucket with auto-ban and idle sweeper;
  `LimiterRaces`: readings served out of order; `LimiterSweeps`: when sweeping shows.
- `Throttle`: the paced response body that splits chunks and sleeps.
- `ConnLimit`, `Requests`: guard-counted concurrency, and the way of one request's guard
  through router, proxy, upgrade handshake, response body and tunnel.
- `ContainerCache`: the TTL cache with per-key single flight, as tasks that
  interleave at every lock, release and await, and may be abandoned anywhere.
- `SessionStore`, `SessionExpiry`: the two-lock protocol that mirrors the session map
  on disk, and sliding and absolute expiry, over every interleaving, with restarts
  in between.
- `Grants`: challenges, tickets and step-up grants: one-shot, bound, capped.
- `TotpGuard`: single use of TOTP steps despite pruning.
- `LoginPolicy`, `LoginRaces`: the failure limiter, the order of effects of login and
  re-auth, and what attempts that run at the same time can do to the limiter.
- `RouteTable`, `RouteLaws`: compiling sites to the indexed table, the console's entries, lookup
  by host, certificate resolution, validation and publishing.
- `Locations`: custom path rules, slash collapsing and dispatch.
- `Dechunk`: the chunked-body decoder (section 7.1 of RFC 9112).
- `PathPolicy`: lexical path normalisation and the bind-mount deny rule.
- `Wrappers`, `Sets`, `Bytes`, `Clocks`, `Text`: options and results, sizes of sets,
  bytes, a clock that never goes back, and the string operations taken from the source's library.

Where the code departs from its own words, the model follows the code:

- The date parser's comment lists RFC 850 dates. Their date is one word
  (`06-Nov-94`), so the parser refuses all of them: `HttpDate.HyphenatedDateRefused`.
- The route lookup's comment says that the longest of several matching suffixes
  wins. Under single-label matching no two stored suffixes can match one host, so
  the choice never arises: `RouteTable.MatchUnique`.
- Validation is meant to pass whatever the builder emits with a certificate. It
  fails for a console address that is an IPv6 literal, because the route key is
  bracketed and the certificate key is not: `RouteTable.TlsCompleteIff` gives the
  exact condition, `RouteTable.Ipv6ConsoleRefused` an input.
- Normalised paths are not always fixed points: `/a /` gives `/a `, which gives `/a`
  (`PathPolicy.NotIdempotent`). They are exactly if the last name that no `..` takes
  back does not end in white space: `PathPolicy.IdempotentIff`.
- `check` reads the clock before it takes the table's lock, so two requests can be
  served with their readings exchanged, and the bucket's clock goes back.
  `Limiter.WindowBound` is the bound for readings in order. With `d` readings that lie
  before their predecessor the refill of the window counts d + 1 times, and for no
  limits at all does a smaller factor hold: `LimiterRaces.BoundHoldsIff`, with the runs
  that beat it in `LimiterRaces.OutOfOrderExceeds`.
- For the same reason a ban's misses need not lie in one counting window: a late
  reading joins a count begun after it. With readings at most `late` seconds behind they
  lie in one span of max(window, 1) + late (`Limiter.BanHasCause`), and no shorter span
  will do (`Limiter.BanSpannedIff`, with the run in `Limiter.LateBan`).
- The sweeper drops an idle entry's violations and the beginning of its counting window
  with it. It changes no verdict exactly if the burst is at most 299 times the rate and
  bans need at most one miss; with a threshold of two or more some run in clock order
  tells it: `LimiterSweeps.SweepInvisibleIff`.
- The failure limiter asks and records in two calls, so attempts that run at the same
  time can go past its cap. With at most `c` attempts in flight on a key the failures of
  a window number at most FAIL_MAX - 1 + c, which is attained, and the cap holds
  exactly for c <= 1: `LoginRaces.NeverMoreIff`, `LoginRaces.CapHoldsIff`.
- The TOTP guard forgets a step after 300 s. Accepted steps strictly increase in every
  run exactly if no request takes more than 211 s from matching its code to consuming
  the step: `TotpGuard.NeverReplaysIff`, with the replay in `TotpGuard.LongerLagReplays`.
- At start the session map drops expired records but does not rewrite the file, so
  disk holds their keys until the next save: `SessionStore.QuiescentMirror`, with such a
  start in `SessionStore.StartLeavesExpired`.
- That start goes by the built-in inactivity timeout of 12 hours, since the configured
  one is set only afterwards (`src/web/http/kernel.rs:50-52`). It drops sessions that
  would still resolve exactly if the configured timeout is longer
  (`SessionExpiry.RestartInvisibleIff`), as the default of 24 hours is
  (`src/core/settings/model.rs:148-150`).
- A failed container resolution is meant to evict the key's entry. A request that is
  dropped between the failure and the eviction leaves a stale entry where it was
  (`ContainerCache.AbandonedFailureKeepsEntry`). No read answers from it: `ContainerCache.FailureLeavesNothing`.

## Model

| member | source | states |
|---|---|---|
| Calendar.CivilIsCalendar | crates/dn7-edge/src/static_files.rs:615-626 | for every integer day count, the era arithmetic (with truncating division) gives the date reached from 1970-01-01 one day at a time by the leap-year rule |
| Calendar.CivilSteps | crates/dn7-edge/src/static_files.rs:615-626 | day 0 is 1970-01-01, every result is a valid date, and day z+1 is the next day after day z |
| Calendar.CivilRoundTrip | crates/dn7-edge/src/static_files.rs:613-636 | the two conversions are inverse to each other, on all integers and on all valid dates |
| Calendar.NextDayCounts | crates/dn7-edge/src/static_files.rs:628-636 | the day number of a valid date's successor is one more, across month, leap-day, century and era ends, in negative years too |
| Calendar.CivilInvertsCount | crates/dn7-edge/src/static_files.rs:613-636 | converting the day number of any valid date gives that date back |
| Calendar.EpochOrder | crates/dn7-edge/src/static_files.rs:672-676 | a date's year is below 1970 exactly when its day number is negative, which the parser refuses |
| HttpDate.DateRoundTrip | crates/dn7-edge/src/static_files.rs:594-678 | parsing a printed date gives the second count back, for every unsigned 64-bit count |
| HttpDate.DatesDistinct | crates/dn7-edge/src/static_files.rs:594-611 | no two second counts print the same date |
| HttpDate.PrintsTheCalendar | crates/dn7-edge/src/static_files.rs:594-611 | the printed line names the weekday counted from a Thursday, the date of the day-by-day calendar with the month by its English name, and hour, minute and second, each in its place |
| HttpDate.TwoDigits | crates/dn7-edge/src/static_files.rs:601-610 | a number below 100 is printed with exactly its two decimal digits |
| HttpDate.MonthNames | crates/dn7-edge/src/static_files.rs:589-591 | the table holds the English month names in order, and the parser reads each as its number |
| HttpDate.WeekdayIsCounted | crates/dn7-edge/src/static_files.rs:598-604 | the weekday formula agrees with counting weekdays one day at a time |
| HttpDate.HyphenatedDateRefused | crates/dn7-edge/src/static_files.rs:638-666 | any line of the RFC 850 shape (a weekday of any length, then three words) is refused, whatever its date |
| HttpDate.AsctimeRoundTrip | crates/dn7-edge/src/static_files.rs:658-664 | a date in the asctime shape, with its day padded by a space, parses to its second, for every unsigned 64-bit count |
| HttpDate.ShortYearRoundTrip | crates/dn7-edge/src/static_files.rs:648-657 | a line with a two-digit year parses to the second of the year from 1970 to 2069 that it stands for |
| HttpDate.ClockWithoutSeconds | crates/dn7-edge/src/static_files.rs:668-671 | a time without seconds stands for the full minute |
| HttpDate.EtagInjective | crates/dn7-edge/src/static_files.rs:571-574 | equal entity tags mean equal whole seconds and equal lengths |
| HttpDate.TagEchoDecides | crates/dn7-edge/src/static_files.rs:532-549 | a client that offers one of our tags at any place of a list, weak or not and with any white space around it, is told "not modified" exactly when second and length are unchanged or another offered tag matches |
| HttpDate.StarAlwaysMatches | crates/dn7-edge/src/static_files.rs:543-548 | a star anywhere in the list is "not modified", whatever tag and date the file has |
| HttpDate.OwnTagDecides | crates/dn7-edge/src/static_files.rs:532-549 | a client that echoes our tag alone is told "not modified" iff second and length are unchanged, whatever date it also sends |
| HttpDate.DateEchoDecides | crates/dn7-edge/src/static_files.rs:550-561 | without a tag, a client that echoes a date we printed is told "not modified" iff the file's second is at or before it |
| Limiter.Table.Check | crates/dn7-edge/src/limit.rs:63-125 | the verdict and the key's new entry are those of the specified step, no other key changes, and with no rate the table is untouched |
| Limiter.Table.Sweep | crates/dn7-edge/src/limit.rs:137-146 | exactly the entries with an active ban or activity in the last 300 s stay, unchanged |
| Limiter.TokensStayInRange | crates/dn7-edge/src/limit.rs:63-106 | 0 <= tokens <= rps + burst in every reachable state, in any order of clock readings |
| Limiter.WindowBound | crates/dn7-edge/src/limit.rs:63-106 | over any run in clock order, the `Allow` verdicts in a window [s, t] are at most the tokens held at its start (none for an unknown client, else at most a cap), plus a cap for each creation or ban expiry in it, plus rps * (t - s) |
| Limiter.AllowedByClimb | crates/dn7-edge/src/limit.rs:69-98 | with clock readings in any order, the `Allow` verdicts are at most the tokens held at the start, one cap per creation or ban expiry, and the refill of the forward steps |
| Limiter.DisorderBound | crates/dn7-edge/src/limit.rs:69-98 | with `d` readings before their predecessor, that bound holds with the refill of the window counted d + 1 times |
| LimiterRaces.OutOfOrderExceeds | crates/dn7-edge/src/limit.rs:69-125 | for all limits (rps > 0, auto-ban on or off) and every d, a run with d backward readings is allowed more than that bound with the refill counted d times or fewer |
| LimiterRaces.BoundHoldsIff | crates/dn7-edge/src/limit.rs:69-125 | for all limits, over all runs with at most `d` backward readings, the bound holds with the refill counted k times iff k >= d + 1 |
| Limiter.BanHasCause | crates/dn7-edge/src/limit.rs:100-125 | over any run whose readings are served at most `late` seconds behind (0 in clock order), a ban is only tripped by at least `threshold` misses inside one span of max(window, 1) + late seconds around the trip, and lasts max(minutes, 1) minutes |
| Limiter.BanSpannedIff | crates/dn7-edge/src/limit.rs:109-125 | for a threshold of two and any window, such bans have their misses in one span of a given length iff it is at least max(window, 1) + late |
| Limiter.LateBan | crates/dn7-edge/src/limit.rs:109-119 | a run in which a late reading trips a ban whose two misses lie a window and the whole delay apart |
| Limiter.BanIsReached | crates/dn7-edge/src/limit.rs:100-125 | conversely, enough misses within the counting window do trip it |
| Limiter.BanNeedsNewMisses | crates/dn7-edge/src/limit.rs:80-125 | in any order of readings, a ban tripped after a `Banned` answer, or after a check that began an entry or followed an expired ban, takes `threshold` misses of its own: all but the last are answered `RateLimited` in between |
| Limiter.RestartServes | crates/dn7-edge/src/limit.rs:72-98 | a new client, and one whose ban is over, is allowed exactly rps + burst checks at once |
| Limiter.BanHolds | crates/dn7-edge/src/limit.rs:80-84 | until a ban expires every check says `Banned` and the entry stays as it is, whatever is checked or swept meanwhile |
| LimiterSweeps.SweepInvisibleIff | crates/dn7-edge/src/limit.rs:108-146 | for all limits, dropping idle entries changes no later verdict of any run in clock order iff burst <= 299 * rps and the ban threshold is at most 1 |
| LimiterSweeps.TwoMissesTell | crates/dn7-edge/src/limit.rs:114-119 | with a threshold of two or more, some run in clock order is banned unswept and only rate-limited swept |
| LimiterSweeps.LargeBurstTells | crates/dn7-edge/src/limit.rs:137-146 | with a burst over 299 times the rate, some run is allowed more with the sweep |
| Ledger.SpentIsPaid | crates/dn7-edge/src/limit.rs:92-98 | in a run of accounting entries that each pay for what they spend, the total spent is covered by the level first found, the grants and what time earned |
| Throttle.SlicesKeepBytes | crates/dn7-edge/src/throttle_body.rs:60-85 | slicing a chunk keeps every byte in order, in exactly ceil(n / rate) frames, none empty or above the rate |
| Throttle.OthersPassThrough | crates/dn7-edge/src/throttle_body.rs:87-100 | trailers and a failure come through as they are, in their place among the data |
| Throttle.ThrottledBody.constructor | crates/dn7-edge/src/throttle_body.rs:116-128 | a new body has sent nothing, starts with one second of burst and satisfies the invariant |
| Throttle.ThrottledBody.Refill | crates/dn7-edge/src/throttle_body.rs:32-37 | the bucket gains exactly the elapsed time's worth or is full, never exceeds the rate, and the log stays paid for |
| Throttle.ThrottledBody.PollFrame | crates/dn7-edge/src/throttle_body.rs:44-103 | a poll yields the next frame of the time-independent stream or leaves it as it was, logs each data frame once, ends only when nothing remains, and always terminates; it waits only for a sleep that is armed and not over, no longer than the missing tokens need or a millisecond, or for a wrapped body that is not ready; after an elapsed sleep it delivers |
| Throttle.PollToEnd | crates/dn7-edge/src/throttle_body.rs:44-103 | whoever polls again when woken gets every frame of the body, in at most two polls for each frame, one for each item of the wrapped body, and two more |
| Throttle.ThrottledBody.Conserved | crates/dn7-edge/src/throttle_body.rs:44-103 | at every moment emitted, pending and unread bytes make up the original, in order |
| Throttle.ThrottledBody.IsEndStream | crates/dn7-edge/src/throttle_body.rs:105-107 | end of stream is reported exactly when the wrapped body reports it and nothing is pending, and only when no frame is left |
| Throttle.WindowRate | crates/dn7-edge/src/throttle_body.rs:32-103 | with the log invariant that every poll keeps, the bytes emitted in any window [s, t] are at most rate * (1 + (t - s)) |
| Throttle.WindowsEmit | crates/dn7-edge/src/throttle_body.rs:60-81 | an emission that the bucket pays for keeps the bound between every two emissions |
| ConnLimit.ConnTable.Acquire | crates/dn7-edge/src/conn_limit.rs:85-99 | admits iff fewer than `max` guards of the key are live, adds exactly one guard if so and changes nothing else, and stores no zero entry |
| ConnLimit.ConnTable.Release | crates/dn7-edge/src/conn_limit.rs:66-78 | takes away exactly the one guard, never below zero, and removes an entry that reaches zero |
| Requests.Edge.ProxyHandle | crates/dn7-edge/src/proxy.rs:166-272 | on every path (413, unresolvable, bad URI, plain, upgrade) the guard comes back, goes into a tunnel or is freed, one of the three; into a tunnel only when the upstream answered an upgrade with 101 |
| Requests.Edge.WsHandshake | crates/dn7-edge/src/proxy.rs:675-774 | the tunnel owns the guard iff the handshake works and the answer is 101; otherwise it is freed, and the client is never told 101 |
| Requests.Edge.Serve | crates/dn7-edge/src/router.rs:200-276 | a limited request is turned away exactly at its limit; the guard of an admitted one ends with its response body unless it was an upgrade that reached the upstream, and then with its tunnel if the client was answered 101 and freed if not; no other guard moves |
| Requests.Edge.SlotsAreOwned | crates/dn7-edge/src/conn_limit.rs:59-78 | between requests a key's count is the number of the bodies, tunnels and other handlers that own a guard of it |
| Requests.RunAccounts | crates/dn7-edge/src/conn_limit.rs:66-99 | over every interleaving of requests, a key's count is the number of its live guards, no zero entry is stored, and the count never exceeds the key's limit |
| Requests.SlotLifetime | crates/dn7-edge/src/router.rs:267-276 | after its handler returned, a slot is held at any later time iff its response body has not drained, or its tunnel has not ended if an upgrade was answered 101; not at all after an upgrade that failed or was declined |
| ContainerCache.PruningInvisible | crates/dn7-edge/src/proxy.rs:380-392 | pruning old entries changes the answer of no later read, for any key |
| ContainerCache.Maps.GateFor | crates/dn7-edge/src/proxy.rs:336-343 | one gate per key, created once and never shared between keys |
| ContainerCache.Maps.Store | crates/dn7-edge/src/proxy.rs:360-365 | storing sets the key's entry and drops exactly the entries of 300 s and more |
| ContainerCache.SingleFlight | crates/dn7-edge/src/proxy.rs:334-357 | in every interleaving at most one daemon call per key is in flight |
| ContainerCache.AnswersAreTold | crates/dn7-edge/src/proxy.rs:325-377 | in every interleaving, an answer is what the daemon told that very task; or what it had told the last task to store for the key before the read of the cache, less than 3 s before |
| ContainerCache.NoCallWhileFresh | crates/dn7-edge/src/proxy.rs:344-349 | a waiter that gets the gate within 3 s of the key's last store makes no daemon call and answers with the address and time of that store |
| ContainerCache.FirstReadHits | crates/dn7-edge/src/proxy.rs:328-332 | a request within 3 s of the last store for its key is answered by its first read, with that address |
| ContainerCache.FailureLeavesNothing | crates/dn7-edge/src/proxy.rs:366-375 | from a failed resolution on, in every interleaving and whether or not the request lives to evict, no read finds a fresh entry for the key until a later success stores one |
| ContainerCache.EvictionLeavesNoEntry | crates/dn7-edge/src/proxy.rs:366-375 | once the failed request has evicted, the key has no entry until such a success |
| ContainerCache.AbandonedFailureKeepsEntry | crates/dn7-edge/src/proxy.rs:345-376 | a run in which a resolution fails while a stale entry for its key is in the cache, the request is dropped, and the entry stays |
| ContainerCache.EntryStaysYoung | crates/dn7-edge/src/proxy.rs:360-392 | in every interleaving an entry stays as it is for 300 s, unless a task of its key stores another or evicts it after a failure |
| ContainerCache.RunKeeps | crates/dn7-edge/src/proxy.rs:313-391 | every reachable state has disjoint gate holders, and entries no newer than the clock that are the last stored for their keys |
| SessionExpiry.RestartInvisibleIff | src/infra/auth/session.rs:29-43 | what a start keeps resolves exactly as the stored map would have at any later time, iff the configured timeout is at most the built-in one |
| SessionStore.Store.Issue | src/infra/auth/session.rs:81-100 | the map is pruned and gains the record of the token's key; the disk has the map |
| SessionStore.Store.Identity | src/infra/auth/session.rs:106-138 | resolves iff the key's record is live, slides only that record's last use, keeps its issue time, and writes only after 300 s |
| SessionStore.Store.RevokeUser | src/infra/auth/session.rs:148-155 | exactly the user's records go, save the kept token's, in memory and on disk |
| SessionStore.Store.Sweep | src/infra/auth/session.rs:157-168 | exactly the expired records go, and the disk is written iff one went |
| SessionExpiry.ResolvesOnlyInTime | src/infra/auth/session.rs:48-51 | in every interleaving of calls and saves, across restarts, a session resolves only within 604800 s of its issue and within ttl of its latest use |
| SessionExpiry.ResolvesAfterPreviousUse | src/infra/auth/session.rs:106-138 | under a clock that does not go back for that key, within ttl of its previous use |
| SessionExpiry.RunStaysTruthful | src/infra/auth/session.rs:68-138 | memory, disk and every snapshot in flight carry each key's time of issue, and no use later than it had |
| SessionExpiry.BookTellsHistory | src/infra/auth/session.rs:81-138 | the recorded time of issue is that of the key's issuing call or first file, and the latest use is the last one under such a clock |
| SessionExpiry.ResolvesSincePreviousUse | src/infra/auth/session.rs:106-138 | until the next restart, within ttl of exactly the previous use, whatever the clock does |
| SessionExpiry.RecordsTellHistory | src/infra/auth/session.rs:81-138 | until the next restart a record carries the times of its key's last issue and last use |
| SessionStore.DroppedStaysOff | src/infra/auth/session.rs:68-79 | in every interleaving of calls, with `save` split into lock, snapshot, write and unlock: once the call that dropped a key has returned, the key is neither on disk nor in memory, and resolves never again, restarts included |
| SessionStore.ReturnedStays | src/infra/auth/session.rs:140-155 | a returned call stays returned with its dropped keys in every later state, so the guarantee above is permanent |
| SessionStore.RevokedStaysOff | src/infra/auth/session.rs:140-146 | once `revoke` of a key has returned, the key is on neither disk nor memory in any later state of any interleaving, restarts included, and never resolves |
| SessionExpiry.UserRevokedStaysOff | src/infra/auth/session.rs:148-155 | once `revoke_user` has returned, no session issued to that user before, save the one to keep, is on disk or in memory in any later state of any interleaving, restarts included, or resolves |
| SessionExpiry.RevokeUserTakes | src/infra/auth/session.rs:148-153 | its section under the map lock takes exactly those from memory and leaves every other record as it is |
| SessionExpiry.AnswersItsOwner | src/infra/auth/session.rs:106-138 | in every interleaving, a resolved token answers the owner that its session was issued to |
| SessionExpiry.SparedSessionResolves | src/infra/auth/session.rs:48-138 | until the next restart, a session that no call revokes, and that every pruning call and every use finds within both time limits, resolves to its owner |
| SessionStore.StartLeavesExpired | src/infra/auth/session.rs:29-43 | those expired keys are real: a start leaves on disk and out of memory exactly the keys of the records expired then, for instance a record last used 12 hours and a second before |
| SessionStore.QuiescentMirror | src/infra/auth/session.rs:15-26 | when no call is in progress, disk and memory hold the same keys, plus on disk the expired keys found at the last start |
| SessionStore.WriteErasesLeftovers | src/infra/auth/session.rs:29-43 | those expired keys are gone from the first write on, until the next restart |
| SessionStore.RunKeeps | src/infra/auth/session.rs:68-168 | the lock is exclusive, no snapshot in flight holds a key dropped by a returned call, and the last snapshot mirrors memory unless one is due |
| Grants.GrantStore.MakeRoom | src/infra/auth/challenge.rs:18-26 | the eviction loop ends below the cap and evicts only grants no newer than any it keeps |
| Grants.GrantStore.Issue | src/infra/auth/challenge.rs:13-29 | expired grants go, the oldest make room, the new one is stored |
| Grants.GrantStore.ConsumeChallenge | src/infra/auth/challenge.rs:31-40 | accepted iff present and at most 120 s old, and removed in every case |
| Grants.GrantStore.ConsumeTicket | src/infra/auth/ticket.rs:52-69 | owner returned iff purpose and age match; a mismatch removes nothing |
| Grants.GrantStore.ConsumeStepUp | src/infra/auth/stepup.rs:59-78 | accepted iff the user matches and it is in time; a wrong user removes nothing |
| Grants.AcceptedOnce | src/infra/auth/challenge.rs:31-40 | over any run of issues, consumptions, revocations and sweeps, a grant is accepted at most once |
| Grants.AcceptedInTime | src/infra/auth/ticket.rs:52-69 | every acceptance answers an earlier issue of that grant, for that user or purpose, within its TTL |
| Grants.RevokedNeverAccepted | src/infra/auth/stepup.rs:80-85 | after a user is revoked, no grant issued to that user before is accepted any more |
| Grants.NeverOverCap | src/infra/auth/ticket.rs:23-47 | no store ever holds more than its cap |
| Grants.LiveGrantLeaves | src/infra/auth/stepup.rs:30-93 | a live grant leaves only by acceptance, by its user's revocation, or as one of the oldest when the store is full of live grants |
| Grants.RightHolderAccepted | src/infra/auth/stepup.rs:30-93 | over any run in clock order, a grant presented within its TTL by whoever it is for is accepted, whatever wrong users or purposes presented it before, unless it was presented rightly before, its user was revoked, or a store's worth of grants was issued no earlier than it |
| TotpGuard.Guard.Consume | src/infra/auth/totp_guard.rs:37-60 | accepts iff no unpruned entry has this step or a later one; a refusal only prunes |
| TotpGuard.AcceptedStepsIncrease | src/infra/auth/totp_guard.rs:31-60 | over an unbounded run, the accepted steps of a secret strictly increase despite the pruning, for steps within one of the clock they were matched at and a lag of at most 211 s |
| TotpGuard.AcceptedIff | src/infra/auth/totp_guard.rs:37-60 | in every run in clock order, a step is accepted iff no step as new or newer was accepted for its secret in the last 300 s |
| TotpGuard.StepsMoveOn | src/infra/auth/totp_guard.rs:29-43 | by the time an entry can be pruned, every step that can still be presented is newer |
| TotpGuard.LongerLagReplays | src/infra/auth/state.rs:160-165 | for every longer lag, a run in which the same step is accepted twice |
| TotpGuard.NeverReplaysIff | src/infra/auth/totp_guard.rs:31-60 | accepted steps strictly increase in every run of requests that take at most `lag` seconds, iff lag <= 211 |
| LoginPolicy.RateLimiter.Allowed | src/infra/auth/rate.rs:13-19 | true iff fewer than the allowed failures lie in the last 300 s of the key's true history |
| LoginPolicy.RateLimiter.Record | src/infra/auth/rate.rs:21-27 | the key's true history gains exactly this failure and its list stays in agreement |
| LoginPolicy.RateLimiter.Sweep | src/infra/auth/rate.rs:36-43 | sweeping forgets nothing that any later decision needs |
| LoginPolicy.AuthState.VerifyLogin | src/app/auth/service.rs:60-110 | no attempt gets past the throttle with its source, or its existing account, at the cap; each outcome has its cause; failures are counted once for the source and once for an existing account and cleared on success; a throttled attempt keeps its nonce; getting past the password used up a nonce issued at most 120 s before that no attempt had used; a code that reached the guard is used up; only a success touches the sessions, and opens one for its user |
| LoginPolicy.AuthState.CodeGoodIff | src/infra/auth/state.rs:160-165 | after any sequence of logins and re-authentications, a code is good for the next one iff it matches a step and no code of that step or a later one was accepted for its secret in the last 300 s |
| LoginPolicy.AuthState.SpentCodeRefused | src/infra/auth/state.rs:155-165 | the code of an accepted attempt is refused for 300 s |
| LoginPolicy.AuthState.AcceptedCodesIncrease | src/infra/auth/state.rs:155-165 | over any such sequence the steps of a secret's accepted codes strictly increase, with the timing of the guard's runs |
| LoginPolicy.KeysTellApart | src/infra/auth/state.rs:118-136 | accounts have limiter keys different from each other and from every source |
| LoginPolicy.AuthState.VerifyReauth | src/app/auth/service.rs:145-175 | the same for re-authentication, with the source only and no session |
| LoginPolicy.AuthState.ConsumeChallenge | src/infra/auth/state.rs:149-153 | a nonce is good once: it was live, no more than 120 s old, not spent before, and is spent now |
| LoginPolicy.AuthState.LimiterTellsTruth | src/infra/auth/rate.rs:13-43 | at any time after any sequence of attempts and sweeps, a key's list cut to 300 s is its failures of those 300 s since its last clear, and never more than the cap |
| LoginPolicy.RecentOfRecent | src/infra/auth/rate.rs:17-25 | trimming early loses nothing for a later trim |
| LoginPolicy.RecentIs | src/infra/auth/rate.rs:17 | exactly the failures of the last 300 s are kept, each as often as it was recorded |
| LoginRaces.FailuresInFlight | src/app/auth/service.rs:65-109 | in every interleaving of the limiter's calls, with at most `c` attempts in flight on a key, its failures of the last 300 s and the attempts in flight together are at most FAIL_MAX - 1 + c |
| LoginRaces.NeverMoreIff | src/app/auth/service.rs:65-109 | FAIL_MAX - 1 + c is the least such bound for every c > 0 |
| LoginRaces.CapHoldsIff | src/infra/auth/rate.rs:13-34 | the cap holds in every run iff at most one attempt is in flight on the key |
| RouteTable.BuildRuntime | crates/dn7-edge/src/build.rs:58-172 | succeeds iff the lowercased server names over all sites are pairwise distinct, and then returns the table given declaratively by the site list |
| RouteLaws.ClaimsAreDeclared | crates/dn7-edge/src/build.rs:119-167 | the claims that the table is built from are exactly the words of the sites' server names, lowercased, each with its own site's route and certificate |
| RouteLaws.RouteTellsSite | crates/dn7-edge/src/build.rs:94-142 | a route has its site's id, TLS iff the site asks for it and its pair loads, the redirect iff it has TLS too, its kind with the local root before the joined one, and exactly its declared locations but a bare slash on a proxy |
| RouteTable.IndexHosts | crates/dn7-edge/src/build.rs:151-167 | indexing a site's names succeeds iff the names so far stay distinct, and adds exactly those |
| RouteTable.IndexCerts | crates/dn7-edge/src/build.rs:144-149 | the certificate is stored under each of the site's names, last writer first |
| RouteTable.ExactNameFindsSite | crates/dn7-edge/src/config.rs:59-62 | every exact name not reserved by the console looks up its own site |
| RouteTable.WildcardHostFindsSite | crates/dn7-edge/src/config.rs:63-87 | every single-label host under a `*.` name, with no exact entry, looks up that name's site |
| RouteTable.OtherHostsFallThrough | crates/dn7-edge/src/config.rs:59-76 | any other host finds nothing, or the plain console before initialisation |
| RouteTable.ReservedReachConsole | crates/dn7-edge/src/build.rs:181-278 | the loopback names and the external address always reach the console, whatever the sites claim: in plain on the former, under TLS on the latter iff its certificate loads, and with the redirect iff it is initialised too |
| RouteLaws.ConsoleAlwaysThere | crates/dn7-edge/src/build.rs:214-278 | the plain console is the route of a listener of its own, and the fallback exactly until it is initialised |
| RouteTable.MatchUnique | crates/dn7-edge/src/config.rs:82-87 | at most one suffix can match a host |
| RouteLaws.WildcardIsOneLabel | crates/dn7-edge/src/config.rs:78-87 | a wildcard stands for exactly one non-empty label without a dot |
| RouteTable.WildcardOrderIrrelevant | crates/dn7-edge/src/config.rs:63-72 | lookup does not depend on the order of the stored wildcards |
| RouteTable.ResolveIffCovered | crates/dn7-edge/src/config.rs:444-460 | a certificate resolves iff there is a default or an indexed name covers the host |
| RouteLaws.ExactNameGetsItsCert | crates/dn7-edge/src/config.rs:444-449 | a client that names a site's exact name gets that site's certificate, unless the console's has the same name |
| RouteLaws.WildcardHostGetsItsCert | crates/dn7-edge/src/config.rs:450-457 | a client that names a host under a wildcard, without a certificate of its own, gets the wildcard's site's |
| RouteLaws.ConsoleGetsItsCert | crates/dn7-edge/src/build.rs:254-261 | a client that names the console's address without brackets gets the console's certificate |
| RouteLaws.OthersGetDefaultCert | crates/dn7-edge/src/config.rs:441-460 | a host that no certificate name covers, and a client that names none, gets the default |
| RouteTable.TlsCompleteIff | crates/dn7-edge/src/build.rs:242-269 | every TLS route of a compiled table resolves a certificate under the host that is checked, unless the console's named route is on, has TLS, and no default and no indexed name covers its key; which takes an address with brackets |
| RouteTable.PlainConsoleCovered | crates/dn7-edge/src/validate.rs:15-46 | so it always does when the console's address carries no brackets |
| RouteTable.Ipv6ConsoleRefused | crates/dn7-edge/src/build.rs:254-261 | an IPv6 console address with TLS and no default certificate is refused |
| RouteTable.Edge.Reload | crates/dn7-edge/src/reload.rs:17-23 | succeeds iff the names are distinct and the table validates; publishes the compiled table then and leaves the live one otherwise |
| RouteLaws.AcceptedIff | crates/dn7-edge/src/validate.rs:15-62 | what reloading accepts, on the declared sites alone: pairwise distinct names, a certificate for the console's own route, locations and static roots that start with a slash for every name that is not the console's, and a target for a redirecting default |
| RouteLaws.LiveIsLastPassed | crates/dn7-edge/src/reload.rs:17-23 | after any sequence of reloads the live table is that of the last input that was accepted |
| RouteLaws.LiveIsInitial | crates/dn7-edge/src/store.rs:16-21 | and the initial one if none was |
| RouteTable.LiveIsValidated | crates/dn7-edge/src/store.rs:18-33 | after any sequence of reloads the live table is the initial one, or the compiled and validated table of one of the inputs, with every TLS route covered |
| RouteTable.HostKeyOfName | crates/dn7-edge/src/router.rs:384-401 | a host name with or without a port gives the lowercased name |
| RouteTable.HostKeyOfLiteral | crates/dn7-edge/src/router.rs:384-401 | a bracketed literal keeps its brackets and loses what follows them |
| RouteLaws.HostKeyOfOther | crates/dn7-edge/src/router.rs:386-400 | a value with several colons and no bracket, and a bracket that never closes, are only lowercased |
| RouteTable.RequestReachesSite | crates/dn7-edge/src/router.rs:384-401 | a request that spells a site's exact name in any case, with or without a port, reaches that site |
| Locations.DispatchIsLongest | crates/dn7-edge/src/build.rs:333-360 | the first match in the stored order is a longest matching rule, and there is none iff no rule matches |
| Locations.BuildKeeps | crates/dn7-edge/src/build.rs:333-356 | a site's rules are exactly the declared ones, but for a bare slash on a proxy site |
| Locations.SegmentsDecide | crates/dn7-edge/src/router.rs:304-320 | a rule other than the bare slash matches exactly the paths whose segments begin with its own |
| Locations.DispatchIgnoresOrder | crates/dn7-edge/src/router.rs:230-234 | the prefix that is dispatched to does not depend on the order the rules were given in |
| Locations.EqualLengthSamePrefix | crates/dn7-edge/src/router.rs:308-320 | two rules of equal length that match one path have the same prefix |
| Locations.CollapseSlashes | crates/dn7-edge/src/router.rs:284-302 | the loop and its borrowed fast path compute the same collapsed path |
| Locations.CollapseLaws | crates/dn7-edge/src/router.rs:284-302 | collapsing leaves no double slash, does nothing the second time, and keeps the non-empty segments in order |
| Dechunk.Dechunk | crates/dn7-cli/src/client.rs:325-343 | on any bytes the loop stays in bounds, terminates and returns what the recursive decoder does |
| Dechunk.FindCrlf | crates/dn7-cli/src/client.rs:346-348 | the first CRLF, or none when there is none |
| Dechunk.DechunkInverts | crates/dn7-cli/src/client.rs:325-343 | for every list of non-empty chunks of any bytes, any spelling of the sizes and any trailers, decoding the encoding returns the concatenation |
| Dechunk.DechunkContinues | crates/dn7-cli/src/client.rs:325-343 | whole chunks are decoded whatever bytes follow them |
| Dechunk.StopsIff | crates/dn7-cli/src/client.rs:328-336 | decoding stops, and drops the rest, exactly at bytes without a line end, at a size of zero or that cannot be read, and at a chunk cut short |
| Dechunk.MissingLineEnd | crates/dn7-cli/src/client.rs:338-340 | a chunk whose data has no line end after it is decoded all the same |
| Dechunk.PlainEncodingDecodes | crates/dn7-cli/src/client.rs:325-343 | the same for data chunks encoded with lowercase hexadecimal size lines |
| Dechunk.DecodedSelects | crates/dn7-cli/src/client.rs:325-343 | on arbitrary input the output is a selection of the input's bytes, in order |
| Dechunk.HexLineSize | crates/dn7-cli/src/client.rs:329-332 | a hexadecimal size line of any 64-bit size is read back as that size |
| PathPolicy.NormalizeLexical | src/core/path/normalize.rs:13-29 | the stack loop returns the rendering of the resolved segments |
| PathPolicy.NormalForm | src/core/path/normalize.rs:13-29 | the result is absolute and has no empty, `.` or `..` segment |
| PathPolicy.IdempotentIff | src/core/path/normalize.rs:13-29 | normalising twice is normalising once, exactly when the last name of the path that no later `..` takes back does not end in white space |
| PathPolicy.NotIdempotent | src/core/path/normalize.rs:15 | a path whose normal form normalises further |
| PathPolicy.IdempotentIfPiecesTight | src/core/path/normalize.rs:13-29 | it is enough that no piece between slashes ends in white space |
| PathPolicy.IdempotentWithoutSpace | src/core/path/normalize.rs:13-29 | so it is for every path without white space |
| PathPolicy.DetoursVanish | src/core/path/normalize.rs:15-23 | inserting `//`, `/./` or `seg/..` at any slash changes nothing |
| PathPolicy.RootIsTop | src/core/path/normalize.rs:18-20 | a step up from the root stays at the root |
| PathPolicy.CleanPathStays | src/core/path/normalize.rs:13-29 | a path that is clean already, without white space at its end, stays as it is |
| PathPolicy.DeniedIffBySegments | src/core/docker/policy.rs:176-193 | a bind is denied iff the resolved path is the root, starts with a listed segment, or is one of the two socket paths |
| PathPolicy.DetoursDoNotMatter | src/core/docker/policy.rs:176-193 | no such insertion changes a bind's verdict |

## Left out

- Floating point: the limiter's tokens and the throttle's allowance are reals; rounding is not modelled.
- Machine widths: `rps + burst` is taken to fit its 32 bits, and the date parser's sums its 64 bits; the parsers' own range checks are modelled.
- Monotone clocks: `Instant` never goes back in the model. The wall clock of the session store is an argument of each call and may go back; the TOTP runs take it to be monotone.
- Client keys: the route hash and the cut of IPv6 addresses to /64 are left out; a key is a parameter.
- Text outside ASCII: white space, case folding and size lines are those of the ASCII range. Chunk extensions make a size line unreadable, as in the code, and stop the decoder.
- Tokens and hashes: tokens are fresh, token hashes are distinct keys, the verifier check and the TOTP match are given functions.
- Session file: writes are taken to succeed. How far the stored `last` stamps lag behind is not stated, only the key set. The interleavings are those of a store with a file; without one only the class applies.
- Grants: the three stores are one class with a kind, since their maps, eviction and sweeps are the same code; the façade's `revoke_user` over several stores is their separate calls.
- LoginPolicy.AuthState.VerifyLogin: attempts run one at a time; `must_setup` and the rehash advice are not modelled.
- LoginPolicy.AuthState.LimiterTellsTruth: the cap is claimed for attempts one at a time; `LoginRaces` says what concurrent ones come to.
- Limiter.WindowBound: asks for clock readings in order, since the bound is false otherwise (`LimiterRaces.BoundHoldsIff`).
- LimiterSweeps.SweepInvisibleIff: compares runs in clock order; what a sweep with a late reading does is not stated.
- TotpGuard.AcceptedStepsIncrease: asks for a lag of at most 211 s between matching and consuming, since it is false for any longer one (`TotpGuard.NeverReplaysIff`).
- Throttle: a rate of 0 leaves the body unwrapped and is not an instance of the class; size hints are left out; the inner body is the list of what its polls yield.
- Requests: a key's limit is fixed during a run; header values, bodies and the global connection permit are left out; what the upstream answers at each await is arbitrary.
- ContainerCache: the daemon's answers, and when it fails or times out, are arbitrary; a wait on the map's own locks is one step.
- RouteTable: certificates are numbers looked up by file stem; access lists, rate limits, hotlink rules, tuning, extra headers and upstream specs are carried nowhere; error texts and the order in which a hash map is visited are left out, so which of several errors is reported is not stated; whether a string is an IPv6 literal is a given predicate.
- Locations: upstream targets are one opaque field; the library's stable sort is an insertion sort.
- Static files: percent decoding, path resolution, ranges, compression and reading files.
- Sockets, TLS handshakes, header rewriting, body limits, timeouts, user creation and removal, the console, the web terminal, Docker calls and the command line.
