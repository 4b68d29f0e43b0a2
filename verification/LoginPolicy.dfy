/** The login and re-authentication policy: failure counting per source and per
    account, one-time nonces, TOTP single use, and the session that a success mints. */
module LoginPolicy {
  import opened Wrappers
  import opened Clocks
  import opened Text
  import Grants
  import Sessions = SessionStore
  import TotpGuard

  const FAIL_WINDOW: real := 300.0
  const FAIL_MAX: nat := 10

  // ----- The failure limiter -----

  /** The failure times of the last window, in order. */
  function Recent(ts: seq<real>, now: real): seq<real> {
    if ts == [] then []
    else Recent(ts[..|ts| - 1], now) + (if now - ts[|ts| - 1] <= FAIL_WINDOW then [ts[|ts| - 1]] else [])
  }

  lemma {:induction false} RecentOfRecent(ts: seq<real>, now: real, later: real)
    requires now <= later
    ensures Recent(Recent(ts, now), later) == Recent(ts, later)
    ensures |Recent(ts, later)| <= |Recent(ts, now)|
  {
    if ts != [] {
      var before, t := ts[..|ts| - 1], ts[|ts| - 1];
      RecentOfRecent(before, now, later);
      assert ts == before + [t];
      RecentSnoc(before, t, now);
      RecentSnoc(before, t, later);
      if now - t <= FAIL_WINDOW {
        RecentSnoc(Recent(before, now), t, later);
      } else {
        assert Recent(ts, now) == Recent(before, now) && Recent(ts, later) == Recent(before, later);
      }
    }
  }

  lemma RecentSnoc(ts: seq<real>, t: real, now: real)
    ensures Recent(ts + [t], now) == Recent(ts, now) + (if now - t <= FAIL_WINDOW then [t] else [])
  {
    assert (ts + [t])[..|ts|] == ts;
  }

  lemma CountSnoc(ts: seq<real>, last: real, t: real)
    ensures multiset(ts + [last])[t] == multiset(ts)[t] + if last == t then 1 else 0
  {
  }

  /** Exactly the failures of the last 300 s are recent, each as often as it was recorded. */
  lemma {:induction false} RecentIs(ts: seq<real>, now: real, t: real)
    ensures multiset(Recent(ts, now))[t] == if now - t <= 300.0 then multiset(ts)[t] else 0
  {
    if ts != [] {
      var before, last := ts[..|ts| - 1], ts[|ts| - 1];
      RecentIs(before, now, t);
      RecentSnoc(before, last, now);
      assert ts == before + [last];
      CountSnoc(before, last, t);
      CountSnoc(Recent(before, now), last, t);
    }
  }

  function Times(m: map<string, seq<real>>, k: string): seq<real> {
    if k in m then m[k] else []
  }

  /** From `from` on, two lists have the same recent times. */
  ghost predicate Agree(a: seq<real>, b: seq<real>, from: real) {
    forall now | now >= from :: Recent(a, now) == Recent(b, now)
  }

  /** From `from` on, a list never has more recent times than the cap. */
  ghost predicate Capped(ts: seq<real>, from: real) {
    forall now | now >= from :: |Recent(ts, now)| <= FAIL_MAX
  }

  lemma TrimAgrees(a: seq<real>, b: seq<real>, from: real, now: real)
    requires Agree(a, b, from) && from <= now
    ensures Agree(Recent(a, now), b, now)
  {
    forall later | later >= now ensures Recent(Recent(a, now), later) == Recent(b, later) {
      RecentOfRecent(a, now, later);
    }
  }

  lemma RecordAgrees(a: seq<real>, b: seq<real>, now: real)
    requires Agree(a, b, now)
    ensures Agree(a + [now], b + [now], now)
  {
    forall later | later >= now ensures Recent(a + [now], later) == Recent(b + [now], later) {
      RecentSnoc(a, now, later);
      RecentSnoc(b, now, later);
    }
  }

  lemma RecordStaysCapped(ts: seq<real>, from: real, now: real)
    requires |Recent(ts, from)| < FAIL_MAX && from <= now
    ensures Capped(ts + [now], now)
  {
    forall later | later >= now ensures |Recent(ts + [now], later)| <= FAIL_MAX {
      RecentSnoc(ts, now, later);
      RecentOfRecent(ts, from, later);
    }
  }

  class RateLimiter {
    var lists: map<string, seq<real>>
    /** Every failure since the key was last cleared. */
    ghost var failures: map<string, seq<real>>
    ghost var seen: real

    /** From the latest reading on, each list counts the same recent failures as the history. */
    ghost predicate Valid()
      reads this
    {
      forall k :: Agree(Times(lists, k), Times(failures, k), seen)
    }

    constructor (now: real)
      ensures Valid() && failures == map[] && seen == now
    {
      lists, failures, seen := map[], map[], now;
    }

    method Allowed(source: string, now: real) returns (ok: bool)
      requires Valid() && now >= seen
      modifies this
      ensures Valid() && failures == old(failures) && seen == now
      ensures ok <==> |Recent(Times(failures, source), now)| < FAIL_MAX
    {
      Trim(source, now);
      ok := |lists[source]| < FAIL_MAX;
    }

    /** The entry, created if absent, cut down to the window. */
    method Trim(source: string, now: real)
      requires Valid() && now >= seen
      modifies this
      ensures Valid() && failures == old(failures) && seen == now
      ensures source in lists && lists[source] == Recent(Times(failures, source), now)
    {
      var entry := if source in lists then lists[source] else [];
      assert Agree(entry, Times(failures, source), seen);
      TrimAgrees(entry, Times(failures, source), seen, now);
      lists := lists[source := Recent(entry, now)];
      seen := now;
      forall k ensures Agree(Times(lists, k), Times(failures, k), seen) {
        assert old(Agree(Times(lists, k), Times(failures, k), seen));
      }
    }

    method Record(source: string, now: real)
      requires Valid() && now >= seen
      modifies this
      ensures Valid() && seen == now
      ensures failures == old(failures)[source := Times(old(failures), source) + [now]]
    {
      Trim(source, now);
      ghost var l, f := lists, failures;
      RecordAgrees(l[source], Times(f, source), now);
      lists := lists[source := lists[source] + [now]];
      failures := f[source := Times(f, source) + [now]];
      forall k ensures Agree(Times(lists, k), Times(failures, k), seen) {
        assert Agree(Times(l, k), Times(f, k), seen);
      }
    }

    method Clear(source: string)
      requires Valid()
      modifies this
      ensures Valid() && failures == old(failures) - {source} && seen == old(seen)
    {
      lists := lists - {source};
      failures := failures - {source};
      forall k ensures Agree(Times(lists, k), Times(failures, k), seen) {
        assert old(Agree(Times(lists, k), Times(failures, k), seen));
      }
    }

    method Sweep(now: real)
      requires Valid() && now >= seen
      modifies this
      ensures Valid() && failures == old(failures) && seen == now
    {
      lists := map k | k in lists && Recent(lists[k], now) != [] :: Recent(lists[k], now);
      seen := now;
      forall k ensures Agree(Times(lists, k), Times(failures, k), seen) {
        assert old(Agree(Times(lists, k), Times(failures, k), seen));
        TrimAgrees(old(Times(lists, k)), Times(failures, k), old(seen), now);
      }
    }
  }

  // ----- The policy -----

  datatype Creds = Creds(expHash: string, totpSecret: string, totpEnabled: bool)

  datatype Attempt = Attempt(username: string, source: string, nonce: string, verifier: string, code: string)

  /** Wall-clock readings, in seconds: when an attempt's code was matched, and when the rest was done. */
  datatype Moment = Moment(seen: nat, wall: nat)

  datatype Outcome = Success | NeedTotp | BadCredentials | BadTotp | RateLimited

  function AccountKey(user: string): string {
    "u:" + user
  }

  /** Sources are addresses, never in the accounts' name space. */
  predicate IsSource(source: string) {
    !("u:" <= source)
  }

  /** Accounts have keys of their own, different from each other and from every source. */
  lemma KeysTellApart(a: string, b: string, source: string)
    ensures AccountKey(a) == AccountKey(b) ==> a == b
    ensures IsSource(source) ==> AccountKey(a) != source
  {
    assert AccountKey(a)[2..] == a && AccountKey(b)[2..] == b;
  }

  /** The failure history with one more failure of `k`, at time `at`. */
  function Counted(failures: map<string, seq<real>>, k: string, at: real): map<string, seq<real>> {
    failures[k := Times(failures, k) + [at]]
  }

  /** The same for a source and, if it exists, an account. */
  function CountedBoth(failures: map<string, seq<real>>, source: string, account: Option<string>, at: real, at2: real)
    : map<string, seq<real>>
  {
    var first := Counted(failures, source, at);
    if account.Some? then Counted(first, account.value, at2) else first
  }

  /** The failures of `k` in the last window leave room for one more. */
  predicate Below(failures: map<string, seq<real>>, k: string, now: real) {
    |Recent(Times(failures, k), now)| < FAIL_MAX
  }

  lemma BelowLasts(failures: map<string, seq<real>>, k: string, now: real, later: real)
    requires Below(failures, k, now) && now <= later
    ensures Below(failures, k, later)
  {
    RecentOfRecent(Times(failures, k), now, later);
  }

  /** Both keys of an attempt are below the cap. */
  predicate BothBelow(failures: map<string, seq<real>>, source: string, account: Option<string>, now: real) {
    Below(failures, source, now) && (account.Some? ==> Below(failures, account.value, now))
  }

  lemma BothBelowLast(failures: map<string, seq<real>>, source: string, account: Option<string>, now: real, later: real)
    requires BothBelow(failures, source, account, now) && now <= later
    ensures BothBelow(failures, source, account, later)
  {
    BelowLasts(failures, source, now, later);
    if account.Some? { BelowLasts(failures, account.value, now, later); }
  }

  class AuthState {
    const rate: RateLimiter
    const challenges: Grants.GrantStore
    const totp: TotpGuard.Guard
    const sessions: Sessions.Store
    const clock: Clock
    /** The verifier check and the TOTP match, taken as given. */
    const verifies: (string, string) -> bool
    const matchedStep: (string, string, nat) -> Option<nat>
    /** The nonces that login attempts have used up. */
    ghost var spent: set<string>
    /** Every matched code that was presented to the guard, in order. */
    ghost var uses: seq<TotpGuard.Use>

    ghost predicate Valid()
      reads this, rate, challenges, totp, clock
    {
      && rate.Valid() && rate.seen <= clock.time
      && challenges.Valid() && challenges.kind == Grants.Challenge
      && spent !! challenges.live.Keys
      && AllCapped()
      && totp.entries == TotpGuard.StateOf(uses)
    }

    /** No key has more than the allowed failures in any window from now on. */
    ghost predicate AllCapped()
      reads this, rate
    {
      forall k :: Capped(Times(rate.failures, k), rate.seen)
    }

    /** The limiter has room for one more failure of `k`. */
    ghost predicate HasRoom(k: string)
      reads this, rate
    {
      |Recent(Times(rate.failures, k), rate.seen)| < FAIL_MAX
    }

    constructor (rate: RateLimiter, challenges: Grants.GrantStore, totp: TotpGuard.Guard, sessions: Sessions.Store,
                 clock: Clock, verifies: (string, string) -> bool, matchedStep: (string, string, nat) -> Option<nat>)
      requires rate.Valid() && rate.seen <= clock.time && rate.failures == map[]
      requires challenges.Valid() && challenges.kind == Grants.Challenge && totp.entries == map[]
      ensures Valid() && spent == {} && uses == []
    {
      this.rate, this.challenges, this.totp, this.sessions, this.clock := rate, challenges, totp, sessions, clock;
      this.verifies, this.matchedStep := verifies, matchedStep;
      spent, uses := {}, [];
    }

    method LoginAllowed(source: string) returns (ok: bool)
      requires Valid()
      modifies rate, clock
      ensures Valid() && rate.failures == old(rate.failures)
      ensures old(clock.time) <= clock.time && old(rate.seen) <= rate.seen
      ensures ok <==> HasRoom(source)
      ensures ok ==> Below(rate.failures, source, clock.time)
    {
      var now := clock.Now();
      ok := rate.Allowed(source, now);
      forall k ensures Capped(Times(rate.failures, k), rate.seen) {
        assert old(Capped(Times(rate.failures, k), rate.seen));
      }
    }

    method RecordFailure(source: string) returns (ghost at: real)
      requires Valid() && HasRoom(source)
      modifies rate, clock
      ensures Valid() && old(clock.time) <= at <= clock.time && old(rate.seen) <= rate.seen
      ensures rate.failures == Counted(old(rate.failures), source, at)
    {
      var now := clock.Now();
      rate.Record(source, now);
      at := now;
      RecordStaysCapped(old(Times(rate.failures, source)), old(rate.seen), now);
      forall k ensures Capped(Times(rate.failures, k), rate.seen) {
        assert old(Capped(Times(rate.failures, k), rate.seen));
      }
    }

    /** Record a failure of the source, then of the account. */
    method CountFailure(source: string, account: Option<string>) returns (ghost at: real, ghost at2: real)
      requires Valid() && HasRoom(source)
      requires account.Some? ==> account.value != source && HasRoom(account.value)
      modifies rate, clock
      ensures Valid() && old(clock.time) <= at <= at2 <= clock.time
      ensures rate.failures == CountedBoth(old(rate.failures), source, account, at, at2)
    {
      at := RecordFailure(source);
      at2 := at;
      if account.Some? {
        RecentOfRecent(Times(rate.failures, account.value), old(rate.seen), rate.seen);
        at2 := RecordFailure(account.value);
      }
    }

    method ClearFailures(source: string)
      requires Valid()
      modifies rate
      ensures Valid() && rate.failures == old(rate.failures) - {source} && rate.seen == old(rate.seen)
    {
      rate.Clear(source);
      forall k ensures Capped(Times(rate.failures, k), rate.seen) {
        assert old(Capped(Times(rate.failures, k), rate.seen));
      }
    }

    method ClearBoth(source: string, account: string)
      requires Valid()
      modifies rate
      ensures Valid() && rate.failures == old(rate.failures) - {source} - {account} && rate.seen == old(rate.seen)
    {
      ClearFailures(source);
      ClearFailures(account);
    }

    /** Consume a nonce on behalf of a login attempt. */
    method ConsumeChallenge(nonce: string) returns (ok: bool)
      requires Valid()
      modifies challenges, clock, this`spent
      ensures Valid() && old(clock.time) <= clock.time
      ensures ok ==> nonce in old(challenges.live) && nonce !in old(spent) && nonce in spent
      ensures ok ==> clock.time - old(challenges.live)[nonce].issued <= 120.0
      ensures !ok ==> nonce == "" || nonce !in old(challenges.live)
                      || clock.time - old(challenges.live)[nonce].issued > 120.0
      ensures old(spent) <= spent <= old(spent) + {nonce} && nonce !in challenges.live
    {
      var now := clock.Now();
      ok := challenges.ConsumeChallenge(nonce, now);
      if nonce in old(challenges.live) { spent := spent + {nonce}; }
    }

    /** The code matches a step that the guard accepts. */
    predicate TotpOk(secret: string, code: string, m: Moment)
      reads totp
    {
      matchedStep(secret, code, m.seen).Some?
      && TotpGuard.Accepts(totp.entries, secret, matchedStep(secret, code, m.seen).value, m.wall)
    }

    /** What the guard has seen after this code: one more use, if the code matches at all. */
    ghost function Presented(secret: string, code: string, m: Moment): (all: seq<TotpGuard.Use>)
      reads this
    {
      match matchedStep(secret, code, m.seen)
      case Some(step) => uses + [TotpGuard.Use(secret, step, m.seen, m.wall)]
      case None => uses
    }

    method VerifyTotpSingleUse(secret: string, code: string, m: Moment) returns (ok: bool)
      requires Valid()
      modifies totp, this`uses
      ensures Valid() && ok == old(TotpOk(secret, code, m)) && uses == old(Presented(secret, code, m))
      ensures ok ==> |uses| == |old(uses)| + 1 && TotpGuard.AcceptedAt(uses, |old(uses)|)
    {
      match matchedStep(secret, code, m.seen) {
        case Some(step) =>
          ok := totp.Consume(secret, step, m.wall);
          uses := uses + [TotpGuard.Use(secret, step, m.seen, m.wall)];
          assert uses[..|old(uses)|] == old(uses);
        case None => ok := false;
      }
    }

    /** The source, and an account that exists, are both under the cap. */
    method AllowedBoth(source: string, account: Option<string>) returns (ok: bool)
      requires Valid()
      modifies rate, clock
      ensures Valid() && rate.failures == old(rate.failures) && old(clock.time) <= clock.time
      ensures ok <==> HasRoom(source) && (account.Some? ==> HasRoom(account.value))
      ensures ok ==> BothBelow(rate.failures, source, account, clock.time)
    {
      ok := LoginAllowed(source);
      if ok && account.Some? {
        ghost var seen := rate.seen;
        ok := LoginAllowed(account.value);
        RecentOfRecent(Times(rate.failures, source), seen, rate.seen);
      }
      if ok { BothBelowLast(rate.failures, source, account, rate.seen, clock.time); }
    }

    /** What every attempt that got past the password has used up. */
    twostate predicate UsedNonce(nonce: string)
      reads this, challenges, clock
    {
      && nonce in old(challenges.live) && nonce !in old(spent) && nonce in spent
      && old(clock.time) - old(challenges.live)[nonce].issued <= 120.0
    }

    /** The nonce is missing, spent, or has expired by now. */
    twostate predicate StaleNonce(nonce: string)
      reads this, challenges, clock
    {
      nonce == "" || nonce !in old(challenges.live) || clock.time - old(challenges.live)[nonce].issued > 120.0
    }

    method CheckProof(expHash: string, nonce: string, verifier: string) returns (ok: bool)
      requires Valid()
      modifies challenges, clock, this`spent
      ensures Valid() && old(clock.time) <= clock.time && old(spent) <= spent
      ensures ok ==> expHash != "" && verifies(expHash, verifier) && UsedNonce(nonce)
      ensures !ok ==> expHash == "" || !verifies(expHash, verifier) || StaleNonce(nonce)
      ensures if expHash == "" then challenges.live == old(challenges.live) else nonce !in challenges.live
    {
      var nonceOk := false;
      if expHash != "" { nonceOk := ConsumeChallenge(nonce); }
      ok := nonceOk && verifies(expHash, verifier);
    }

    /** The key of an account that exists. */
    function Account(creds: Creds, a: Attempt): Option<string> {
      if creds.expHash != "" then Some(AccountKey(a.username)) else None
    }

    /** The throttle and the password: no verdict yet means that both let the attempt past. */
    method FirstFactor(creds: Creds, a: Attempt) returns (verdict: Option<Outcome>, ghost at: real, ghost at2: real)
      requires Valid() && IsSource(a.source)
      modifies this`spent, rate, challenges, clock
      ensures Valid() && old(clock.time) <= at <= at2 <= clock.time && old(spent) <= spent
      ensures rate.failures == if verdict == Some(BadCredentials)
                               then CountedBoth(old(rate.failures), a.source, Account(creds, a), at, at2)
                               else old(rate.failures)
      ensures match verdict
              case None => creds.expHash != "" && verifies(creds.expHash, a.verifier) && UsedNonce(a.nonce)
                           && HasRoom(a.source) && HasRoom(AccountKey(a.username))
              case Some(RateLimited) => !HasRoom(a.source) || (creds.expHash != "" && !HasRoom(AccountKey(a.username)))
              case Some(BadCredentials) =>
                creds.expHash == "" || !verifies(creds.expHash, a.verifier) || StaleNonce(a.nonce)
              case _ => false
      ensures if verdict == Some(RateLimited) || creds.expHash == "" then challenges.live == old(challenges.live)
              else a.nonce !in challenges.live
      ensures verdict != Some(RateLimited) ==>
                BothBelow(old(rate.failures), a.source, Account(creds, a), clock.time)
    {
      at, at2 := clock.time, clock.time;
      var allowed := AllowedBoth(a.source, Account(creds, a));
      if !allowed { return Some(RateLimited), at, at2; }
      ghost var asked := clock.time;
      var pwOk := CheckProof(creds.expHash, a.nonce, a.verifier);
      if !pwOk {
        at, at2 := CountFailure(a.source, Account(creds, a));
        BothBelowLast(old(rate.failures), a.source, Account(creds, a), asked, clock.time);
        return Some(BadCredentials), at, at2;
      }
      BothBelowLast(old(rate.failures), a.source, Account(creds, a), asked, clock.time);
      verdict := None;
    }

    /** The one-time code, if the account asks for one. */
    method SecondFactor(creds: Creds, a: Attempt, m: Moment)
      returns (verdict: Option<Outcome>, ghost at: real, ghost at2: real)
      requires Valid() && IsSource(a.source) && HasRoom(a.source) && HasRoom(AccountKey(a.username))
      modifies this`uses, rate, totp, clock
      ensures Valid() && old(clock.time) <= at <= at2 <= clock.time
      ensures rate.failures == if verdict == Some(BadTotp)
                               then CountedBoth(old(rate.failures), a.source, Some(AccountKey(a.username)), at, at2)
                               else old(rate.failures)
      ensures match verdict
              case None => creds.totpEnabled ==> Trim(a.code) != "" && old(TotpOk(creds.totpSecret, a.code, m))
              case Some(NeedTotp) => creds.totpEnabled && Trim(a.code) == ""
              case Some(BadTotp) => creds.totpEnabled && Trim(a.code) != "" && !old(TotpOk(creds.totpSecret, a.code, m))
              case _ => false
      ensures uses == if creds.totpEnabled && Trim(a.code) != "" then old(Presented(creds.totpSecret, a.code, m)) else old(uses)
      ensures verdict.None? && creds.totpEnabled ==> |uses| == |old(uses)| + 1 && TotpGuard.AcceptedAt(uses, |old(uses)|)
    {
      at, at2, verdict := clock.time, clock.time, None;
      if creds.totpEnabled {
        if Trim(a.code) == "" { return Some(NeedTotp), at, at2; }
        var codeOk := VerifyTotpSingleUse(creds.totpSecret, a.code, m);
        if !codeOk {
          at, at2 := CountFailure(a.source, Some(AccountKey(a.username)));
          verdict := Some(BadTotp);
        }
      }
    }

    /** Forget the failures of a proven attempt and open its session. */
    method Admit(a: Attempt, token: string, m: Moment)
      requires Valid()
      modifies rate, sessions
      ensures Valid() && rate.failures == old(rate.failures) - {a.source} - {AccountKey(a.username)}
      ensures rate.seen == old(rate.seen)
      ensures sessions.sessions == Sessions.MapAfter(old(sessions.sessions),
                Sessions.Issue(sessions.tokenKey(token), a.username, m.wall, sessions.Ttl()))
      ensures sessions.disk == if sessions.persist then sessions.sessions else old(sessions.disk)
      ensures sessions.Ttl() == old(sessions.Ttl())
    {
      ClearBoth(a.source, AccountKey(a.username));
      sessions.Issue(token, a.username, m.wall);
    }

    /** The second factor, and on success the session. */
    method AfterPassword(creds: Creds, a: Attempt, token: string, m: Moment)
      returns (outcome: Outcome, ghost at: real, ghost at2: real)
      requires Valid() && IsSource(a.source) && HasRoom(a.source) && HasRoom(AccountKey(a.username))
      modifies this`uses, rate, totp, sessions, clock
      ensures Valid() && old(clock.time) <= at <= at2 <= clock.time
      ensures rate.failures == match outcome
                               case BadTotp => CountedBoth(old(rate.failures), a.source, Some(AccountKey(a.username)), at, at2)
                               case Success => old(rate.failures) - {a.source} - {AccountKey(a.username)}
                               case _ => old(rate.failures)
      ensures match outcome
              case NeedTotp => creds.totpEnabled && Trim(a.code) == ""
              case BadTotp => creds.totpEnabled && Trim(a.code) != "" && !old(TotpOk(creds.totpSecret, a.code, m))
              case Success => creds.totpEnabled ==> Trim(a.code) != "" && old(TotpOk(creds.totpSecret, a.code, m))
              case _ => false
      ensures uses == if creds.totpEnabled && !outcome.NeedTotp?
                      then old(Presented(creds.totpSecret, a.code, m)) else old(uses)
      ensures outcome.Success? && creds.totpEnabled ==> |uses| == |old(uses)| + 1 && TotpGuard.AcceptedAt(uses, |old(uses)|)
      ensures if outcome.Success?
              then sessions.sessions == Sessions.MapAfter(old(sessions.sessions),
                     Sessions.Issue(sessions.tokenKey(token), a.username, m.wall, sessions.Ttl()))
                   && sessions.disk == if sessions.persist then sessions.sessions else old(sessions.disk)
              else sessions.sessions == old(sessions.sessions) && sessions.disk == old(sessions.disk)
    {
      var verdict;
      verdict, at, at2 := SecondFactor(creds, a, m);
      if verdict.Some? { return verdict.value, at, at2; }
      Admit(a, token, m);
      outcome := Success;
    }

    /** `token` is the session token drawn on success. */
    method VerifyLogin(creds: Creds, a: Attempt, token: string, m: Moment)
      returns (outcome: Outcome, ghost at: real, ghost at2: real)
      requires Valid() && IsSource(a.source)
      modifies this`spent, this`uses, rate, challenges, totp, sessions, clock
      ensures Valid() && old(clock.time) <= at <= at2 <= clock.time && old(spent) <= spent
      // A failure is counted once for the source, and once for an account that exists.
      ensures rate.failures == match outcome
                               case BadCredentials => CountedBoth(old(rate.failures), a.source, Account(creds, a), at, at2)
                               case BadTotp => CountedBoth(old(rate.failures), a.source, Account(creds, a), at, at2)
                               case Success => old(rate.failures) - {a.source} - {AccountKey(a.username)}
                               case _ => old(rate.failures)
      // Getting past the password uses up a nonce at most 120 s old that no attempt had used.
      ensures outcome.Success? || outcome.NeedTotp? || outcome.BadTotp? ==>
                UsedNonce(a.nonce) && creds.expHash != "" && verifies(creds.expHash, a.verifier)
      // A throttled attempt keeps its nonce; any other one for an account that exists loses it.
      ensures if outcome.RateLimited? || creds.expHash == "" then challenges.live == old(challenges.live)
              else a.nonce !in challenges.live
      // A code that got as far as the guard is used up, whether it was accepted or not; an accepted one for good.
      ensures uses == if creds.totpEnabled && (outcome.Success? || outcome.BadTotp?)
                      then old(Presented(creds.totpSecret, a.code, m)) else old(uses)
      ensures outcome.Success? && creds.totpEnabled ==> |uses| == |old(uses)| + 1 && TotpGuard.AcceptedAt(uses, |old(uses)|)
      // Nobody at the cap gets further than the throttle.
      ensures !outcome.RateLimited? ==> BothBelow(old(rate.failures), a.source, Account(creds, a), clock.time)
      // Each outcome has its cause.
      ensures outcome.RateLimited? ==>
                !HasRoom(a.source) || (creds.expHash != "" && !HasRoom(AccountKey(a.username)))
      ensures outcome.BadCredentials? ==>
                creds.expHash == "" || !verifies(creds.expHash, a.verifier) || StaleNonce(a.nonce)
      ensures outcome.NeedTotp? ==> creds.totpEnabled && Trim(a.code) == ""
      ensures outcome.BadTotp? ==>
                creds.totpEnabled && Trim(a.code) != "" && !old(TotpOk(creds.totpSecret, a.code, m))
      ensures outcome.Success? && creds.totpEnabled ==>
                Trim(a.code) != "" && old(TotpOk(creds.totpSecret, a.code, m))
      ensures if outcome.Success?
              then sessions.sessions == Sessions.MapAfter(old(sessions.sessions),
                     Sessions.Issue(sessions.tokenKey(token), a.username, m.wall, sessions.Ttl()))
                   && sessions.disk == if sessions.persist then sessions.sessions else old(sessions.disk)
              else sessions.sessions == old(sessions.sessions) && sessions.disk == old(sessions.disk)
      ensures outcome.Success? ==> var key := sessions.tokenKey(token);
                                   key in sessions.sessions
                                   && sessions.sessions[key] == Sessions.Rec(a.username, m.wall, m.wall)
    {
      var verdict;
      verdict, at, at2 := FirstFactor(creds, a);
      if verdict.Some? { return verdict.value, at, at2; }
      ghost var asked := clock.time;
      outcome, at, at2 := AfterPassword(creds, a, token, m);
      BothBelowLast(old(rate.failures), a.source, Account(creds, a), asked, clock.time);
    }

    method VerifyReauth(creds: Creds, source: string, nonce: string, verifier: string, code: string, m: Moment)
      returns (outcome: Outcome, ghost at: real)
      requires Valid()
      modifies this`spent, this`uses, rate, challenges, totp, clock
      ensures Valid() && old(clock.time) <= at <= clock.time && old(spent) <= spent
      ensures rate.failures == match outcome
                               case BadCredentials => Counted(old(rate.failures), source, at)
                               case BadTotp => Counted(old(rate.failures), source, at)
                               case Success => old(rate.failures) - {source}
                               case _ => old(rate.failures)
      ensures outcome.Success? || outcome.NeedTotp? || outcome.BadTotp? ==>
                UsedNonce(nonce) && creds.expHash != "" && verifies(creds.expHash, verifier)
      ensures outcome.RateLimited? ==> !HasRoom(source)
      ensures if outcome.RateLimited? || creds.expHash == "" then challenges.live == old(challenges.live)
              else nonce !in challenges.live
      ensures !outcome.RateLimited? ==> Below(old(rate.failures), source, clock.time)
      // A code that got as far as the guard is used up, whether it was accepted or not; an accepted one for good.
      ensures uses == if creds.totpEnabled && (outcome.Success? || outcome.BadTotp?)
                      then old(Presented(creds.totpSecret, code, m)) else old(uses)
      ensures outcome.Success? && creds.totpEnabled ==> |uses| == |old(uses)| + 1 && TotpGuard.AcceptedAt(uses, |old(uses)|)
      ensures outcome.BadCredentials? ==>
                creds.expHash == "" || !verifies(creds.expHash, verifier) || StaleNonce(nonce)
      ensures outcome.NeedTotp? ==> creds.totpEnabled && Trim(code) == ""
      ensures outcome.BadTotp? ==>
                creds.totpEnabled && Trim(code) != "" && !old(TotpOk(creds.totpSecret, code, m))
      ensures outcome.Success? && creds.totpEnabled ==>
                Trim(code) != "" && old(TotpOk(creds.totpSecret, code, m))
    {
      at := clock.time;
      var allowed := LoginAllowed(source);
      if !allowed { return RateLimited, at; }
      ghost var asked := clock.time;
      var pwOk := CheckProof(creds.expHash, nonce, verifier);
      if !pwOk {
        at := RecordFailure(source);
        BelowLasts(old(rate.failures), source, asked, clock.time);
        return BadCredentials, at;
      }
      BelowLasts(old(rate.failures), source, asked, clock.time);
      if creds.totpEnabled {
        if Trim(code) == "" { return NeedTotp, at; }
        var codeOk := VerifyTotpSingleUse(creds.totpSecret, code, m);
        if !codeOk {
          at := RecordFailure(source);
          BelowLasts(old(rate.failures), source, asked, clock.time);
          return BadTotp, at;
        }
      }
      ClearFailures(source);
      outcome := Success;
    }

    /** `nonce` is the freshly drawn random token. */
    method IssueChallenge(nonce: string)
      requires Valid() && nonce != "" && nonce !in challenges.live && nonce !in spent
      modifies challenges, clock
      ensures Valid() && old(clock.time) <= clock.time
      ensures nonce in challenges.live && old(clock.time) <= challenges.live[nonce].issued <= clock.time
    {
      var now := clock.Now();
      challenges.Issue(nonce, "", "", now);
      assert forall k | k in challenges.live && k != nonce :: k in challenges.live - {nonce};
    }

    method Sweep()
      requires Valid()
      modifies rate, challenges, clock
      ensures Valid() && old(clock.time) <= clock.time && rate.failures == old(rate.failures)
    {
      var now := clock.Now();
      challenges.Sweep(now);
      rate.Sweep(now);
      forall k ensures Capped(Times(rate.failures, k), rate.seen) {
        assert old(Capped(Times(rate.failures, k), rate.seen));
      }
    }

    /** What the invariant means: at any time from now on, a key's list cut to the last 300 s is
        its failures of those 300 s since the last clear, and never more than the cap. */
    lemma LimiterTellsTruth(k: string, now: real)
      requires Valid() && now >= clock.time
      ensures Recent(Times(rate.lists, k), now) == Recent(Times(rate.failures, k), now)
      ensures |Recent(Times(rate.lists, k), now)| <= FAIL_MAX
    {
      assert Agree(Times(rate.lists, k), Times(rate.failures, k), rate.seen);
      assert Capped(Times(rate.failures, k), rate.seen);
    }

    /** Main result: over any sequence of logins, re-authentications and sweeps, the steps of a
        secret's accepted codes strictly increase, under the timing of `WellTimed`. */
    lemma AcceptedCodesIncrease(i: nat, k: nat)
      requires Valid() && TotpGuard.WellTimed(uses, TotpGuard.MAX_LAG) && i < k < |uses|
      requires uses[i].secret == uses[k].secret && TotpGuard.AcceptedAt(uses, i) && TotpGuard.AcceptedAt(uses, k)
      ensures uses[i].step < uses[k].step
    {
      TotpGuard.AcceptedStepsIncrease(uses, i, k);
    }

    /** Main result: a code is good for the next attempt exactly if it matches a step, and no code of
        that step or a later one was accepted for its secret in the last 300 s. */
    lemma CodeGoodIff(secret: string, code: string, m: Moment)
      requires Valid() && TotpGuard.InClockOrder(Presented(secret, code, m))
      ensures TotpOk(secret, code, m)
              <==> matchedStep(secret, code, m.seen).Some?
                   && !TotpGuard.Repeats(Presented(secret, code, m), |uses|)
    {
      var all := Presented(secret, code, m);
      if matchedStep(secret, code, m.seen).Some? {
        assert all[..|uses|] == uses;
        TotpGuard.AcceptedIff(all, |uses|);
      }
    }

    /** In particular the code of an accepted use is refused for 300 s. */
    lemma SpentCodeRefused(i: nat, secret: string, code: string, m: Moment)
      requires Valid() && TotpGuard.InClockOrder(Presented(secret, code, m)) && i < |uses|
      requires TotpGuard.AcceptedAt(uses, i) && uses[i].secret == secret && m.wall <= uses[i].now + 300
      requires matchedStep(secret, code, m.seen) == Some(uses[i].step)
      ensures !TotpOk(secret, code, m)
    {
      var all := Presented(secret, code, m);
      CodeGoodIff(secret, code, m);
      assert all[..i] == uses[..i] && all[i] == uses[i];
      assert TotpGuard.AcceptedAt(all, i);
    }
  }
}
