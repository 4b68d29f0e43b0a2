/** The per-client request limiter of the edge: a token bucket that feeds an
    auto-ban, and the sweeper that drops idle entries. Seconds are reals. */
module Limiter {
  import opened Wrappers
  import opened Ledger

  datatype Limits = Limits(reqPerSec: nat, burst: nat, banThreshold: nat, banWindow: nat, banMinutes: nat)

  datatype Verdict = Allow | RateLimited | Banned

  datatype Bucket = Bucket(tokens: real, last: real, violations: nat, vwindow: real, bannedUntil: Option<real>)

  const IDLE_SECS: real := 300.0

  function Cap(rl: Limits): real {
    (rl.reqPerSec + rl.burst) as real
  }

  function Min(a: real, b: real): real {
    if a < b then a else b
  }

  function Max1(n: nat): real {
    if n == 0 then 1.0 else n as real
  }

  function FreshBucket(now: real, rl: Limits): Bucket {
    Bucket(Cap(rl), now, 0, now, None)
  }

  function Lookup<K, V>(m: map<K, V>, k: K): Option<V> {
    if k in m then Some(m[k]) else None
  }

  // ----- What one check and one sweep do to one client's entry -----

  predicate BanActive(s: Option<Bucket>, now: real) {
    s.Some? && s.value.bannedUntil.Some? && now < s.value.bannedUntil.value
  }

  predicate BanExpired(s: Option<Bucket>, now: real) {
    s.Some? && s.value.bannedUntil.Some? && now >= s.value.bannedUntil.value
  }

  /** The entry a check refills: a new client and an expired ban start full. */
  function Started(s: Option<Bucket>, now: real, rl: Limits): Bucket {
    if s.None? then FreshBucket(now, rl)
    else if BanExpired(s, now) then s.value.(bannedUntil := None, violations := 0, tokens := Cap(rl), last := now)
    else s.value
  }

  function Refilled(s: Option<Bucket>, now: real, rl: Limits): Bucket {
    var st := Started(s, now, rl);
    st.(tokens := Min(st.tokens + Worth(now, st.last, rl.reqPerSec), Cap(rl)), last := now)
  }

  function Violation(st: Bucket, now: real, rl: Limits): (Bucket, Verdict) {
    if rl.banThreshold == 0 then (st, RateLimited)
    else
      var counted := if Elapsed(now, st.vwindow) > Max1(rl.banWindow)
                     then st.(violations := 1, vwindow := now)
                     else st.(violations := st.violations + 1);
      if counted.violations >= rl.banThreshold
      then (counted.(bannedUntil := Some(now + Max1(rl.banMinutes) * 60.0)), Banned)
      else (counted, RateLimited)
  }

  function CheckEntry(s: Option<Bucket>, now: real, rl: Limits): (Bucket, Verdict) {
    if BanActive(s, now) then (s.value, Banned)
    else
      var st := Refilled(s, now, rl);
      if st.tokens >= 1.0 then (st.(tokens := st.tokens - 1.0), Allow) else Violation(st, now, rl)
  }

  predicate Survives(st: Bucket, now: real) {
    (st.bannedUntil.Some? && now < st.bannedUntil.value) || Elapsed(now, st.last) < IDLE_SECS
  }

  // ----- The table the edge mutates -----

  class Table<Key(==, !new)> {
    var entries: map<Key, Bucket>

    constructor ()
      ensures entries == map[]
    {
      entries := map[];
    }

    method Check(k: Key, now: real, rl: Limits) returns (v: Verdict)
      modifies this
      ensures rl.reqPerSec == 0 ==> v == Allow && entries == old(entries)
      ensures rl.reqPerSec > 0 ==>
                (Some(v), Lookup(entries, k)) == (StepVerdict(old(Lookup(entries, k)), CheckAt(now), rl),
                                                  Step(old(Lookup(entries, k)), CheckAt(now), rl))
      ensures forall k' | k' != k :: Lookup(entries, k') == old(Lookup(entries, k'))
    {
      if rl.reqPerSec == 0 { return Allow; }
      ghost var was := Lookup(entries, k);
      var cap := Cap(rl);
      var st := if k in entries then entries[k] else Bucket(cap, now, 0, now, None);
      if st.bannedUntil.Some? {
        if now < st.bannedUntil.value { return Banned; }
        st := st.(bannedUntil := None, violations := 0, tokens := cap, last := now);
      }
      assert !BanActive(was, now) && st == Started(was, now, rl);
      WorthIsProduct(now, st.last, rl.reqPerSec);
      st := st.(tokens := Min(st.tokens + Elapsed(now, st.last) * rl.reqPerSec as real, cap));
      st := st.(last := now);
      assert st == Refilled(was, now, rl);
      if st.tokens >= 1.0 {
        st := st.(tokens := st.tokens - 1.0);
        v := Allow;
      } else {
        var tripped;
        st, tripped := RecordViolation(st, now, rl);
        v := if tripped then Banned else RateLimited;
      }
      assert (st, v) == CheckEntry(was, now, rl);
      entries := entries[k := st];
    }

    static method RecordViolation(st0: Bucket, now: real, rl: Limits) returns (st: Bucket, tripped: bool)
      ensures (st, if tripped then Banned else RateLimited) == Violation(st0, now, rl)
    {
      st := st0;
      if rl.banThreshold == 0 { return st, false; }
      if Elapsed(now, st.vwindow) > Max1(rl.banWindow) {
        st := st.(violations := 1, vwindow := now);
      } else {
        st := st.(violations := st.violations + 1);
      }
      if st.violations >= rl.banThreshold {
        st := st.(bannedUntil := Some(now + Max1(rl.banMinutes) * 60.0));
        return st, true;
      }
      return st, false;
    }

    /** One tick of the sweeper, whatever limits each entry runs under. */
    method Sweep(now: real)
      modifies this
      ensures forall k, rl :: Lookup(entries, k) == Step(old(Lookup(entries, k)), SweepAt(now), rl)
    {
      entries := map k | k in entries && Survives(entries[k], now) :: entries[k];
    }
  }

  // ----- Runs of one client's entry under fixed limits -----

  datatype Event = CheckAt(now: real) | SweepAt(now: real)

  function Step(s: Option<Bucket>, e: Event, rl: Limits): Option<Bucket> {
    match e
    case CheckAt(now) => Some(CheckEntry(s, now, rl).0)
    case SweepAt(now) => if s.Some? && !Survives(s.value, now) then None else s
  }

  function StepVerdict(s: Option<Bucket>, e: Event, rl: Limits): Option<Verdict> {
    match e
    case CheckAt(now) => Some(CheckEntry(s, now, rl).1)
    case SweepAt(_) => None
  }

  /** The entry after the whole run, starting from an unknown client. */
  function StateOf(es: seq<Event>, rl: Limits): Option<Bucket> {
    if es == [] then None else Step(StateOf(es[..|es| - 1], rl), es[|es| - 1], rl)
  }

  /** The verdict of the last event of the run. */
  function VerdictOf(es: seq<Event>, rl: Limits): Option<Verdict> {
    if es == [] then None else StepVerdict(StateOf(es[..|es| - 1], rl), es[|es| - 1], rl)
  }

  predicate InClockOrder(es: seq<Event>) {
    forall i, j | 0 <= i < j < |es| :: es[i].now <= es[j].now
  }

  /** A check that finds no entry or an expired ban starts a full bucket. */
  predicate Restarts(s: Option<Bucket>, e: Event) {
    e.CheckAt? && (s.None? || BanExpired(s, e.now))
  }

  /** A check refused for want of a token, not by a ban already in force. */
  predicate Misses(s: Option<Bucket>, e: Event, rl: Limits) {
    e.CheckAt? && !BanActive(s, e.now) && StepVerdict(s, e, rl) != Some(Allow)
  }

  /** One event from `s` to `s'` with verdict `v`, as a step of the ledger of tokens. */
  function EntryOf(s: Option<Bucket>, e: Event, v: Option<Verdict>, s': Option<Bucket>, rl: Limits): Entry {
    Entry(v == Some(Allow), Restarts(s, e), Level(s, e.now, rl), Level(s', e.now, rl))
  }

  function EntryAt(es: seq<Event>, n: nat, rl: Limits): Entry
    requires n < |es|
  {
    EntryOf(StateOf(es[..n], rl), es[n], VerdictOf(es[..n + 1], rl), StateOf(es[..n + 1], rl), rl)
  }

  function Entries(es: seq<Event>, i: nat, rl: Limits): seq<Entry>
    requires i <= |es|
  {
    seq(|es| - i, k requires 0 <= k < |es| - i => EntryAt(es, i + k, rl))
  }

  /** The readings of the events from `i` on. */
  function TimesFrom(es: seq<Event>, i: nat): seq<real>
    requires i <= |es|
  {
    seq(|es| - i, k requires 0 <= k < |es| - i => es[i + k].now)
  }

  /** How many events from `i` on are allowed, and how many start a full bucket. */
  function AllowedSince(es: seq<Event>, i: nat, rl: Limits): nat
    requires i <= |es|
  {
    SpentIn(Entries(es, i, rl))
  }

  function RestartsSince(es: seq<Event>, i: nat, rl: Limits): nat
    requires i <= |es|
  {
    GrantsIn(Entries(es, i, rl))
  }

  /** How many misses have readings in [lo, hi]. */
  function MissesIn(es: seq<Event>, lo: real, hi: real, rl: Limits): nat {
    if es == [] then 0
    else
      var before, e := es[..|es| - 1], es[|es| - 1];
      MissesIn(before, lo, hi, rl) + (if Misses(StateOf(before, rl), e, rl) && lo <= e.now <= hi then 1 else 0)
  }

  // ----- The token bound -----

  predicate TokensInRange(s: Option<Bucket>, rl: Limits) {
    s.Some? ==> 0.0 <= s.value.tokens <= Cap(rl)
  }

  lemma {:induction false} TokensStayInRange(es: seq<Event>, rl: Limits)
    requires rl.reqPerSec > 0
    ensures TokensInRange(StateOf(es, rl), rl)
  {
    if es != [] {
      TokensStayInRange(es[..|es| - 1], rl);
      StepKeepsRange(StateOf(es[..|es| - 1], rl), es[|es| - 1], rl);
    }
  }

  lemma StepKeepsRange(s: Option<Bucket>, e: Event, rl: Limits)
    requires TokensInRange(s, rl)
    ensures TokensInRange(Step(s, e, rl), rl)
  {
    if e.CheckAt? { WorthPositive(Started(s, e.now, rl).last, e.now, rl); }
  }

  lemma WorthPositive(since: real, now: real, rl: Limits)
    ensures Worth(now, since, rl.reqPerSec) >= 0.0 && Worth(now, now, rl.reqPerSec) == 0.0
  {
    TimesGrows(rl.reqPerSec, 0.0, Elapsed(now, since));
  }

  /** Tokens the entry would hold if it were refilled at time `at`. */
  function Level(s: Option<Bucket>, at: real, rl: Limits): real {
    if s.None? then 0.0 else Min(Cap(rl), s.value.tokens + Worth(at, s.value.last, rl.reqPerSec))
  }

  lemma LevelInRange(s: Option<Bucket>, at: real, rl: Limits)
    requires TokensInRange(s, rl)
    ensures 0.0 <= Level(s, at, rl) <= Cap(rl)
  {
    if s.Some? { WorthPositive(s.value.last, at, rl); }
  }

  /** A step spends one token for an `Allow`; only a restart adds more than the refill. */
  lemma StepSpends(s: Option<Bucket>, e: Event, rl: Limits)
    requires TokensInRange(s, rl) && rl.reqPerSec > 0
    ensures One(StepVerdict(s, e, rl) == Some(Allow)) + Level(Step(s, e, rl), e.now, rl)
         <= Level(s, e.now, rl) + Grant(Restarts(s, e), Cap(rl))
    ensures Level(s, e.now, rl) <= Cap(rl)
  {
    LevelInRange(s, e.now, rl);
    StepKeepsRange(s, e, rl);
    WorthPositive(e.now, e.now, rl);
  }

  lemma LevelRises(s: Option<Bucket>, at: real, later: real, rl: Limits)
    ensures Level(s, later, rl) <= Level(s, at, rl) + Worth(later, at, rl.reqPerSec)
  {
    WorthPositive(at, later, rl);
    if s.Some? { WorthTriangle(s.value.last, at, later, rl.reqPerSec); }
  }

  lemma EntryPays(s: Option<Bucket>, e: Event, rl: Limits)
    requires rl.reqPerSec > 0 && TokensInRange(s, rl)
    ensures var entry := EntryOf(s, e, StepVerdict(s, e, rl), Step(s, e, rl), rl);
            Pays(entry, Cap(rl)) && entry.found <= Cap(rl) && 0.0 <= entry.left
  {
    StepKeepsRange(s, e, rl);
    StepSpends(s, e, rl);
    LevelInRange(Step(s, e, rl), e.now, rl);
  }

  lemma StepPays(es: seq<Event>, n: nat, rl: Limits)
    requires rl.reqPerSec > 0 && n < |es|
    ensures Pays(EntryAt(es, n, rl), Cap(rl))
    ensures EntryAt(es, n, rl).found <= Cap(rl) && 0.0 <= EntryAt(es, n, rl).left
  {
    assert es[..n + 1][..n] == es[..n] && es[..n + 1][n] == es[n];
    TokensStayInRange(es[..n], rl);
    EntryPays(StateOf(es[..n], rl), es[n], rl);
  }

  lemma EntryFollows(s0: Option<Bucket>, e0: Event, v0: Option<Verdict>, s: Option<Bucket>,
                     e: Event, v: Option<Verdict>, s': Option<Bucket>, rl: Limits)
    ensures EntryOf(s, e, v, s', rl).found <= EntryOf(s0, e0, v0, s, rl).left + Worth(e.now, e0.now, rl.reqPerSec)
  {
    LevelRises(s, e0.now, e.now, rl);
  }

  lemma StepFollows(es: seq<Event>, n: nat, rl: Limits)
    requires 0 < n < |es|
    ensures EntryAt(es, n, rl).found <= EntryAt(es, n - 1, rl).left + Worth(es[n].now, es[n - 1].now, rl.reqPerSec)
  {
    EntryFollows(StateOf(es[..n - 1], rl), es[n - 1], VerdictOf(es[..n - 1 + 1], rl), StateOf(es[..n - 1 + 1], rl),
                 es[n], VerdictOf(es[..n + 1], rl), StateOf(es[..n + 1], rl), rl);
  }

  lemma RunPays(es: seq<Event>, i: nat, rl: Limits)
    requires rl.reqPerSec > 0 && i < |es|
    ensures Balanced(Entries(es, i, rl), TimesFrom(es, i), Cap(rl), rl.reqPerSec)
    ensures 0.0 <= Entries(es, i, rl)[|es| - i - 1].left
  {
    var entries, ts := Entries(es, i, rl), TimesFrom(es, i);
    forall k: nat | k < |entries| ensures Pays(entries[k], Cap(rl)) && 0.0 <= entries[k].left {
      StepPays(es, i + k, rl);
    }
    forall k: nat | 0 < k < |entries| ensures Follows(entries, ts, rl.reqPerSec, k) {
      StepFollows(es, i + k, rl);
    }
  }

  /** From event `i` on, in any order of clock readings, the `Allow` verdicts are paid for by
      the tokens found, a full bucket per restart, and the refill over the forward steps. */
  lemma AllowedByClimb(es: seq<Event>, i: nat, rl: Limits)
    requires rl.reqPerSec > 0 && i < |es|
    ensures AllowedSince(es, i, rl) as real
         <= Level(StateOf(es[..i], rl), es[i].now, rl) + Times(RestartsSince(es, i, rl), Cap(rl))
            + Earned(TimesFrom(es, i), rl.reqPerSec)
  {
    RunPays(es, i, rl);
    FirstFound(es, i, rl);
    SpentIsPaid(Entries(es, i, rl), TimesFrom(es, i), Cap(rl), rl.reqPerSec);
  }

  lemma FirstFound(es: seq<Event>, i: nat, rl: Limits)
    requires i < |es|
    ensures Entries(es, i, rl)[0].found == Level(StateOf(es[..i], rl), es[i].now, rl)
  {
    assert Entries(es, i, rl)[0] == EntryAt(es, i + 0, rl);
  }

  /** The events from `i` on have their readings in [s, t]. */
  predicate ReadIn(es: seq<Event>, i: nat, s: real, t: real) {
    forall k | i <= k < |es| :: s <= es[k].now <= t
  }

  /** The tokens held when the window [s, t] opens (none for an unknown client), a full bucket
      for each creation and ban expiry in it, and `k` times the refill of its length. */
  function Allowance(es: seq<Event>, i: nat, s: real, t: real, k: nat, rl: Limits): real
    requires i < |es|
  {
    Level(StateOf(es[..i], rl), es[i].now, rl) + Times(RestartsSince(es, i, rl), Cap(rl))
    + Times(k, Worth(t, s, rl.reqPerSec))
  }

  /** In any order of readings, each reading that lies before its predecessor lets the bucket
      be refilled for the window once more, and no more than that. */
  lemma DisorderBound(es: seq<Event>, i: nat, s: real, t: real, rl: Limits)
    requires rl.reqPerSec > 0 && i < |es| && ReadIn(es, i, s, t)
    ensures AllowedSince(es, i, rl) as real <= Allowance(es, i, s, t, Backsteps(TimesFrom(es, i)) + 1, rl)
  {
    AllowedByClimb(es, i, rl);
    EarnedInDisorder(TimesFrom(es, i), s, t, rl.reqPerSec);
  }

  /** Main result: in clock order, the `Allow` verdicts of a window [s, t] are at most the tokens
      found, plus a full bucket per creation or ban expiry, plus rps * (t - s). */
  lemma WindowBound(es: seq<Event>, i: nat, s: real, t: real, rl: Limits)
    requires rl.reqPerSec > 0 && InClockOrder(es) && i < |es| && ReadIn(es, i, s, t)
    ensures AllowedSince(es, i, rl) as real
         <= Level(StateOf(es[..i], rl), es[i].now, rl) + Times(RestartsSince(es, i, rl), Cap(rl))
            + Worth(t, s, rl.reqPerSec)
    ensures Level(StateOf(es[..i], rl), es[i].now, rl) <= if StateOf(es[..i], rl).None? then 0.0 else Cap(rl)
  {
    DisorderBound(es, i, s, t, rl);
    NoBackstepsInOrder(TimesFrom(es, i));
    TokensStayInRange(es[..i], rl);
    LevelInRange(StateOf(es[..i], rl), es[i].now, rl);
    assert Times(1, Worth(t, s, rl.reqPerSec)) == Worth(t, s, rl.reqPerSec);
  }

  // ----- Runs one event longer -----

  lemma StateSnoc(es: seq<Event>, e: Event, rl: Limits)
    ensures StateOf(es + [e], rl) == Step(StateOf(es, rl), e, rl)
    ensures VerdictOf(es + [e], rl) == StepVerdict(StateOf(es, rl), e, rl)
  {
    assert (es + [e])[..|es|] == es;
  }

  lemma CheckNew(t: real, rl: Limits)
    requires rl.reqPerSec > 0
    ensures CheckEntry(None, t, rl) == (Bucket(Cap(rl) - 1.0, t, 0, t, None), Allow)
  {
    WorthPositive(t, t, rl);
  }

  lemma EntryStays(es: seq<Event>, e: Event, k: nat, rl: Limits)
    requires k < |es|
    ensures EntryAt(es + [e], k, rl) == EntryAt(es, k, rl)
  {
    assert (es + [e])[..k] == es[..k] && (es + [e])[..k + 1] == es[..k + 1];
  }

  lemma LastEntry(es: seq<Event>, e: Event, rl: Limits)
    ensures EntryAt(es + [e], |es|, rl)
         == EntryOf(StateOf(es, rl), e, StepVerdict(StateOf(es, rl), e, rl), Step(StateOf(es, rl), e, rl), rl)
  {
    StateSnoc(es, e, rl);
    assert (es + [e])[..|es|] == es && (es + [e])[..|es| + 1] == es + [e];
  }

  lemma EntriesSnoc(es: seq<Event>, e: Event, rl: Limits)
    ensures Entries(es + [e], 0, rl) == Entries(es, 0, rl) + [EntryAt(es + [e], |es|, rl)]
    ensures TimesFrom(es + [e], 0) == TimesFrom(es, 0) + [e.now]
  {
    forall k: nat | k < |es| ensures Entries(es + [e], 0, rl)[k] == Entries(es, 0, rl)[k] { EntryStays(es, e, k, rl); }
  }

  /** What a run has come to: its last reading, what it was allowed, its restarts and backward readings. */
  datatype Tally = Tally(at: real, allowed: nat, restarts: nat, backsteps: nat)

  function TallyAfter(was: Tally, s: Option<Bucket>, e: Event, rl: Limits): Tally {
    Tally(e.now, was.allowed + (if StepVerdict(s, e, rl) == Some(Allow) then 1 else 0),
          was.restarts + (if Restarts(s, e) then 1 else 0), was.backsteps + (if e.now < was.at then 1 else 0))
  }

  function TallyOf(es: seq<Event>, rl: Limits): Tally
    requires es != []
  {
    if |es| == 1 then TallyAfter(Tally(es[0].now, 0, 0, 0), None, es[0], rl)
    else TallyAfter(TallyOf(es[..|es| - 1], rl), StateOf(es[..|es| - 1], rl), es[|es| - 1], rl)
  }

  lemma CountsSince(es: seq<Event>, e: Event, rl: Limits)
    ensures AllowedSince(es + [e], 0, rl)
         == AllowedSince(es, 0, rl) + (if StepVerdict(StateOf(es, rl), e, rl) == Some(Allow) then 1 else 0)
    ensures RestartsSince(es + [e], 0, rl) == RestartsSince(es, 0, rl) + (if Restarts(StateOf(es, rl), e) then 1 else 0)
  {
    EntriesSnoc(es, e, rl);
    LastEntry(es, e, rl);
    CountsLast(Entries(es, 0, rl), EntryAt(es + [e], |es|, rl));
  }

  lemma BackstepsSince(es: seq<Event>, e: Event)
    requires es != []
    ensures Backsteps(TimesFrom(es + [e], 0))
         == Backsteps(TimesFrom(es, 0)) + (if e.now < es[|es| - 1].now then 1 else 0)
  {
    assert TimesFrom(es + [e], 0) == TimesFrom(es, 0) + [e.now];
    BackstepsSnoc(TimesFrom(es, 0), e.now);
  }

  lemma {:induction false} TallyCounts(es: seq<Event>, rl: Limits)
    requires es != []
    ensures TallyOf(es, rl) == Tally(es[|es| - 1].now, AllowedSince(es, 0, rl), RestartsSince(es, 0, rl),
                                     Backsteps(TimesFrom(es, 0)))
  {
    var before, e := es[..|es| - 1], es[|es| - 1];
    assert es == before + [e];
    CountsSince(before, e, rl);
    if before == [] {
      assert AllowedSince([], 0, rl) == 0 == RestartsSince([], 0, rl) by { CountsLast(Entries([], 0, rl), EntryAt(es, 0, rl)); }
    } else {
      TallyCounts(before, rl);
      BackstepsSince(before, e);
    }
  }

  lemma CountsLast(es: seq<Entry>, e: Entry)
    ensures SpentIn(es + [e]) == SpentIn(es) + (if e.spends then 1 else 0)
    ensures GrantsIn(es + [e]) == GrantsIn(es) + (if e.granted then 1 else 0)
    ensures es == [] ==> SpentIn(es) == 0 == GrantsIn(es)
  {
    assert (es + [e])[..|es|] == es;
  }

  /** The run leaves the entry `st` and comes to the tally `sum`. */
  ghost predicate ComesTo(es: seq<Event>, st: Bucket, sum: Tally, rl: Limits) {
    es != [] && StateOf(es, rl) == Some(st) && TallyOf(es, rl) == sum
  }

  lemma OneMore(es: seq<Event>, st: Bucket, was: Tally, now: real, rl: Limits)
    requires ComesTo(es, st, was, rl)
    ensures ComesTo(es + [CheckAt(now)], CheckEntry(Some(st), now, rl).0, TallyAfter(was, Some(st), CheckAt(now), rl), rl)
    ensures VerdictOf(es + [CheckAt(now)], rl) == Some(CheckEntry(Some(st), now, rl).1)
  {
    assert (es + [CheckAt(now)])[..|es|] == es;
  }

  /** `n` more checks at the last reading, with the tokens for them: all are allowed. */
  lemma {:induction false} SpendAtOnce(es: seq<Event>, st: Bucket, was: Tally, n: nat, rl: Limits) returns (all: seq<Event>)
    requires ComesTo(es, st, was, rl)
    requires st.bannedUntil == None && st.last == was.at && n as real <= st.tokens <= Cap(rl)
    ensures ComesTo(all, st.(tokens := st.tokens - n as real), was.(allowed := was.allowed + n), rl)
    ensures forall e | e in all :: e in es || e == CheckAt(was.at)
  {
    all := es;
    if n > 0 {
      all := SpendAtOnce(es, st, was, n - 1, rl);
      SpendOne(all, st.(tokens := st.tokens - (n - 1) as real), was.(allowed := was.allowed + (n - 1)), rl);
      all := all + [CheckAt(was.at)];
    }
  }

  lemma SpendOne(es: seq<Event>, st: Bucket, was: Tally, rl: Limits)
    requires ComesTo(es, st, was, rl)
    requires st.bannedUntil == None && st.last == was.at && 1.0 <= st.tokens <= Cap(rl)
    ensures ComesTo(es + [CheckAt(was.at)], st.(tokens := st.tokens - 1.0), was.(allowed := was.allowed + 1), rl)
  {
    WorthPositive(was.at, was.at, rl);
    OneMore(es, st, was, was.at, rl);
  }

  /** The first check of an unknown client, at reading `t`. */
  lemma FirstCheck(t: real, rl: Limits)
    requires rl.reqPerSec > 0
    ensures ComesTo([CheckAt(t)], Bucket(Cap(rl) - 1.0, t, 0, t, None), Tally(t, 1, 1, 0), rl)
  {
    CheckNew(t, rl);
    assert [CheckAt(t)][..0] == [];
  }

  // ----- Bans -----

  /** The last event of the run trips a ban. */
  predicate TripsBan(es: seq<Event>, rl: Limits) {
    es != [] && VerdictOf(es, rl) == Some(Banned) && !BanActive(StateOf(es[..|es| - 1], rl), es[|es| - 1].now)
  }

  /** No reading lies more than `late` before one that was served earlier. */
  predicate LateBy(es: seq<Event>, late: real) {
    forall i, j | 0 <= i < j < |es| :: es[i].now - late <= es[j].now
  }

  /** The counting window began at the reading of some event so far. */
  ghost predicate BeganAt(es: seq<Event>, w: real) {
    exists i | 0 <= i < |es| :: es[i].now == w
  }

  /** The event goes on counting in the window it finds. */
  predicate GoesOn(s: Option<Bucket>, e: Event, after: Bucket, rl: Limits) {
    && s.Some? && after.vwindow == s.value.vwindow
    && (after.violations <= s.value.violations
        || (Misses(s, e, rl) && after.violations == s.value.violations + 1
            && Elapsed(e.now, after.vwindow) <= Max1(rl.banWindow)))
  }

  /** The event begins a window at its own reading. */
  predicate Begins(s: Option<Bucket>, e: Event, after: Bucket, rl: Limits) {
    after.vwindow == e.now && after.violations <= if Misses(s, e, rl) then 1 else 0
  }

  lemma CountStep(s: Option<Bucket>, e: Event, rl: Limits)
    requires Step(s, e, rl).Some?
    ensures GoesOn(s, e, Step(s, e, rl).value, rl) || Begins(s, e, Step(s, e, rl).value, rl)
  {
  }

  lemma MissesSnoc(es: seq<Event>, e: Event, lo: real, hi: real, rl: Limits)
    ensures MissesIn(es + [e], lo, hi, rl)
         == MissesIn(es, lo, hi, rl) + (if Misses(StateOf(es, rl), e, rl) && lo <= e.now <= hi then 1 else 0)
  {
    assert (es + [e])[..|es|] == es;
  }

  /** The entry's count is of misses near the beginning of its window. */
  ghost predicate Counted(es: seq<Event>, st: Bucket, late: real, rl: Limits) {
    BeganAt(es, st.vwindow) && st.violations <= MissesIn(es, st.vwindow - late, st.vwindow + Max1(rl.banWindow), rl)
  }

  lemma CountBegins(es: seq<Event>, e: Event, after: Bucket, late: real, rl: Limits)
    requires late >= 0.0 && Begins(StateOf(es, rl), e, after, rl)
    ensures Counted(es + [e], after, late, rl)
  {
    MissesSnoc(es, e, after.vwindow - late, after.vwindow + Max1(rl.banWindow), rl);
    assert (es + [e])[|es|].now == after.vwindow;
  }

  /** A violation counted in the window that began at `w` is a miss near it. */
  lemma CountFits(miss: bool, now: real, w: real, late: real, window: real, v0: nat, v: nat, n0: nat, n: nat)
    requires n == n0 + if miss && w - late <= now <= w + window then 1 else 0
    requires v0 <= n0 && w - late <= now && (v <= v0 || (miss && v == v0 + 1 && Elapsed(now, w) <= window))
    ensures v <= n
  {
  }

  lemma CountGoesOn(es: seq<Event>, e: Event, st: Bucket, after: Bucket, late: real, rl: Limits)
    requires BeganAt(es + [e], after.vwindow) && after.vwindow - late <= e.now && StateOf(es, rl) == Some(st)
    requires GoesOn(Some(st), e, after, rl) && Counted(es, st, late, rl)
    ensures Counted(es + [e], after, late, rl)
  {
    var lo, hi := after.vwindow - late, after.vwindow + Max1(rl.banWindow);
    MissesSnoc(es, e, lo, hi, rl);
    CountFits(Misses(Some(st), e, rl), e.now, after.vwindow, late, Max1(rl.banWindow), st.violations, after.violations,
              MissesIn(es, lo, hi, rl), MissesIn(es + [e], lo, hi, rl));
  }

  lemma CountedStep(es: seq<Event>, e: Event, after: Bucket, late: real, rl: Limits)
    requires LateBy(es + [e], late) && late >= 0.0 && Step(StateOf(es, rl), e, rl) == Some(after)
    requires StateOf(es, rl).Some? ==> Counted(es, StateOf(es, rl).value, late, rl)
    ensures Counted(es + [e], after, late, rl)
  {
    CountStep(StateOf(es, rl), e, rl);
    if Begins(StateOf(es, rl), e, after, rl) {
      CountBegins(es, e, after, late, rl);
    } else {
      BeganLater(es, e, after.vwindow, late);
      CountGoesOn(es, e, StateOf(es, rl).value, after, late, rl);
    }
  }

  lemma {:induction false} ViolationsWereMisses(es: seq<Event>, late: real, rl: Limits)
    requires LateBy(es, late) && late >= 0.0
    ensures StateOf(es, rl).Some? ==> Counted(es, StateOf(es, rl).value, late, rl)
  {
    if es != [] && StateOf(es, rl).Some? {
      var before, e := es[..|es| - 1], es[|es| - 1];
      ViolationsWereMisses(before, late, rl);
      assert es == before + [e];
      CountedStep(before, e, StateOf(es, rl).value, late, rl);
    }
  }

  lemma BeganLater(es: seq<Event>, e: Event, w: real, late: real)
    requires BeganAt(es, w) && LateBy(es + [e], late)
    ensures BeganAt(es + [e], w) && w - late <= e.now
  {
    var i :| 0 <= i < |es| && es[i].now == w;
    assert (es + [e])[i].now == w && (es + [e])[|es|] == e;
  }

  /** Main result: when readings are served at most `late` behind, a ban is only ever tripped by at
      least `threshold` misses whose readings lie in one span of max(window, 1) + late seconds
      around the trip; in clock order, `late` is 0. */
  lemma BanHasCause(es: seq<Event>, late: real, rl: Limits) returns (lo: real)
    requires LateBy(es, late) && late >= 0.0 && TripsBan(es, rl)
    ensures var now, span := es[|es| - 1].now, Max1(rl.banWindow) + late;
            lo <= now <= lo + span && MissesIn(es, lo, lo + span, rl) >= rl.banThreshold > 0
            && StateOf(es, rl).value.bannedUntil == Some(now + Max1(rl.banMinutes) * 60.0)
  {
    ViolationsWereMisses(es, late, rl);
    var w := StateOf(es, rl).value.vwindow;
    var i :| 0 <= i < |es| && es[i].now == w;
    lo := w - late;
    assert lo + (Max1(rl.banWindow) + late) == w + Max1(rl.banWindow);
    assert es[i].now - late <= es[|es| - 1].now;
  }

  /** Enough misses for a ban have readings within `span` seconds from `lo` on. */
  predicate EnoughFrom(es: seq<Event>, lo: real, span: real, rl: Limits) {
    MissesIn(es, lo, lo + span, rl) >= rl.banThreshold
  }

  /** Every ban of a run that is at most `late` behind has its misses in one span of this length. */
  ghost predicate BanSpanned(late: real, span: real, rl: Limits) {
    forall es: seq<Event> | LateBy(es, late) && TripsBan(es, rl) :: exists lo :: EnoughFrom(es, lo, span, rl)
  }

  /** A reading that comes late joins a count begun after it: two misses `late` plus a whole
      window apart trip a ban of two. */
  function LateMisses(late: real, rl: Limits): seq<Event> {
    var last := late + Max1(rl.banWindow);
    [CheckAt(late), CheckAt(0.0), CheckAt(last), CheckAt(last)]
  }

  /** A check at `now` of an entry last served at `since` that holds no token, at one a second. */
  lemma EmptyCheck(st: Bucket, now: real, earned: real, rl: Limits)
    requires rl.reqPerSec == 1 && rl.burst == 0 && st.bannedUntil == None && st.tokens == 0.0
    requires earned == if now > st.last then now - st.last else 0.0
    ensures CheckEntry(Some(st), now, rl)
         == if earned >= 1.0 then (st.(last := now), Allow) else Violation(st.(tokens := earned, last := now), now, rl)
  {
    WorthIsProduct(now, st.last, 1);
    assert Cap(rl) == 1.0;
  }

  /** What the four checks do in turn. */
  lemma LateChecks(late: real, rl: Limits)
    requires late >= 0.0 && rl.reqPerSec == 1 && rl.burst == 0 && rl.banThreshold == 2
    ensures var last := late + Max1(rl.banWindow);
            CheckEntry(None, late, rl) == (Bucket(0.0, late, 0, late, None), Allow)
            && CheckEntry(Some(Bucket(0.0, late, 0, late, None)), 0.0, rl)
               == (Bucket(0.0, 0.0, 1, late, None), RateLimited)
            && CheckEntry(Some(Bucket(0.0, 0.0, 1, late, None)), last, rl) == (Bucket(0.0, last, 1, late, None), Allow)
            && CheckEntry(Some(Bucket(0.0, last, 1, late, None)), last, rl).1 == Banned
  {
    var last := late + Max1(rl.banWindow);
    CheckNew(late, rl);
    EmptyCheck(Bucket(0.0, late, 0, late, None), 0.0, 0.0, rl);
    EmptyCheck(Bucket(0.0, 0.0, 1, late, None), last, last, rl);
    EmptyCheck(Bucket(0.0, last, 1, late, None), last, 0.0, rl);
  }

  lemma LateBan(late: real, window: nat, minutes: nat)
    requires late >= 0.0
    ensures var rl := Limits(1, 0, 2, window, minutes);
            var es := LateMisses(late, rl);
            LateBy(es, late) && TripsBan(es, rl)
            && forall lo, hi | hi - lo < late + Max1(window) :: MissesIn(es, lo, hi, rl) < rl.banThreshold
  {
    var rl := Limits(1, 0, 2, window, minutes);
    var last := late + Max1(window);
    var a, b := [] + [CheckAt(late)], [CheckAt(late)] + [CheckAt(0.0)];
    var c := b + [CheckAt(last)];
    assert LateMisses(late, rl) == c + [CheckAt(last)] && a == [CheckAt(late)];
    LateChecks(late, rl);
    StateSnoc([], CheckAt(late), rl);
    StateSnoc([CheckAt(late)], CheckAt(0.0), rl);
    StateSnoc(b, CheckAt(last), rl);
    StateSnoc(c, CheckAt(last), rl);
    assert (c + [CheckAt(last)])[..3] == c;
    forall lo, hi | hi - lo < last ensures MissesIn(c + [CheckAt(last)], lo, hi, rl) < 2 {
      MissesSnoc([], CheckAt(late), lo, hi, rl);
      MissesSnoc([CheckAt(late)], CheckAt(0.0), lo, hi, rl);
      MissesSnoc(b, CheckAt(last), lo, hi, rl);
      MissesSnoc(c, CheckAt(last), lo, hi, rl);
    }
  }

  /** The span cannot be shorter: with a threshold of two it takes all of the window and the delay. */
  lemma BanSpannedIff(late: real, span: real, window: nat, minutes: nat)
    requires late >= 0.0
    ensures BanSpanned(late, span, Limits(1, 0, 2, window, minutes)) <==> span >= Max1(window) + late
  {
    var rl := Limits(1, 0, 2, window, minutes);
    if span >= Max1(window) + late {
      forall es: seq<Event> | LateBy(es, late) && TripsBan(es, rl) ensures exists lo :: EnoughFrom(es, lo, span, rl) {
        var lo := BanHasCause(es, late, rl);
        MissesWiden(es, lo, lo + (Max1(window) + late), lo + span, rl);
        assert EnoughFrom(es, lo, span, rl);
      }
    } else {
      LateBan(late, window, minutes);
      var es := LateMisses(late, rl);
      assert forall lo :: !EnoughFrom(es, lo, span, rl);
    }
  }

  lemma {:induction false} MissesWiden(es: seq<Event>, lo: real, hi: real, higher: real, rl: Limits)
    requires hi <= higher
    ensures MissesIn(es, lo, hi, rl) <= MissesIn(es, lo, higher, rl)
  {
    if es != [] { MissesWiden(es[..|es| - 1], lo, hi, higher, rl); }
  }

  /** Main result: until a ban expires, every check says `Banned`, whatever is checked or swept. */
  lemma {:induction false} BanHolds(es: seq<Event>, more: seq<Event>, until: real, next: real, rl: Limits)
    requires StateOf(es, rl).Some? && StateOf(es, rl).value.bannedUntil == Some(until)
    requires next < until && forall i | 0 <= i < |more| :: more[i].now < until
    ensures StateOf(es + more, rl) == StateOf(es, rl)
    ensures VerdictOf(es + more + [CheckAt(next)], rl) == Some(Banned)
    decreases |more|
  {
    var all := es + more;
    assert (all + [CheckAt(next)])[..|all|] == all;
    if more == [] {
      assert all == es;
    } else {
      BanHolds(es, more[..|more| - 1], until, next, rl);
      assert all[..|all| - 1] == es + more[..|more| - 1];
    }
  }

  lemma MissCounts(s: Option<Bucket>, e: Event, rl: Limits)
    requires s.Some? && s.value.bannedUntil == None && Misses(s, e, rl) && rl.banThreshold > 0
    requires Elapsed(e.now, s.value.vwindow) <= Max1(rl.banWindow)
    ensures if s.value.violations + 1 >= rl.banThreshold then StepVerdict(s, e, rl) == Some(Banned)
            else
              var after := Step(s, e, rl);
              StepVerdict(s, e, rl) == Some(RateLimited) && after.Some? && after.value.bannedUntil == None
              && after.value.violations == s.value.violations + 1 && after.value.vwindow == s.value.vwindow
  {
  }

  /** The other direction: from states `ss`, enough misses in a row, all within the window
      the entry's violation count started in, do trip a ban, at one of them. */
  lemma BanIsReached(ss: seq<Option<Bucket>>, more: seq<Event>, rl: Limits) returns (k: nat)
    requires rl.banThreshold > 0 && |ss| == |more| > 0
    requires ss[0].Some? && ss[0].value.bannedUntil == None && ss[0].value.violations + |more| >= rl.banThreshold
    requires forall i | 0 <= i < |more| :: Misses(ss[i], more[i], rl)
                                           && Elapsed(more[i].now, ss[0].value.vwindow) <= Max1(rl.banWindow)
    requires forall i | 0 < i < |more| :: ss[i] == Step(ss[i - 1], more[i - 1], rl)
    ensures k < |more| && StepVerdict(ss[k], more[k], rl) == Some(Banned)
  {
    k := 0;
    while ss[k].value.violations + 1 < rl.banThreshold
      invariant k < |more| && ss[k].Some? && ss[k].value.bannedUntil == None
      invariant ss[k].value.vwindow == ss[0].value.vwindow
      invariant ss[k].value.violations == ss[0].value.violations + k
      decreases |more| - k
    {
      MissCounts(ss[k], more[k], rl);
      k := k + 1;
    }
    MissCounts(ss[k], more[k], rl);
  }

  /** How many of the events after `i` are answered `RateLimited`. */
  function LimitedAfter(es: seq<Event>, i: nat, rl: Limits): nat {
    if |es| <= i + 1 then 0
    else LimitedAfter(es[..|es| - 1], i, rl) + (if VerdictOf(es, rl) == Some(RateLimited) then 1 else 0)
  }

  /** A new entry, or the first check after a ban, is allowed and counts no violation. */
  lemma RestartAllows(s: Option<Bucket>, now: real, rl: Limits)
    requires rl.reqPerSec > 0 && Restarts(s, CheckAt(now))
    ensures var (after, v) := CheckEntry(s, now, rl);
            v == Allow && after.bannedUntil == None && after.violations == 0
            && after.tokens == Cap(rl) - 1.0 && after.last == now
  {
    WorthPositive(now, now, rl);
  }

  /** Outside a ban, a check adds a violation only with a `RateLimited` answer, or with the ban. */
  lemma ViolationNeedsAnswer(s: Option<Bucket>, e: Event, rl: Limits)
    requires rl.reqPerSec > 0 && Step(s, e, rl).Some? && Step(s, e, rl).value.bannedUntil == None
    ensures var after := Step(s, e, rl).value;
            after.violations <= (if s.Some? && s.value.bannedUntil == None then s.value.violations else 0)
                                + (if StepVerdict(s, e, rl) == Some(RateLimited) then 1 else 0)
  {
    if e.CheckAt? && Restarts(s, e) { RestartAllows(s, e.now, rl); }
  }

  /** The violations held against a client outside a ban were answered since its last `Banned`. */
  lemma {:induction false} CountSinceBan(es: seq<Event>, i: nat, rl: Limits)
    requires rl.reqPerSec > 0 && i < |es|
    requires VerdictOf(es[..i + 1], rl) == Some(Banned) || Restarts(StateOf(es[..i], rl), es[i])
    ensures var s := StateOf(es, rl);
            s.Some? && s.value.bannedUntil == None ==> s.value.violations <= LimitedAfter(es, i, rl)
  {
    var before := es[..|es| - 1];
    if |es| == i + 1 {
      assert es[..i + 1] == es && before == es[..i];
      if Restarts(StateOf(before, rl), es[i]) { RestartAllows(StateOf(before, rl), es[i].now, rl); }
    } else {
      assert before[..i + 1] == es[..i + 1] && before[..i] == es[..i];
      CountSinceBan(before, i, rl);
      if StateOf(es, rl).Some? && StateOf(es, rl).value.bannedUntil == None {
        ViolationNeedsAnswer(StateOf(before, rl), es[|es| - 1], rl);
      }
    }
  }

  /** Main result: whatever came before, a ban tripped after a check answered `Banned`, or after one
      that began a new entry or followed an expired ban, takes `threshold` misses of its own: that
      many less one are answered `RateLimited` in between, and the last one trips it. */
  lemma BanNeedsNewMisses(es: seq<Event>, i: nat, rl: Limits)
    requires rl.reqPerSec > 0 && i + 1 < |es| && TripsBan(es, rl)
    requires VerdictOf(es[..i + 1], rl) == Some(Banned) || Restarts(StateOf(es[..i], rl), es[i])
    ensures LimitedAfter(es, i, rl) + 1 >= rl.banThreshold > 0
  {
    var before, now := es[..|es| - 1], es[|es| - 1].now;
    assert before[..i + 1] == es[..i + 1] && before[..i] == es[..i];
    CountSinceBan(before, i, rl);
    var s := StateOf(before, rl);
    if Restarts(s, es[|es| - 1]) { RestartAllows(s, now, rl); }
  }

  /** The entry after `n` checks that all read `t`. */
  function CheckMany(s: Option<Bucket>, t: real, n: nat, rl: Limits): Option<Bucket> {
    if n == 0 then s else Step(CheckMany(s, t, n - 1, rl), CheckAt(t), rl)
  }

  lemma {:induction false} SpendFromRestart(s: Option<Bucket>, t: real, n: nat, rl: Limits)
    requires rl.reqPerSec > 0 && Restarts(s, CheckAt(t)) && 1 <= n <= rl.reqPerSec + rl.burst
    ensures var after := CheckMany(s, t, n, rl);
            after.Some? && after.value.bannedUntil == None && after.value.last == t
            && after.value.tokens == Cap(rl) - n as real
  {
    if n == 1 {
      RestartAllows(s, t, rl);
    } else {
      SpendFromRestart(s, t, n - 1, rl);
      WorthPositive(t, t, rl);
    }
  }

  /** Main result: a new client, and one whose ban is over, is allowed exactly rps + burst checks
      at once: after `n` of them one more is allowed iff n < rps + burst. */
  lemma RestartServes(es: seq<Event>, t: real, n: nat, rl: Limits)
    requires rl.reqPerSec > 0 && Restarts(StateOf(es, rl), CheckAt(t)) && n <= rl.reqPerSec + rl.burst
    ensures StepVerdict(CheckMany(StateOf(es, rl), t, n, rl), CheckAt(t), rl) == Some(Allow)
            <==> n < rl.reqPerSec + rl.burst
  {
    RestartAllows(StateOf(es, rl), t, rl);
    if n > 0 {
      SpendFromRestart(StateOf(es, rl), t, n, rl);
      WorthPositive(t, t, rl);
    }
  }
}
