/** When the limiter's idle sweeper cannot be noticed: the exact condition, auto-ban or not. */
module LimiterSweeps {
  import opened Wrappers
  import opened Ledger
  import opened Limiter

  function Unswept(es: seq<Event>): seq<Event> {
    if es == [] then []
    else Unswept(es[..|es| - 1]) + (if es[|es| - 1].CheckAt? then [es[|es| - 1]] else [])
  }

  /** No run in clock order tells whether the sweeper ran. */
  ghost predicate SweepInvisible(rl: Limits) {
    forall es, t | InClockOrder(es + [CheckAt(t)]) ::
      VerdictOf(es + [CheckAt(t)], rl) == VerdictOf(Unswept(es) + [CheckAt(t)], rl)
  }

  // ----- It cannot: misses are forgotten or ban at once, and idle buckets are full -----

  /** The entries of a swept and an unswept run that answer alike from time `at` on. */
  predicate AnswersAlike(swept: Option<Bucket>, kept: Option<Bucket>, at: real, rl: Limits) {
    match (swept, kept)
    case (None, None) => true
    case (Some(x), Some(y)) =>
      x.tokens == y.tokens && x.last == y.last && x.last <= at && x.bannedUntil == y.bannedUntil
    case (None, Some(y)) =>
      y.last <= at && if y.bannedUntil.Some? then y.bannedUntil.value <= at
                      else y.tokens + Worth(at, y.last, rl.reqPerSec) >= Cap(rl)
    case _ => false
  }

  lemma CheckAnswersAlike(swept: Option<Bucket>, kept: Option<Bucket>, now: real, rl: Limits)
    requires rl.reqPerSec > 0 && rl.banThreshold <= 1
    requires AnswersAlike(swept, kept, now, rl) && TokensInRange(kept, rl)
    ensures AnswersAlike(Step(swept, CheckAt(now), rl), Step(kept, CheckAt(now), rl), now, rl)
    ensures StepVerdict(swept, CheckAt(now), rl) == StepVerdict(kept, CheckAt(now), rl)
  {
    if kept.Some? { WorthPositive(kept.value.last, now, rl); }
    WorthPositive(now, now, rl);
  }

  lemma SweepAnswersAlike(swept: Option<Bucket>, kept: Option<Bucket>, now: real, rl: Limits)
    requires rl.burst <= 299 * rl.reqPerSec
    requires AnswersAlike(swept, kept, now, rl) && TokensInRange(kept, rl)
    ensures AnswersAlike(Step(swept, SweepAt(now), rl), kept, now, rl)
  {
    if kept.Some? { IdleRefills(kept.value, now, now, rl); }
  }

  lemma LaterAnswersAlike(swept: Option<Bucket>, kept: Option<Bucket>, now: real, at: real, rl: Limits)
    requires AnswersAlike(swept, kept, now, rl) && TokensInRange(kept, rl) && now <= at
    ensures AnswersAlike(swept, kept, at, rl)
  {
    if kept.Some? { IdleRefills(kept.value, now, at, rl); }
  }

  lemma {:induction false} SweptAnswersAlike(es: seq<Event>, at: real, rl: Limits)
    requires rl.reqPerSec > 0 && rl.banThreshold <= 1 && rl.burst <= 299 * rl.reqPerSec
    requires InClockOrder(es) && forall i | 0 <= i < |es| :: es[i].now <= at
    ensures AnswersAlike(StateOf(es, rl), StateOf(Unswept(es), rl), at, rl)
    decreases |es|
  {
    if es != [] {
      var before, e := es[..|es| - 1], es[|es| - 1];
      var u := Unswept(before);
      SweptAnswersAlike(before, e.now, rl);
      TokensStayInRange(u, rl);
      if e.CheckAt? {
        CheckAnswersAlike(StateOf(before, rl), StateOf(u, rl), e.now, rl);
        assert (u + [e])[..|u|] == u;
      } else {
        SweepAnswersAlike(StateOf(before, rl), StateOf(u, rl), e.now, rl);
        assert Unswept(es) == u;
      }
      TokensStayInRange(Unswept(es), rl);
      LaterAnswersAlike(StateOf(es, rl), StateOf(Unswept(es), rl), e.now, at, rl);
    }
  }

  lemma IdleRefills(st: Bucket, now: real, at: real, rl: Limits)
    requires st.tokens >= 0.0 && st.last <= now <= at
    ensures Worth(at, st.last, rl.reqPerSec) >= Worth(now, st.last, rl.reqPerSec)
    ensures Elapsed(now, st.last) >= IDLE_SECS && rl.burst <= 299 * rl.reqPerSec ==>
              st.tokens + Worth(now, st.last, rl.reqPerSec) >= Cap(rl)
  {
    WorthWiden(st.last, now, st.last, at, rl.reqPerSec);
    if Elapsed(now, st.last) >= IDLE_SECS && rl.burst <= 299 * rl.reqPerSec {
      TimesGrows(rl.reqPerSec, IDLE_SECS, Elapsed(now, st.last));
      IdleWorth(rl);
    }
  }

  lemma IdleWorth(rl: Limits)
    ensures Times(rl.reqPerSec, IDLE_SECS) == (300 * rl.reqPerSec) as real
  {
    TimesIsProduct(rl.reqPerSec, IDLE_SECS);
    assert (300 * rl.reqPerSec) as real == 300.0 * rl.reqPerSec as real;
  }

  // ----- Two runs that differ in a sweep -----

  /** `a` is in clock order up to `at`, is `b` without its sweeps, and they leave these entries. */
  ghost predicate Twins(a: seq<Event>, b: seq<Event>, at: real, x: Option<Bucket>, y: Option<Bucket>, rl: Limits) {
    && InClockOrder(a) && (forall i | 0 <= i < |a| :: a[i].now <= at) && Unswept(a) == b
    && StateOf(a, rl) == x && StateOf(b, rl) == y
  }

  lemma OrderSnoc(es: seq<Event>, at: real, e: Event)
    requires InClockOrder(es) && (forall i | 0 <= i < |es| :: es[i].now <= at) && at <= e.now
    ensures InClockOrder(es + [e]) && forall i | 0 <= i < |es + [e]| :: (es + [e])[i].now <= e.now
    ensures Unswept(es + [e]) == Unswept(es) + if e.CheckAt? then [e] else []
  {
    var all := es + [e];
    forall i, j | 0 <= i < j < |all| ensures all[i].now <= all[j].now {
      assert all[i] == es[i] && (j < |es| ==> all[j] == es[j]);
    }
    UnsweptSnoc(es, e);
  }

  lemma UnsweptSnoc(es: seq<Event>, e: Event)
    ensures Unswept(es + [e]) == Unswept(es) + if e.CheckAt? then [e] else []
  {
    assert (es + [e])[..|es|] == es;
  }

  lemma BothCheck(a: seq<Event>, b: seq<Event>, at: real, x: Option<Bucket>, y: Option<Bucket>, t: real, rl: Limits)
    returns (a': seq<Event>, b': seq<Event>)
    requires Twins(a, b, at, x, y, rl) && at <= t
    ensures Twins(a', b', t, Step(x, CheckAt(t), rl), Step(y, CheckAt(t), rl), rl)
    ensures a' == a + [CheckAt(t)] && b' == b + [CheckAt(t)]
  {
    a', b' := a + [CheckAt(t)], b + [CheckAt(t)];
    StateSnoc(a, CheckAt(t), rl);
    StateSnoc(b, CheckAt(t), rl);
    OrderSnoc(a, at, CheckAt(t));
  }

  lemma OneSweep(a: seq<Event>, b: seq<Event>, at: real, x: Option<Bucket>, y: Option<Bucket>, t: real, rl: Limits)
    returns (a': seq<Event>)
    requires Twins(a, b, at, x, y, rl) && at <= t
    ensures Twins(a', b, t, Step(x, SweepAt(t), rl), y, rl)
  {
    a' := a + [SweepAt(t)];
    StateSnoc(a, SweepAt(t), rl);
    OrderSnoc(a, at, SweepAt(t));
  }

  lemma {:induction false} BothCheckMany(a: seq<Event>, b: seq<Event>, t: real, x: Option<Bucket>, y: Option<Bucket>,
                                         n: nat, rl: Limits)
    returns (a': seq<Event>, b': seq<Event>)
    requires Twins(a, b, t, x, y, rl)
    ensures Twins(a', b', t, CheckMany(x, t, n, rl), CheckMany(y, t, n, rl), rl)
  {
    a', b' := a, b;
    if n > 0 {
      a', b' := BothCheckMany(a, b, t, x, y, n - 1, rl);
      a', b' := BothCheck(a', b', t, CheckMany(x, t, n - 1, rl), CheckMany(y, t, n - 1, rl), t, rl);
    }
  }

  /** A check that the two entries answer differently tells that the sweeper ran. */
  lemma Tells(a: seq<Event>, b: seq<Event>, at: real, x: Option<Bucket>, y: Option<Bucket>, t: real, rl: Limits)
    requires Twins(a, b, at, x, y, rl) && at <= t
    requires StepVerdict(x, CheckAt(t), rl) != StepVerdict(y, CheckAt(t), rl)
    ensures !SweepInvisible(rl)
  {
    StateSnoc(a, CheckAt(t), rl);
    StateSnoc(b, CheckAt(t), rl);
    assert InClockOrder(a + [CheckAt(t)]);
  }

  /** Checks at an entry's last reading that it has tokens for. */
  lemma {:induction false} ManySpend(st: Bucket, n: nat, rl: Limits)
    requires st.bannedUntil == None && n as real <= st.tokens <= Cap(rl)
    ensures CheckMany(Some(st), st.last, n, rl) == Some(st.(tokens := st.tokens - n as real))
  {
    if n > 0 {
      ManySpend(st, n - 1, rl);
      WorthPositive(st.last, st.last, rl);
    }
  }

  /** Checks that it has none for: within the counting window the misses add up. */
  lemma {:induction false} ManyMiss(st: Bucket, n: nat, rl: Limits)
    requires st.bannedUntil == None && st.tokens == 0.0 && rl.reqPerSec > 0
    requires Elapsed(st.last, st.vwindow) <= Max1(rl.banWindow) && st.violations + n < rl.banThreshold
    ensures CheckMany(Some(st), st.last, n, rl) == Some(st.(violations := st.violations + n))
  {
    if n > 0 {
      ManyMiss(st, n - 1, rl);
      WorthPositive(st.last, st.last, rl);
    }
  }

  // ----- The entry is swept in one run only -----

  /** What a new entry with `k` more checks at 0 has left. */
  function UsedAtZero(k: nat, rl: Limits): Bucket {
    Bucket(Cap(rl) - 1.0 - k as real, 0.0, 0, 0.0, None)
  }

  lemma UseAtZero(k: nat, rl: Limits) returns (a: seq<Event>, b: seq<Event>)
    requires rl.reqPerSec > 0 && k < rl.reqPerSec + rl.burst
    ensures Twins(a, b, 0.0, Some(UsedAtZero(k, rl)), Some(UsedAtZero(k, rl)), rl)
  {
    var unused := UsedAtZero(0, rl);
    CheckNew(0.0, rl);
    a, b := BothCheck([], [], 0.0, None, None, 0.0, rl);
    ManySpend(unused, k, rl);
    a, b := BothCheckMany(a, b, 0.0, Some(unused), Some(unused), k, rl);
  }

  lemma IdleIsSwept(st: Bucket, rl: Limits)
    requires st.last == 0.0 && st.bannedUntil == None
    ensures Step(Some(st), SweepAt(IDLE_SECS), rl) == None
  {
  }

  /** A sweep at 300 and a check after it: the swept entry is new, the other was refilled. */
  lemma Part(k: nat, left: nat, rl: Limits) returns (a: seq<Event>, b: seq<Event>)
    requires rl.reqPerSec > 0 && k < rl.reqPerSec + rl.burst
    requires CheckEntry(Some(UsedAtZero(k, rl)), IDLE_SECS, rl).0 == Bucket(left as real, IDLE_SECS, 0, 0.0, None)
    ensures Twins(a, b, IDLE_SECS, Some(Bucket(Cap(rl) - 1.0, IDLE_SECS, 0, IDLE_SECS, None)),
                  Some(Bucket(left as real, IDLE_SECS, 0, 0.0, None)), rl)
  {
    var st := UsedAtZero(k, rl);
    a, b := UseAtZero(k, rl);
    IdleIsSwept(st, rl);
    a := OneSweep(a, b, 0.0, Some(st), Some(st), IDLE_SECS, rl);
    CheckNew(IDLE_SECS, rl);
    a, b := BothCheck(a, b, IDLE_SECS, None, Some(st), IDLE_SECS, rl);
  }

  // ----- A burst too large to be regained: a sweep refills what idling does not -----

  lemma RegainedCheck(rl: Limits)
    requires rl.reqPerSec > 0 && rl.burst > 299 * rl.reqPerSec
    ensures CheckEntry(Some(UsedAtZero(rl.reqPerSec + rl.burst - 1, rl)), IDLE_SECS, rl).0
         == Bucket((300 * rl.reqPerSec - 1) as real, IDLE_SECS, 0, 0.0, None)
  {
    IdleWorth(rl);
  }

  /** Spend a bucket at 0, sweep at 300 or not, and spend at 300 what the unswept one has regained. */
  lemma LargeBurstTells(rl: Limits)
    requires rl.reqPerSec > 0 && rl.burst > 299 * rl.reqPerSec
    ensures !SweepInvisible(rl)
  {
    var regained := 300 * rl.reqPerSec - 1;
    RegainedCheck(rl);
    var a, b := Part(rl.reqPerSec + rl.burst - 1, regained, rl);
    SpendRegained(a, b, regained, rl);
  }

  lemma SpendRegained(a: seq<Event>, b: seq<Event>, n: nat, rl: Limits)
    requires n as real + 1.0 <= Cap(rl) - 1.0
    requires Twins(a, b, IDLE_SECS, Some(Bucket(Cap(rl) - 1.0, IDLE_SECS, 0, IDLE_SECS, None)),
                   Some(Bucket(n as real, IDLE_SECS, 0, 0.0, None)), rl)
    ensures !SweepInvisible(rl)
  {
    var x, y := Bucket(Cap(rl) - 1.0, IDLE_SECS, 0, IDLE_SECS, None), Bucket(n as real, IDLE_SECS, 0, 0.0, None);
    ManySpend(x, n, rl);
    ManySpend(y, n, rl);
    var a', b' := BothCheckMany(a, b, IDLE_SECS, Some(x), Some(y), n, rl);
    WorthPositive(IDLE_SECS, IDLE_SECS, rl);
    Tells(a', b', IDLE_SECS, Some(x.(tokens := x.tokens - n as real)), Some(y.(tokens := 0.0)), IDLE_SECS, rl);
  }

  // ----- A count of two or more: a sweep moves the beginning of the counting window -----

  /** The end of a counting window that begins at 300. */
  function Edge(rl: Limits): real {
    IDLE_SECS + Max1(rl.banWindow)
  }

  /** A moment too short to earn a token. */
  function Moment(rl: Limits): real
    requires rl.reqPerSec > 0
  {
    0.5 / rl.reqPerSec as real
  }

  lemma MomentIsShort(rl: Limits)
    requires rl.reqPerSec > 0
    ensures 0.0 < Moment(rl) <= 0.5 && Times(rl.reqPerSec, Moment(rl)) == 0.5
  {
    TimesIsProduct(rl.reqPerSec, Moment(rl));
    assert rl.reqPerSec as real * (0.5 / rl.reqPerSec as real) == 0.5;
  }

  /** Once refilled at 300, an entry is full again at the edge. */
  lemma FullAgain(rl: Limits, w: real)
    requires rl.reqPerSec > 0
    ensures CheckEntry(Some(Bucket(Cap(rl) - 1.0, IDLE_SECS, 0, w, None)), Edge(rl), rl).0
         == Bucket(Cap(rl) - 1.0, Edge(rl), 0, w, None)
  {
    TimesGrows(rl.reqPerSec, 1.0, Max1(rl.banWindow));
    TimesIsProduct(rl.reqPerSec, 1.0);
  }

  lemma FullAt300(rl: Limits)
    requires rl.reqPerSec > 0
    ensures CheckEntry(Some(UsedAtZero(0, rl)), IDLE_SECS, rl).0
         == Bucket((rl.reqPerSec + rl.burst - 1) as real, IDLE_SECS, 0, 0.0, None)
  {
    TimesGrows(rl.reqPerSec, 1.0, IDLE_SECS);
    TimesIsProduct(rl.reqPerSec, 1.0);
  }

  /** All tokens are spent at the edge: only the beginning of the counting window differs. */
  lemma SpentAtEdge(rl: Limits) returns (a: seq<Event>, b: seq<Event>)
    requires rl.reqPerSec > 0
    ensures Twins(a, b, Edge(rl), Some(Bucket(0.0, Edge(rl), 0, IDLE_SECS, None)), Some(Bucket(0.0, Edge(rl), 0, 0.0, None)), rl)
  {
    var n := rl.reqPerSec + rl.burst - 1;
    FullAt300(rl);
    a, b := Part(0, n, rl);
    a, b := SpendAtEdge(a, b, Bucket(n as real, IDLE_SECS, 0, IDLE_SECS, None), n, rl);
  }

  lemma SpendAtEdge(a: seq<Event>, b: seq<Event>, st: Bucket, n: nat, rl: Limits)
    returns (a': seq<Event>, b': seq<Event>)
    requires rl.reqPerSec > 0 && n == rl.reqPerSec + rl.burst - 1 && st == Bucket(n as real, IDLE_SECS, 0, IDLE_SECS, None)
    requires Twins(a, b, IDLE_SECS, Some(st), Some(st.(vwindow := 0.0)), rl)
    ensures Twins(a', b', Edge(rl), Some(Bucket(0.0, Edge(rl), 0, IDLE_SECS, None)), Some(Bucket(0.0, Edge(rl), 0, 0.0, None)), rl)
  {
    FullAgain(rl, 0.0);
    FullAgain(rl, IDLE_SECS);
    a', b' := BothCheck(a, b, IDLE_SECS, Some(st), Some(st.(vwindow := 0.0)), Edge(rl), rl);
    var x := st.(last := Edge(rl));
    ManySpend(x, n, rl);
    ManySpend(x.(vwindow := 0.0), n, rl);
    a', b' := BothCheckMany(a', b', Edge(rl), Some(x), Some(x.(vwindow := 0.0)), n, rl);
  }

  /** All but one of a ban's misses follow. Unswept, the first of them begins a new window; swept,
      the window is about to end. */
  lemma MissedAtEdge(rl: Limits) returns (a: seq<Event>, b: seq<Event>)
    requires rl.reqPerSec > 0 && rl.banThreshold >= 2
    ensures var v := rl.banThreshold - 1;
            Twins(a, b, Edge(rl), Some(Bucket(0.0, Edge(rl), v, IDLE_SECS, None)),
                  Some(Bucket(0.0, Edge(rl), v, Edge(rl), None)), rl)
  {
    var x, y := Bucket(0.0, Edge(rl), 0, IDLE_SECS, None), Bucket(0.0, Edge(rl), 1, Edge(rl), None);
    a, b := SpentAtEdge(rl);
    FirstMiss(rl);
    a, b := BothCheck(a, b, Edge(rl), Some(x), Some(x.(vwindow := 0.0)), Edge(rl), rl);
    a, b := BothMiss(a, b, x.(violations := 1), y, rl.banThreshold - 2, rl);
  }

  lemma BothMiss(a: seq<Event>, b: seq<Event>, x: Bucket, y: Bucket, n: nat, rl: Limits) returns (a': seq<Event>, b': seq<Event>)
    requires rl.reqPerSec > 0 && Twins(a, b, x.last, Some(x), Some(y), rl) && x.last == y.last
    requires x.bannedUntil == None && x.tokens == 0.0 && y.bannedUntil == None && y.tokens == 0.0
    requires Elapsed(x.last, x.vwindow) <= Max1(rl.banWindow) && x.violations + n < rl.banThreshold
    requires Elapsed(y.last, y.vwindow) <= Max1(rl.banWindow) && y.violations + n < rl.banThreshold
    ensures Twins(a', b', x.last, Some(x.(violations := x.violations + n)), Some(y.(violations := y.violations + n)), rl)
  {
    ManyMiss(x, n, rl);
    ManyMiss(y, n, rl);
    a', b' := BothCheckMany(a, b, x.last, Some(x), Some(y), n, rl);
  }

  lemma FirstMiss(rl: Limits)
    requires rl.reqPerSec > 0 && rl.banThreshold >= 2
    ensures var x, t := Bucket(0.0, Edge(rl), 0, IDLE_SECS, None), CheckAt(Edge(rl));
            Step(Some(x), t, rl) == Some(x.(violations := 1))
            && Step(Some(x.(vwindow := 0.0)), t, rl) == Some(x.(violations := 1, vwindow := Edge(rl)))
  {
    WorthPositive(Edge(rl), Edge(rl), rl);
  }

  /** A moment past the edge, the next miss bans the unswept client and is the swept one's first. */
  lemma TwoMissesTell(rl: Limits)
    requires rl.reqPerSec > 0 && rl.banThreshold >= 2
    ensures !SweepInvisible(rl)
  {
    var t, v := Edge(rl) + Moment(rl), rl.banThreshold - 1;
    var a, b := MissedAtEdge(rl);
    MomentIsShort(rl);
    assert Worth(t, Edge(rl), rl.reqPerSec) == 0.5;
    Tells(a, b, Edge(rl), Some(Bucket(0.0, Edge(rl), v, IDLE_SECS, None)), Some(Bucket(0.0, Edge(rl), v, Edge(rl), None)), t, rl);
  }

  // ----- The exact condition -----

  /** Main result, for all limits: the sweeper changes no verdict of any run in clock order exactly
      when the burst is at most 299 times the rate and no ban needs more than one miss. */
  lemma SweepInvisibleIff(rl: Limits)
    requires rl.reqPerSec > 0
    ensures SweepInvisible(rl) <==> rl.burst <= 299 * rl.reqPerSec && rl.banThreshold <= 1
  {
    if rl.burst > 299 * rl.reqPerSec {
      LargeBurstTells(rl);
    } else if rl.banThreshold >= 2 {
      TwoMissesTell(rl);
    } else {
      forall es: seq<Event>, t | InClockOrder(es + [CheckAt(t)])
        ensures VerdictOf(es + [CheckAt(t)], rl) == VerdictOf(Unswept(es) + [CheckAt(t)], rl)
      {
        SameVerdict(es, t, rl);
      }
    }
  }

  lemma SameVerdict(es: seq<Event>, t: real, rl: Limits)
    requires rl.reqPerSec > 0 && rl.burst <= 299 * rl.reqPerSec && rl.banThreshold <= 1
    requires InClockOrder(es + [CheckAt(t)])
    ensures VerdictOf(es + [CheckAt(t)], rl) == VerdictOf(Unswept(es) + [CheckAt(t)], rl)
  {
    assert forall i | 0 <= i < |es| :: es[i] == (es + [CheckAt(t)])[i];
    assert (es + [CheckAt(t)])[|es|] == CheckAt(t);
    SweptAnswersAlike(es, t, rl);
    TokensStayInRange(Unswept(es), rl);
    CheckAnswersAlike(StateOf(es, rl), StateOf(Unswept(es), rl), t, rl);
    StateSnoc(es, CheckAt(t), rl);
    StateSnoc(Unswept(es), CheckAt(t), rl);
  }
}
