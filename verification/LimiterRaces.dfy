/** Requests whose clock readings are taken before the limiter's lock, and so can be
    served out of order: what that adds to the window bound, exactly. */
module LimiterRaces {
  import opened Wrappers
  import opened Ledger
  import opened Limiter

  /** The window bound with the refill counted `k` times, over all runs with at most `d` backward readings. */
  ghost predicate BoundHolds(d: nat, k: nat, rl: Limits) {
    forall es: seq<Event>, i: nat, s: real, t: real
      | i < |es| && ReadIn(es, i, s, t) && Backsteps(TimesFrom(es, i)) <= d ::
      AllowedSince(es, i, rl) as real <= Allowance(es, i, s, t, k, rl)
  }

  // ----- A run that goes back `d` times -----

  /** How long a ban lasts, in whole seconds. */
  function Penalty(rl: Limits): nat {
    60 * if rl.banMinutes == 0 then 1 else rl.banMinutes
  }

  /** An entry that no ban holds, last refilled at the last reading. */
  predicate Open(st: Bucket, sum: Tally, rl: Limits) {
    st.bannedUntil == None && st.last == sum.at && 0.0 <= st.tokens <= Cap(rl)
  }

  predicate ReadUpTo(es: seq<Event>, top: real) {
    forall e | e in es :: 0.0 <= e.now <= top
  }

  /** A second later, one second's worth of checks is allowed. */
  lemma Second(es: seq<Event>, st: Bucket, sum: Tally, rl: Limits) returns (all: seq<Event>, st': Bucket, sum': Tally)
    requires rl.reqPerSec > 0 && ComesTo(es, st, sum, rl) && Open(st, sum, rl)
    ensures ComesTo(all, st', sum', rl) && Open(st', sum', rl)
    ensures sum' == Tally(sum.at + 1.0, sum.allowed + rl.reqPerSec, sum.restarts, sum.backsteps)
    ensures forall e | e in all :: e in es || e == CheckAt(sum.at + 1.0)
  {
    var now := sum.at + 1.0;
    OneSecond(st, rl);
    OneMore(es, st, sum, now, rl);
    var first := TallyAfter(sum, Some(st), CheckAt(now), rl);
    var paid := CheckEntry(Some(st), now, rl).0;
    all := SpendAtOnce(es + [CheckAt(now)], paid, first, rl.reqPerSec - 1, rl);
    st', sum' := paid.(tokens := paid.tokens - (rl.reqPerSec - 1) as real), first.(allowed := first.allowed + (rl.reqPerSec - 1));
  }

  lemma OneSecond(st: Bucket, rl: Limits)
    requires rl.reqPerSec > 0 && st.bannedUntil == None && 0.0 <= st.tokens <= Cap(rl)
    ensures var (after, v) := CheckEntry(Some(st), st.last + 1.0, rl);
            v == Allow && after.bannedUntil == None && after.last == st.last + 1.0
            && (rl.reqPerSec - 1) as real <= after.tokens <= Cap(rl)
  {
    TimesIsProduct(rl.reqPerSec, 1.0);
  }

  /** `n` seconds of that. */
  lemma {:induction false} Climb(es: seq<Event>, st: Bucket, sum: Tally, n: nat, top: real, rl: Limits)
    returns (all: seq<Event>, st': Bucket, sum': Tally)
    requires rl.reqPerSec > 0 && ComesTo(es, st, sum, rl) && Open(st, sum, rl)
    requires ReadUpTo(es, top) && 0.0 <= sum.at <= top - n as real
    ensures ComesTo(all, st', sum', rl) && Open(st', sum', rl) && ReadUpTo(all, top)
    ensures sum'.at == sum.at + n as real && sum'.restarts == sum.restarts && sum'.backsteps == sum.backsteps
    ensures sum'.allowed as real == sum.allowed as real + Times(n, rl.reqPerSec as real)
  {
    all, st', sum' := es, st, sum;
    if n > 0 {
      all, st', sum' := Climb(es, st, sum, n - 1, top, rl);
      all, st', sum' := Second(all, st', sum', rl);
    }
  }

  /** Whatever a reading of 0 comes to, one check after a ban's length is allowed again. */
  lemma BackAndOn(st: Bucket, rl: Limits)
    requires rl.reqPerSec > 0 && st.bannedUntil == None && 0.0 <= st.tokens <= Cap(rl)
    ensures var back := CheckEntry(Some(st), 0.0, rl).0;
            var (after, v) := CheckEntry(Some(back), Penalty(rl) as real, rl);
            v == Allow && after.bannedUntil == None && after.last == Penalty(rl) as real && 0.0 <= after.tokens <= Cap(rl)
  {
    var back := CheckEntry(Some(st), 0.0, rl).0;
    WorthPositive(st.last, 0.0, rl);
    assert 0.0 <= back.tokens <= Cap(rl);
    assert back.bannedUntil == None || back.bannedUntil == Some(Penalty(rl) as real);
    var c := Penalty(rl) as real;
    if back.bannedUntil == None {
      assert back.last == 0.0;
      TimesIsProduct(rl.reqPerSec, 1.0);
      TimesGrows(rl.reqPerSec, 1.0, c);
    } else {
      WorthPositive(c, c, rl);
    }
  }

  /** One lap: back to 0, on by a ban's length, and up to the top again. */
  lemma Lap(es: seq<Event>, st: Bucket, sum: Tally, n: nat, rl: Limits) returns (all: seq<Event>, st': Bucket, sum': Tally)
    requires rl.reqPerSec > 0 && ComesTo(es, st, sum, rl) && Open(st, sum, rl)
    requires sum.at == (n + Penalty(rl)) as real && ReadUpTo(es, sum.at)
    ensures ComesTo(all, st', sum', rl) && Open(st', sum', rl) && ReadUpTo(all, sum.at) && sum'.at == sum.at
    ensures sum'.restarts <= sum.restarts + 1 && sum'.backsteps == sum.backsteps + 1
    ensures sum'.allowed as real >= sum.allowed as real + Times(n, rl.reqPerSec as real)
  {
    BackAndOn(st, rl);
    OneMore(es, st, sum, 0.0, rl);
    all, st', sum' := es + [CheckAt(0.0)], CheckEntry(Some(st), 0.0, rl).0, TallyAfter(sum, Some(st), CheckAt(0.0), rl);
    var c := Penalty(rl) as real;
    OneMore(all, st', sum', c, rl);
    all, st', sum' := all + [CheckAt(c)], CheckEntry(Some(st'), c, rl).0, TallyAfter(sum', Some(st'), CheckAt(c), rl);
    all, st', sum' := Climb(all, st', sum', n, sum.at, rl);
  }

  /** `d` laps after a first climb. */
  lemma {:induction false} Laps(d: nat, n: nat, rl: Limits) returns (es: seq<Event>, st: Bucket, sum: Tally)
    requires rl.reqPerSec > 0
    ensures ComesTo(es, st, sum, rl) && Open(st, sum, rl) && ReadUpTo(es, sum.at)
    ensures sum.at == (n + Penalty(rl)) as real && sum.restarts <= d + 1 && sum.backsteps == d
    ensures sum.allowed as real
         >= 1.0 + Times(n + Penalty(rl), rl.reqPerSec as real) + Times(d, Times(n, rl.reqPerSec as real))
  {
    if d == 0 {
      FirstCheck(0.0, rl);
      es, st, sum := Climb([CheckAt(0.0)], Bucket(Cap(rl) - 1.0, 0.0, 0, 0.0, None), Tally(0.0, 1, 1, 0),
                           n + Penalty(rl), (n + Penalty(rl)) as real, rl);
    } else {
      es, st, sum := Laps(d - 1, n, rl);
      es, st, sum := Lap(es, st, sum, n, rl);
    }
  }

  // ----- The exact factor -----

  /** `n` times `m`, added up. */
  function Sum(n: nat, m: nat): nat {
    if n == 0 then 0 else Sum(n - 1, m) + m
  }

  lemma {:induction false} SumIsTimes(n: nat, m: nat)
    ensures Sum(n, m) as real == Times(n, m as real)
  {
    if n > 0 { SumIsTimes(n - 1, m); }
  }

  lemma {:induction false} TimesSplit(a: nat, b: nat, x: real)
    ensures Times(a + b, x) == Times(a, x) + Times(b, x)
  {
    if b > 0 { TimesSplit(a, b - 1, x); }
  }

  lemma TimesSwap(a: nat, b: nat)
    ensures Times(a, b as real) == Times(b, a as real)
  {
    TimesIsProduct(a, b as real);
    TimesIsProduct(b, a as real);
  }

  lemma {:induction false} TimesAtLeast(n: nat, x: real)
    requires x >= 1.0
    ensures Times(n, x) >= n as real
  {
    if n > 0 { TimesAtLeast(n - 1, x); }
  }

  /** What a lap may cost: a full bucket, and what a ban's length would have earned. */
  function Cost(rl: Limits): nat {
    rl.reqPerSec + rl.burst + Sum(Penalty(rl), rl.reqPerSec)
  }

  /** The climb, in seconds, that makes up for all laps' costs. */
  function Height(d: nat, rl: Limits): nat {
    Sum(d + 1, Cost(rl))
  }

  lemma HeightPays(d: nat, rl: Limits)
    requires rl.reqPerSec > 0
    ensures Times(Height(d, rl), rl.reqPerSec as real)
         >= Times(d + 1, Cap(rl)) + Times(d, Times(Penalty(rl), rl.reqPerSec as real))
  {
    var missed := Times(Penalty(rl), rl.reqPerSec as real);
    SumIsTimes(Penalty(rl), rl.reqPerSec);
    SumIsTimes(d + 1, Cost(rl));
    assert Cost(rl) as real == Cap(rl) + missed;
    TimesAdds(d + 1, Cap(rl), missed);
    TimesAtLeast(Height(d, rl), rl.reqPerSec as real);
    TimesAtLeast(Penalty(rl), rl.reqPerSec as real);
  }

  lemma UnknownAllowance(es: seq<Event>, t: real, k: nat, rl: Limits)
    requires es != []
    ensures Allowance(es, 0, 0.0, t, k, rl)
         == Times(RestartsSince(es, 0, rl), Cap(rl)) + Times(k, Worth(t, 0.0, rl.reqPerSec))
  {
    assert es[..0] == [];
  }

  /** For all limits, `d` backward readings can beat the bound with the refill counted at most `d` times. */
  lemma OutOfOrderExceeds(d: nat, k: nat, rl: Limits) returns (es: seq<Event>, t: real)
    requires rl.reqPerSec > 0 && k <= d
    ensures es != [] && ReadIn(es, 0, 0.0, t) && Backsteps(TimesFrom(es, 0)) == d
    ensures AllowedSince(es, 0, rl) as real > Allowance(es, 0, 0.0, t, k, rl)
  {
    var st, sum;
    var n := Height(d, rl);
    es, st, sum := Laps(d, n, rl);
    t := sum.at;
    TallyCounts(es, rl);
    assert forall i | 0 <= i < |es| :: es[i] in es;
    UnknownAllowance(es, t, k, rl);
    LapsExceed(sum.allowed as real, sum.restarts, d, k, rl);
  }

  lemma LapsExceed(allowed: real, restarts: nat, d: nat, k: nat, rl: Limits)
    requires rl.reqPerSec > 0 && k <= d && restarts <= d + 1
    requires var n := Height(d, rl);
             allowed >= 1.0 + Times(n + Penalty(rl), rl.reqPerSec as real) + Times(d, Times(n, rl.reqPerSec as real))
    ensures allowed > Times(restarts, Cap(rl)) + Times(k, Worth((Height(d, rl) + Penalty(rl)) as real, 0.0, rl.reqPerSec))
  {
    var n, c, rps := Height(d, rl), Penalty(rl), rl.reqPerSec as real;
    TimesSplit(n, c, rps);
    TimesSwap(rl.reqPerSec, n + c);
    TimesAdds(d, Times(n, rps), Times(c, rps));
    TimesAtLeast(n + c, rps);
    TimesMore(restarts, d + 1, Cap(rl));
    TimesMore(k, d, Times(n + c, rps));
    TimesAtLeast(c, rps);
    HeightPays(d, rl);
  }

  /** Main result, for all limits: with at most `d` backward readings the bound holds with the
      refill counted k times exactly for k >= d + 1; so the window bound itself needs clock order. */
  lemma BoundHoldsIff(d: nat, k: nat, rl: Limits)
    requires rl.reqPerSec > 0
    ensures BoundHolds(d, k, rl) <==> k >= d + 1
  {
    if k >= d + 1 {
      forall es: seq<Event>, i: nat, s: real, t: real | i < |es| && ReadIn(es, i, s, t) && Backsteps(TimesFrom(es, i)) <= d
        ensures AllowedSince(es, i, rl) as real <= Allowance(es, i, s, t, k, rl)
      {
        DisorderBound(es, i, s, t, rl);
        TimesGrows(rl.reqPerSec, 0.0, Elapsed(t, s));
        TimesMore(Backsteps(TimesFrom(es, i)) + 1, k, Worth(t, s, rl.reqPerSec));
      }
    } else {
      var es, t := OutOfOrderExceeds(d, k, rl);
    }
  }
}
