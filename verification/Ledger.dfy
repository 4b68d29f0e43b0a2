/** Accounts over a sequence of steps: what is spent is paid for by what was there,
    what was granted and what was earned. */
module Ledger {

  /** A step finds a level, spends one unit or none, may be granted a full level, and leaves one. */
  datatype Entry = Entry(spends: bool, granted: bool, found: real, left: real)

  function One(b: bool): real {
    if b then 1.0 else 0.0
  }

  function Grant(b: bool, full: real): real {
    if b then full else 0.0
  }

  /** Time differences never go below zero, even when the readings are out of order. */
  function Elapsed(now: real, since: real): real {
    if now > since then now - since else 0.0
  }

  /** `n` times `x`, added up. */
  function Times(n: nat, x: real): real {
    if n == 0 then 0.0 else Times(n - 1, x) + x
  }

  /** What the time from `since` to `now` is worth at `rate` a second. */
  function Worth(now: real, since: real, rate: nat): real {
    Times(rate, Elapsed(now, since))
  }

  lemma {:induction false} TimesIsProduct(n: nat, x: real)
    ensures Times(n, x) == n as real * x
  {
    if n > 0 {
      var m := (n - 1) as real;
      TimesIsProduct(n - 1, x);
      assert m * x + x == (m + 1.0) * x;
      assert n as real == m + 1.0;
    }
  }

  lemma WorthIsProduct(now: real, since: real, rate: nat)
    ensures Worth(now, since, rate) == Elapsed(now, since) * rate as real
  {
    TimesIsProduct(rate, Elapsed(now, since));
  }

  lemma {:induction false} TimesAdds(n: nat, a: real, b: real)
    ensures Times(n, a + b) == Times(n, a) + Times(n, b)
  {
    if n > 0 { TimesAdds(n - 1, a, b); }
  }

  lemma {:induction false} TimesGrows(n: nat, a: real, b: real)
    requires a <= b
    ensures Times(n, a) <= Times(n, b) && Times(n, 0.0) == 0.0
  {
    if n > 0 { TimesGrows(n - 1, a, b); }
  }

  function SpentIn(es: seq<Entry>): nat {
    if es == [] then 0 else SpentIn(es[..|es| - 1]) + (if es[|es| - 1].spends then 1 else 0)
  }

  function GrantsIn(es: seq<Entry>): nat {
    if es == [] then 0 else GrantsIn(es[..|es| - 1]) + (if es[|es| - 1].granted then 1 else 0)
  }

  /** What has been earned between the readings, after the first. */
  function Earned(ts: seq<real>, rate: nat): real {
    if |ts| <= 1 then 0.0 else Earned(ts[..|ts| - 1], rate) + Worth(ts[|ts| - 1], ts[|ts| - 2], rate)
  }

  predicate Pays(e: Entry, full: real) {
    One(e.spends) + e.left <= e.found + Grant(e.granted, full)
  }

  predicate Follows(es: seq<Entry>, ts: seq<real>, rate: nat, k: nat)
    requires 0 < k < |es| == |ts|
  {
    es[k].found <= es[k - 1].left + Worth(ts[k], ts[k - 1], rate)
  }

  /** Steps taken at times `ts`, between which the level rises at most at `rate`. */
  predicate Balanced(es: seq<Entry>, ts: seq<real>, full: real, rate: nat) {
    && es != [] && |es| == |ts|
    && (forall k | 0 <= k < |es| :: Pays(es[k], full))
    && (forall k: nat | 0 < k < |es| :: Follows(es, ts, rate, k))
  }

  lemma CountsSnoc(es: seq<Entry>, e: Entry, full: real)
    ensures SpentIn(es + [e]) as real == SpentIn(es) as real + One(e.spends)
    ensures Times(GrantsIn(es + [e]), full) == Times(GrantsIn(es), full) + Grant(e.granted, full)
  {
    assert (es + [e])[..|es|] == es;
  }

  lemma Chain(spent: real, one: real, first: real, level: real, found: real, left: real, rise: real,
              grant: real, credit: real, earned: real)
    requires spent + level <= first + credit + earned
    requires found <= level + rise
    requires one + left <= found + grant
    ensures spent + one + left <= first + (credit + grant) + (earned + rise)
  {
  }

  /** Whatever the order of the readings, spending is covered by the level first found, the
      grants, and what the forward steps of the readings earned. */
  lemma {:induction false} SpentIsPaid(es: seq<Entry>, ts: seq<real>, full: real, rate: nat)
    requires Balanced(es, ts, full, rate)
    ensures SpentIn(es) as real + es[|es| - 1].left <= es[0].found + Times(GrantsIn(es), full) + Earned(ts, rate)
  {
    var n := |es| - 1;
    var before, e := es[..n], es[n];
    CountsSnoc(before, e, full);
    assert es == before + [e] && Pays(e, full);
    if n > 0 {
      assert Follows(es, ts, rate, n);
      forall k: nat | 0 < k < n ensures Follows(before, ts[..n], rate, k) { assert Follows(es, ts, rate, k); }
      SpentIsPaid(before, ts[..n], full, rate);
      Chain(SpentIn(before) as real, One(e.spends), es[0].found, es[n - 1].left, e.found, e.left,
            Worth(ts[n], ts[n - 1], rate), Grant(e.granted, full), Times(GrantsIn(before), full), Earned(ts[..n], rate));
    }
  }

  lemma WorthSum(a: real, b: real, c: real, rate: nat)
    requires a <= b <= c
    ensures Worth(c, b, rate) + Worth(b, a, rate) == Worth(c, a, rate)
  {
    TimesAdds(rate, Elapsed(c, b), Elapsed(b, a));
  }

  /** A detour through `b` is worth at least as much, whatever the order. */
  lemma WorthTriangle(a: real, b: real, c: real, rate: nat)
    ensures Worth(c, a, rate) <= Worth(c, b, rate) + Worth(b, a, rate)
  {
    TimesAdds(rate, Elapsed(c, b), Elapsed(b, a));
    TimesGrows(rate, Elapsed(c, a), Elapsed(c, b) + Elapsed(b, a));
  }

  lemma WorthWiden(a: real, b: real, s: real, t: real, rate: nat)
    requires s <= a && b <= t
    ensures 0.0 <= Worth(b, a, rate) <= Worth(t, s, rate)
  {
    TimesGrows(rate, 0.0, Elapsed(b, a));
    TimesGrows(rate, Elapsed(b, a), Elapsed(t, s));
  }

  /** How many readings lie before the one that precedes them. */
  function Backsteps(ts: seq<real>): nat {
    if |ts| <= 1 then 0
    else Backsteps(ts[..|ts| - 1]) + (if ts[|ts| - 1] < ts[|ts| - 2] then 1 else 0)
  }

  lemma {:induction false} NoBackstepsInOrder(ts: seq<real>)
    requires forall i, j | 0 <= i < j < |ts| :: ts[i] <= ts[j]
    ensures Backsteps(ts) == 0
  {
    if |ts| > 1 { NoBackstepsInOrder(ts[..|ts| - 1]); }
  }

  lemma BackstepsSnoc(ts: seq<real>, t: real)
    requires ts != []
    ensures Backsteps(ts + [t]) == Backsteps(ts) + (if t < ts[|ts| - 1] then 1 else 0)
  {
    assert (ts + [t])[..|ts|] == ts;
  }

  lemma TimesMore(k: nat, n: nat, x: real)
    requires k <= n && x >= 0.0
    ensures Times(k, x) <= Times(n, x)
    ensures k < n && x > 0.0 ==> Times(k, x) < Times(n, x)
  {
  }

  /** One more reading in [s, t]: a forward step earns its way, a backward one a whole window. */
  lemma DisorderStep(b: real, c: real, s: real, t: real, rate: nat)
    requires s <= b <= t && s <= c <= t
    ensures Worth(b, s, rate) + Worth(c, b, rate) <= (if c < b then Worth(t, s, rate) else 0.0) + Worth(c, s, rate)
  {
    if b <= c {
      WorthSum(s, b, c, rate);
    } else {
      TimesGrows(rate, 0.0, 0.0);
      WorthWiden(s, b, s, t, rate);
      WorthWiden(s, c, s, t, rate);
    }
  }

  /** In any order, each backward step lets the window's worth be earned once more. */
  lemma {:induction false} EarnedInDisorder(ts: seq<real>, s: real, t: real, rate: nat)
    requires ts != [] && forall i | 0 <= i < |ts| :: s <= ts[i] <= t
    ensures Earned(ts, rate) <= Times(Backsteps(ts), Worth(t, s, rate)) + Worth(ts[|ts| - 1], s, rate)
    ensures Worth(ts[|ts| - 1], s, rate) <= Worth(t, s, rate)
  {
    WorthWiden(s, ts[|ts| - 1], s, t, rate);
    if |ts| > 1 {
      EarnedInDisorder(ts[..|ts| - 1], s, t, rate);
      DisorderStep(ts[|ts| - 2], ts[|ts| - 1], s, t, rate);
    }
  }
}
