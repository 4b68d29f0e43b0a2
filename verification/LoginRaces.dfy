/** Login attempts that run at the same time. Each call of the failure limiter is one
    atomic step, and nothing keeps an attempt's question and its record together. */
module LoginRaces {
  import opened Wrappers
  import opened LoginPolicy

  /** An attempt asks for each of its keys in turn, holds those it was let through on, and
      then counts a failure on each, clears each, or leaves them as they are. */
  datatype Task = Task(toAsk: seq<string>, held: seq<string>, fails: Option<bool>)

  datatype State = State(now: real, failures: map<string, seq<real>>, tasks: map<nat, Task>)

  datatype Event =
    | Tick(d: real)
    | Arrive(t: nat, source: string, user: Option<string>)
    | Ask(t: nat)
    | Fail(t: nat)      // one `record` after a wrong password or code
    | Succeed(t: nat)   // one `clear`
    | Leave(t: nat)     // a code is asked for

  predicate Decides(s: State, t: nat, fails: bool) {
    t in s.tasks && s.tasks[t].toAsk == [] && s.tasks[t].held != [] && s.tasks[t].fails in {None, Some(fails)}
  }

  predicate Enabled(s: State, e: Event) {
    match e
    case Tick(d) => d >= 0.0
    case Arrive(t, source, _) => t !in s.tasks && IsSource(source)
    case Ask(t) => t in s.tasks && s.tasks[t].toAsk != []
    case Fail(t) => Decides(s, t, true)
    case Succeed(t) => Decides(s, t, false)
    case Leave(t) => Decides(s, t, true) && s.tasks[t].fails == None
  }

  function Keys(source: string, user: Option<string>): seq<string> {
    [source] + if user.Some? then [AccountKey(user.value)] else []
  }

  function RecentCount(s: State, k: string): nat {
    |Recent(Times(s.failures, k), s.now)|
  }

  function Asked(task: Task, allowed: bool): Task {
    if task.toAsk != [] && allowed then task.(toAsk := task.toAsk[1..], held := task.held + [task.toAsk[0]])
    else task.(toAsk := [], held := [])
  }

  function Settled(task: Task, fails: bool): Task {
    if task.held == [] then task else task.(held := task.held[1..], fails := Some(fails))
  }

  function Apply(s: State, e: Event): State
    requires Enabled(s, e)
  {
    match e
    case Tick(d) => s.(now := s.now + d)
    case Arrive(t, source, user) => s.(tasks := s.tasks[t := Task(Keys(source, user), [], None)])
    case Ask(t) => s.(tasks := s.tasks[t := Asked(s.tasks[t], RecentCount(s, s.tasks[t].toAsk[0]) < FAIL_MAX)])
    case Fail(t) =>
      s.(failures := Counted(s.failures, s.tasks[t].held[0], s.now), tasks := s.tasks[t := Settled(s.tasks[t], true)])
    case Succeed(t) =>
      s.(failures := s.failures - {s.tasks[t].held[0]}, tasks := s.tasks[t := Settled(s.tasks[t], false)])
    case Leave(t) => s.(tasks := s.tasks[t := s.tasks[t].(held := [])])
  }

  predicate Runs(es: seq<Event>)
    decreases |es|, 0
  {
    es == [] || (Runs(es[..|es| - 1]) && Enabled(After(es[..|es| - 1]), es[|es| - 1]))
  }

  function After(es: seq<Event>): State
    requires Runs(es)
    decreases |es|, 1
  {
    if es == [] then State(0.0, map[], map[]) else Apply(After(es[..|es| - 1]), es[|es| - 1])
  }

  /** The attempts let through on `k` that have neither counted nor cleared nor left it. */
  function InFlight(s: State, k: string): set<nat> {
    set t | t in s.tasks && k in s.tasks[t].held
  }

  /** At no moment of the run are more than `c` attempts in flight on `k`. */
  predicate AtMost(es: seq<Event>, k: string, c: nat)
    requires Runs(es)
  {
    |InFlight(After(es), k)| <= c && (es == [] || AtMost(es[..|es| - 1], k, c))
  }

  // ----- The bound -----

  /** The keys of an attempt are different, and stay so as it moves through them. */
  predicate KeysApart(task: Task) {
    |task.toAsk| + |task.held| <= 2
    && (|task.held| == 2 ==> task.held[0] != task.held[1])
    && (|task.toAsk| == 2 ==> task.toAsk[0] != task.toAsk[1])
    && (|task.toAsk| == 1 && |task.held| == 1 ==> task.toAsk[0] != task.held[0])
  }

  predicate AllApart(s: State) {
    forall t | t in s.tasks :: KeysApart(s.tasks[t])
  }

  /** Failures and attempts in flight together stay within the bound. */
  predicate Bounded(s: State, k: string, c: nat) {
    AllApart(s) && RecentCount(s, k) + |InFlight(s, k)| <= FAIL_MAX - 1 + c
  }

  lemma StaysApart(s: State, e: Event)
    requires AllApart(s) && Enabled(s, e)
    ensures AllApart(Apply(s, e))
  {
    if e.Arrive? { assert KeysApart(Task(Keys(e.source, e.user), [], None)); }
  }

  /** Only the acting attempt can enter or leave the flight on `k`. */
  lemma FlightOf(s: State, e: Event, k: string)
    requires Enabled(s, e)
    ensures var s' := Apply(s, e);
            InFlight(s', k) == if e.Tick? then InFlight(s, k)
                               else if k in s'.tasks[e.t].held then InFlight(s, k) + {e.t}
                               else InFlight(s, k) - {e.t}
  {
  }

  lemma FlightSize(flight: set<nat>, t: nat)
    ensures |flight - {t}| == |flight| - (if t in flight then 1 else 0)
    ensures t in flight ==> flight + {t} == flight
  {
    if t in flight { assert flight == flight - {t} + {t}; } else { assert flight - {t} == flight; }
  }

  lemma AskBounded(s: State, t: nat, k: string, c: nat)
    requires Bounded(s, k, c) && Enabled(s, Ask(t)) && |InFlight(Apply(s, Ask(t)), k)| <= c
    ensures RecentCount(Apply(s, Ask(t)), k) + |InFlight(Apply(s, Ask(t)), k)| <= FAIL_MAX - 1 + c
  {
    FlightOf(s, Ask(t), k);
    FlightSize(InFlight(s, k), t);
  }

  lemma FailBounded(s: State, t: nat, k: string, c: nat)
    requires Bounded(s, k, c) && Enabled(s, Fail(t))
    ensures RecentCount(Apply(s, Fail(t)), k) + |InFlight(Apply(s, Fail(t)), k)| <= FAIL_MAX - 1 + c
  {
    assert KeysApart(s.tasks[t]);
    FlightOf(s, Fail(t), k);
    FlightSize(InFlight(s, k), t);
    RecentSnoc(Times(s.failures, k), s.now, s.now);
  }

  lemma OtherBounded(s: State, e: Event, k: string, c: nat)
    requires Bounded(s, k, c) && Enabled(s, e) && (e.Tick? || e.Arrive? || e.Succeed? || e.Leave?)
    ensures RecentCount(Apply(s, e), k) + |InFlight(Apply(s, e), k)| <= FAIL_MAX - 1 + c
  {
    FlightOf(s, e, k);
    match e {
      case Tick(d) => RecentOfRecent(Times(s.failures, k), s.now, s.now + d);
      case Arrive(t, _, _) => FlightSize(InFlight(s, k), t);
      case Succeed(t) => FlightSize(InFlight(s, k), t);
      case Leave(t) => FlightSize(InFlight(s, k), t);
    }
  }

  lemma StepBounded(s: State, e: Event, k: string, c: nat)
    requires Bounded(s, k, c) && Enabled(s, e) && |InFlight(Apply(s, e), k)| <= c
    ensures Bounded(Apply(s, e), k, c)
  {
    StaysApart(s, e);
    match e {
      case Ask(t) => AskBounded(s, t, k, c);
      case Fail(t) => FailBounded(s, t, k, c);
      case _ => OtherBounded(s, e, k, c);
    }
  }

  /** Main result: in every run with at most `c` attempts in flight on a key, its failures of
      the last 300 s number at most FAIL_MAX - 1 + c. */
  lemma {:induction false} FailuresInFlight(es: seq<Event>, k: string, c: nat)
    requires Runs(es) && AtMost(es, k, c)
    ensures Bounded(After(es), k, c)
  {
    if es != [] {
      FailuresInFlight(es[..|es| - 1], k, c);
      StepBounded(After(es[..|es| - 1]), es[|es| - 1], k, c);
    }
  }

  // ----- The bound is attained -----

  lemma Extend(es: seq<Event>, e: Event, k: string, c: nat) returns (all: seq<Event>)
    requires Runs(es) && Enabled(After(es), e) && AtMost(es, k, c)
    requires |InFlight(Apply(After(es), e), k)| <= c
    ensures Runs(all) && After(all) == Apply(After(es), e) && AtMost(all, k, c)
  {
    all := es + [e];
    assert all[..|es|] == es;
  }

  /** Everyone in flight on `k` has asked for that key only, and has yet to decide. */
  predicate AllWaiting(s: State, k: string) {
    forall t | t in InFlight(s, k) :: s.tasks[t] == Task([], [k], None)
  }

  /** No attempt has a number from `n` on. */
  predicate FreeFrom(s: State, n: nat) {
    forall t | t in s.tasks :: t < n
  }

  lemma Arrives(s: State, n: nat, k: string)
    requires AllWaiting(s, k) && FreeFrom(s, n) && IsSource(k)
    ensures Enabled(s, Arrive(n, k, None))
    ensures var s' := Apply(s, Arrive(n, k, None));
            AllWaiting(s', k) && FreeFrom(s', n + 1) && InFlight(s', k) == InFlight(s, k)
            && s'.tasks[n] == Task([k], [], None) && RecentCount(s', k) == RecentCount(s, k)
  {
    FlightOf(s, Arrive(n, k, None), k);
  }

  lemma IsLetThrough(s: State, n: nat, k: string)
    requires n in s.tasks && s.tasks[n] == Task([k], [], None) && RecentCount(s, k) < FAIL_MAX
    requires AllWaiting(s, k) && FreeFrom(s, n + 1)
    ensures Enabled(s, Ask(n))
    ensures var s' := Apply(s, Ask(n));
            AllWaiting(s', k) && FreeFrom(s', n + 1) && InFlight(s', k) == InFlight(s, k) + {n}
            && n !in InFlight(s, k) && RecentCount(s', k) == RecentCount(s, k)
  {
    FlightOf(s, Ask(n), k);
    assert [k][1..] == [];
  }

  /** Below the cap, one more attempt is let through, whoever else is in flight. */
  lemma LetThrough(es: seq<Event>, n: nat, k: string, c: nat) returns (all: seq<Event>)
    requires Runs(es) && AtMost(es, k, c) && IsSource(k) && AllWaiting(After(es), k) && FreeFrom(After(es), n)
    requires RecentCount(After(es), k) < FAIL_MAX && |InFlight(After(es), k)| < c
    ensures Runs(all) && AtMost(all, k, c) && AllWaiting(After(all), k) && FreeFrom(After(all), n + 1)
    ensures RecentCount(After(all), k) == RecentCount(After(es), k)
    ensures InFlight(After(all), k) == InFlight(After(es), k) + {n}
    ensures |InFlight(After(all), k)| == |InFlight(After(es), k)| + 1
  {
    Arrives(After(es), n, k);
    all := Extend(es, Arrive(n, k, None), k, c);
    IsLetThrough(After(all), n, k);
    all := Extend(all, Ask(n), k, c);
  }

  /** One of those in flight counts its failure. */
  lemma Counts(es: seq<Event>, t: nat, n: nat, k: string, c: nat) returns (all: seq<Event>)
    requires Runs(es) && AtMost(es, k, c) && AllWaiting(After(es), k) && FreeFrom(After(es), n)
    requires t in InFlight(After(es), k)
    ensures Runs(all) && AtMost(all, k, c) && AllWaiting(After(all), k) && FreeFrom(After(all), n)
    ensures RecentCount(After(all), k) == RecentCount(After(es), k) + 1
    ensures InFlight(After(all), k) == InFlight(After(es), k) - {t}
    ensures |InFlight(After(all), k)| == |InFlight(After(es), k)| - 1
  {
    var s := After(es);
    assert s.tasks[t] == Task([], [k], None) && s.tasks[t].held[1..] == [];
    FlightOf(s, Fail(t), k);
    FlightSize(InFlight(s, k), t);
    RecentSnoc(Times(s.failures, k), s.now, s.now);
    all := Extend(es, Fail(t), k, c);
  }

  /** `n` attempts fail one after the other. */
  lemma {:induction false} FailInTurn(n: nat, k: string, c: nat) returns (es: seq<Event>)
    requires n < FAIL_MAX && c >= 1 && IsSource(k)
    ensures Runs(es) && AtMost(es, k, c) && FreeFrom(After(es), n)
    ensures RecentCount(After(es), k) == n && InFlight(After(es), k) == {}
  {
    if n == 0 {
      es := [];
    } else {
      es := FailInTurn(n - 1, k, c);
      es := LetThrough(es, n - 1, k, c);
      es := Counts(es, n - 1, n, k, c);
    }
  }

  /** Then `m` attempts are let through before any of them decides. */
  lemma {:induction false} LetThroughTogether(m: nat, k: string, c: nat) returns (es: seq<Event>)
    requires m <= c && c >= 1 && IsSource(k)
    ensures Runs(es) && AtMost(es, k, c) && AllWaiting(After(es), k) && FreeFrom(After(es), FAIL_MAX - 1 + m)
    ensures RecentCount(After(es), k) == FAIL_MAX - 1 && |InFlight(After(es), k)| == m
  {
    if m == 0 {
      es := FailInTurn(FAIL_MAX - 1, k, c);
    } else {
      var before := LetThroughTogether(m - 1, k, c);
      es := LetThrough(before, FAIL_MAX - 1 + (m - 1), k, c);
    }
  }

  /** And all of them fail. */
  lemma {:induction false} AllFail(es: seq<Event>, n: nat, k: string, c: nat) returns (all: seq<Event>)
    requires Runs(es) && AtMost(es, k, c) && AllWaiting(After(es), k) && FreeFrom(After(es), n)
    ensures Runs(all) && AtMost(all, k, c)
    ensures RecentCount(After(all), k) == RecentCount(After(es), k) + |InFlight(After(es), k)|
    decreases |InFlight(After(es), k)|
  {
    if InFlight(After(es), k) == {} {
      all := es;
    } else {
      var t :| t in InFlight(After(es), k);
      all := Counts(es, t, n, k, c);
      all := AllFail(all, n, k, c);
    }
  }

  /** No run with at most `c` attempts in flight on a key has more than `b` recent failures on it. */
  ghost predicate NeverMore(c: nat, b: nat) {
    forall es: seq<Event>, k: string | Runs(es) && AtMost(es, k, c) :: RecentCount(After(es), k) <= b
  }

  /** Nothing is ever counted on a key that no attempt is in flight on. */
  lemma {:induction false} NoFlightNoFailure(es: seq<Event>, k: string)
    requires Runs(es) && AtMost(es, k, 0)
    ensures RecentCount(After(es), k) == 0 && k !in After(es).failures
  {
    if es != [] {
      var s, e := After(es[..|es| - 1]), es[|es| - 1];
      NoFlightNoFailure(es[..|es| - 1], k);
      if e.Fail? { assert e.t !in InFlight(s, k); }
    }
  }

  /** Main result: the bound FAIL_MAX - 1 + c is the least one for `c` attempts in flight. */
  lemma NeverMoreIff(c: nat, b: nat)
    ensures NeverMore(c, b) <==> c == 0 || b >= FAIL_MAX - 1 + c
  {
    forall es: seq<Event>, k: string | Runs(es) && AtMost(es, k, c) && (c == 0 || b >= FAIL_MAX - 1 + c)
      ensures RecentCount(After(es), k) <= b
    {
      if c == 0 { NoFlightNoFailure(es, k); } else { FailuresInFlight(es, k, c); }
    }
    if c > 0 && b < FAIL_MAX - 1 + c {
      var k := "192.0.2.1";
      assert k[0] != 'u';
      var es := LetThroughTogether(c, k, c);
      es := AllFail(es, FAIL_MAX - 1 + c, k, c);
      assert !NeverMore(c, b);
    }
  }

  /** So the cap of FAIL_MAX holds exactly for attempts that come one at a time. */
  lemma CapHoldsIff(c: nat)
    ensures NeverMore(c, FAIL_MAX) <==> c <= 1
  {
    NeverMoreIff(c, FAIL_MAX);
  }
}
