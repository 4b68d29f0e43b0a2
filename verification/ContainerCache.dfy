/** Container upstream resolution: a TTL cache in front of the daemon, with one
    gate per key so that a burst makes one daemon call. Each step below is what
    one task does between two awaits or under one lock. */
module ContainerCache {
  import opened Wrappers

  const TTL: real := 3.0
  const MAX_AGE: real := 300.0

  datatype Entry = Entry(addr: string, at: real)

  // ----- The shared maps -----

  function FreshAddr(cache: map<string, Entry>, key: string, now: real): Option<Entry> {
    if key in cache && now - cache[key].at < TTL then Some(cache[key]) else None
  }

  function Pruned(cache: map<string, Entry>, now: real): map<string, Entry> {
    map k | k in cache && now - cache[k].at < MAX_AGE :: cache[k]
  }

  class Maps {
    var cache: map<string, Entry>
    var inflight: map<string, nat>
    var nextGate: nat

    method FreshCached(key: string, now: real) returns (hit: Option<Entry>)
      ensures hit == FreshAddr(cache, key, now)
    {
      hit := None;
      if key in cache {
        var entry := cache[key];
        if now - entry.at < TTL { hit := Some(entry); }
      }
    }

    method GateFor(key: string) returns (gate: nat)
      requires forall k | k in inflight :: inflight[k] < nextGate
      modifies this
      ensures key in inflight && gate == inflight[key]
      ensures key in old(inflight) ==> inflight == old(inflight) && nextGate == old(nextGate)
      ensures key !in old(inflight) ==> inflight == old(inflight)[key := old(nextGate)]
      ensures forall k | k in inflight :: inflight[k] < nextGate
      ensures cache == old(cache)
    {
      if key !in inflight {
        inflight := inflight[key := nextGate];
        nextGate := nextGate + 1;
      }
      gate := inflight[key];
    }

    method Store(key: string, addr: string, now: real)
      modifies this`cache
      ensures cache == Pruned(old(cache)[key := Entry(addr, now)], now)
      ensures key in cache && cache[key] == Entry(addr, now)
    {
      cache := cache[key := Entry(addr, now)];
      cache := map k | k in cache && now - cache[k].at < MAX_AGE :: cache[k];
    }

    method Evict(key: string)
      modifies this`cache
      ensures cache == old(cache) - {key}
    {
      cache := cache - {key};
    }
  }

  // ----- Tasks -----

  datatype Answer = FromCache(entry: Entry, readAt: real) | FromDaemon(addr: string) | Unresolvable

  datatype Phase =
    | Start
    | Missed
    | Queued                // has the gate, waits for its lock
    | Holding               // has the lock, about to look again
    | Resolving             // daemon call in flight
    | Resolved(addr: string)
    | Failed                // daemon error or timeout
    | Done(answer: Answer)
    | Gone                  // the request's future was dropped

  datatype Task = Task(key: string, gate: nat, phase: Phase)

  /** `lastStore` only records when each key was last stored; no step reads it. */
  datatype State = State(
    now: real,
    cache: map<string, Entry>,
    inflight: map<string, nat>,
    nextGate: nat,
    holder: map<nat, nat>,
    tasks: map<nat, Task>,
    lastStore: map<string, real>)

  datatype Event =
    | Tick(d: real)
    | Spawn(t: nat, key: string)
    | FastRead(t: nat)
    | TakeGate(t: nat)
    | Lock(t: nat)
    | Recheck(t: nat)
    | DaemonOk(t: nat, addr: string)
    | DaemonFails(t: nat)
    | StoreResult(t: nat)
    | EvictKey(t: nat)
    | Abandon(t: nat)

  predicate At(s: State, t: nat, phase: Phase) {
    t in s.tasks && s.tasks[t].phase == phase
  }

  /** The phases in which a task owns its gate's lock. */
  predicate InGate(p: Phase) {
    p.Holding? || p.Resolving? || p.Resolved? || p.Failed?
  }

  predicate Enabled(s: State, e: Event) {
    match e
    case Tick(d) => d >= 0.0
    case Spawn(t, _) => t !in s.tasks
    case FastRead(t) => At(s, t, Start)
    case TakeGate(t) => At(s, t, Missed)
    case Lock(t) => At(s, t, Queued) && s.tasks[t].gate !in s.holder
    case Recheck(t) => At(s, t, Holding)
    case DaemonOk(t, _) => At(s, t, Resolving)
    case DaemonFails(t) => At(s, t, Resolving)
    case StoreResult(t) => t in s.tasks && s.tasks[t].phase.Resolved?
    case EvictKey(t) => At(s, t, Failed)
    case Abandon(t) => t in s.tasks && !s.tasks[t].phase.Done? && !s.tasks[t].phase.Gone?
  }

  function Goto(s: State, t: nat, phase: Phase): State
    requires t in s.tasks
  {
    s.(tasks := s.tasks[t := s.tasks[t].(phase := phase)])
  }

  /** Leave the gate, dropping its lock. */
  function Leave(s: State, t: nat, phase: Phase): State
    requires t in s.tasks
  {
    Goto(s, t, phase).(holder := s.holder - {s.tasks[t].gate})
  }

  function Apply(s: State, e: Event): State
    requires Enabled(s, e)
  {
    match e
    case Tick(d) => s.(now := s.now + d)
    case Spawn(t, key) => s.(tasks := s.tasks[t := Task(key, 0, Start)])
    case FastRead(t) =>
      var hit := FreshAddr(s.cache, s.tasks[t].key, s.now);
      Goto(s, t, if hit.Some? then Done(FromCache(hit.value, s.now)) else Missed)
    case TakeGate(t) =>
      var key := s.tasks[t].key;
      var gate := if key in s.inflight then s.inflight[key] else s.nextGate;
      s.(inflight := s.inflight[key := gate],
         nextGate := if key in s.inflight then s.nextGate else s.nextGate + 1,
         tasks := s.tasks[t := Task(key, gate, Queued)])
    case Lock(t) => Goto(s, t, Holding).(holder := s.holder[s.tasks[t].gate := t])
    case Recheck(t) =>
      var hit := FreshAddr(s.cache, s.tasks[t].key, s.now);
      if hit.Some? then Leave(s, t, Done(FromCache(hit.value, s.now))) else Goto(s, t, Resolving)
    case DaemonOk(t, addr) => Goto(s, t, Resolved(addr))
    case DaemonFails(t) => Goto(s, t, Failed)
    case StoreResult(t) =>
      var key, addr := s.tasks[t].key, s.tasks[t].phase.addr;
      var entry := Entry(addr, s.now);
      Leave(s, t, Done(FromDaemon(addr))).(cache := Pruned(s.cache[key := entry], s.now),
                                           lastStore := s.lastStore[key := s.now])
    case EvictKey(t) => Leave(s, t, Done(Unresolvable)).(cache := s.cache - {s.tasks[t].key})
    case Abandon(t) => if InGate(s.tasks[t].phase) then Leave(s, t, Gone) else Goto(s, t, Gone)
  }

  function Initial(): State {
    State(0.0, map[], map[], 0, map[], map[], map[])
  }

  predicate Runs(es: seq<Event>)
    decreases |es|, 0
  {
    es == [] || (Runs(es[..|es| - 1]) && Enabled(After(es[..|es| - 1]), es[|es| - 1]))
  }

  function After(es: seq<Event>): State
    requires Runs(es)
    decreases |es|, 1
  {
    if es == [] then Initial() else Apply(After(es[..|es| - 1]), es[|es| - 1])
  }

  // ----- Mutual exclusion -----

  /** Gates are per key, and a gate's lock belongs to the one task inside it. */
  predicate GateOk(s: State, t: nat)
    requires t in s.tasks
  {
    var task := s.tasks[t];
    && (task.phase.Queued? || InGate(task.phase) ==> task.key in s.inflight && task.gate == s.inflight[task.key])
    && (InGate(task.phase) ==> task.gate in s.holder && s.holder[task.gate] == t)
  }

  ghost predicate Gated(s: State) {
    && (forall t | t in s.tasks :: GateOk(s, t))
    && (forall k | k in s.inflight :: s.inflight[k] < s.nextGate)
    && (forall k, l | k in s.inflight && l in s.inflight && k != l :: s.inflight[k] != s.inflight[l])
    && (forall g | g in s.holder :: s.holder[g] in s.tasks && InGate(s.tasks[s.holder[g]].phase)
                                    && s.tasks[s.holder[g]].gate == g)
  }

  lemma LeaveGated(s: State, t: nat, phase: Phase)
    requires Gated(s) && t in s.tasks && InGate(s.tasks[t].phase)
    requires !phase.Queued? && !InGate(phase)
    ensures Gated(Leave(s, t, phase))
  {
    var s' := Leave(s, t, phase);
    assert GateOk(s, t);
    forall u | u in s'.tasks ensures GateOk(s', u) { assert GateOk(s, u); }
  }

  lemma GotoGated(s: State, t: nat, phase: Phase)
    requires Gated(s) && t in s.tasks && InGate(s.tasks[t].phase) == InGate(phase) && !phase.Queued?
    ensures Gated(Goto(s, t, phase))
  {
    var s' := Goto(s, t, phase);
    forall u | u in s'.tasks ensures GateOk(s', u) { assert GateOk(s, u); }
  }

  lemma ApplyGated(s: State, e: Event)
    requires Gated(s) && Enabled(s, e)
    ensures Gated(Apply(s, e))
  {
    var s' := Apply(s, e);
    match e {
      case Recheck(t) =>
        var hit := FreshAddr(s.cache, s.tasks[t].key, s.now);
        if hit.Some? { LeaveGated(s, t, Done(FromCache(hit.value, s.now))); } else { GotoGated(s, t, Resolving); }
      case StoreResult(t) =>
        LeaveGated(s, t, Done(FromDaemon(s.tasks[t].phase.addr)));
        SameGates(Leave(s, t, Done(FromDaemon(s.tasks[t].phase.addr))), s');
      case EvictKey(t) =>
        LeaveGated(s, t, Done(Unresolvable));
        SameGates(Leave(s, t, Done(Unresolvable)), s');
      case Abandon(t) =>
        if InGate(s.tasks[t].phase) { LeaveGated(s, t, Gone); } else { GotoGated(s, t, Gone); }
      case DaemonOk(t, addr) =>
        GotoGated(s, t, Resolved(addr));
      case Tick(_) => SameGates(s, s');
      case FastRead(t) => GotoGated(s, t, s'.tasks[t].phase);
      case DaemonFails(t) => GotoGated(s, t, Failed);
      case Spawn(t, key) => SpawnGated(s, t, key);
      case TakeGate(t) => TakeGateGated(s, t);
      case Lock(t) => LockGated(s, t);
    }
  }

  lemma SpawnGated(s: State, t: nat, key: string)
    requires Gated(s) && Enabled(s, Spawn(t, key))
    ensures Gated(Apply(s, Spawn(t, key)))
  {
    var s' := Apply(s, Spawn(t, key));
    forall u | u in s'.tasks ensures GateOk(s', u) {
      if u in s.tasks { assert GateOk(s, u); }
    }
  }

  lemma TakeGateGated(s: State, t: nat)
    requires Gated(s) && Enabled(s, TakeGate(t))
    ensures Gated(Apply(s, TakeGate(t)))
  {
    var s' := Apply(s, TakeGate(t));
    forall u | u in s'.tasks ensures GateOk(s', u) { assert GateOk(s, u); }
  }

  lemma LockGated(s: State, t: nat)
    requires Gated(s) && Enabled(s, Lock(t))
    ensures Gated(Apply(s, Lock(t)))
  {
    var s' := Apply(s, Lock(t));
    assert GateOk(s, t);
    forall u | u in s'.tasks ensures GateOk(s', u) { assert GateOk(s, u); }
  }

  lemma SameGates(s: State, s': State)
    requires Gated(s) && s'.tasks == s.tasks && s'.holder == s.holder
    requires s'.inflight == s.inflight && s'.nextGate == s.nextGate
    ensures Gated(s')
  {
    forall u | u in s'.tasks ensures GateOk(s', u) { assert GateOk(s, u); }
  }

  // ----- What the cache keeps -----

  /** An entry is the last one stored for its key, stays while fresh, and a task past its
      second look runs only when the last store is already stale. */
  ghost predicate Cached(s: State) {
    && (forall k | k in s.cache :: k in s.lastStore && s.cache[k].at == s.lastStore[k])
    && (forall k | k in s.lastStore :: s.lastStore[k] <= s.now)
    && (forall k | k in s.lastStore && s.now - s.lastStore[k] < TTL :: k in s.cache)
    && (forall t | t in s.tasks && Past(s.tasks[t].phase) ::
          s.tasks[t].key in s.lastStore ==> s.now - s.lastStore[s.tasks[t].key] >= TTL)
  }

  /** Two tasks inside gates for the same key are the same task. */
  lemma OneInGate(s: State, t: nat, u: nat)
    requires Gated(s) && t in s.tasks && u in s.tasks
    requires InGate(s.tasks[t].phase) && InGate(s.tasks[u].phase) && s.tasks[t].key == s.tasks[u].key
    ensures t == u
  {
    assert GateOk(s, t) && GateOk(s, u);
  }

  lemma StoreCached(s: State, t: nat)
    requires Gated(s) && Cached(s) && Enabled(s, StoreResult(t))
    ensures Cached(Apply(s, StoreResult(t)))
  {
    var s' := Apply(s, StoreResult(t));
    forall u | u in s'.tasks && InGate(s'.tasks[u].phase) ensures s'.tasks[u].key != s.tasks[t].key {
      if s'.tasks[u].key == s.tasks[t].key { OneInGate(s, u, t); }
    }
  }

  lemma EvictCached(s: State, t: nat)
    requires Gated(s) && Cached(s) && Enabled(s, EvictKey(t))
    ensures Cached(Apply(s, EvictKey(t)))
  {
  }

  lemma RecheckCached(s: State, t: nat)
    requires Gated(s) && Cached(s) && Enabled(s, Recheck(t))
    ensures Cached(Apply(s, Recheck(t)))
  {
  }

  lemma ApplyCached(s: State, e: Event)
    requires Gated(s) && Cached(s) && Enabled(s, e)
    ensures Cached(Apply(s, e))
  {
    match e {
      case StoreResult(t) => StoreCached(s, t);
      case EvictKey(t) => EvictCached(s, t);
      case Recheck(t) => RecheckCached(s, t);
      case Abandon(t) => GotoCached(s, Apply(s, e), t);
      case DaemonOk(t, _) => GotoCached(s, Apply(s, e), t);
      case DaemonFails(t) => GotoCached(s, Apply(s, e), t);
      case FastRead(t) => GotoCached(s, Apply(s, e), t);
      case TakeGate(t) => GotoCached(s, Apply(s, e), t);
      case Lock(t) => GotoCached(s, Apply(s, e), t);
      case Spawn(t, _) => QuietCached(s, Apply(s, e));
      case Tick(_) => QuietCached(s, Apply(s, e));
    }
  }

  lemma GotoCached(s: State, s': State, t: nat)
    requires Cached(s) && s'.now == s.now && t in s.tasks
    requires s'.cache == s.cache && s'.lastStore == s.lastStore
    requires t in s'.tasks && s'.tasks == s.tasks[t := s'.tasks[t]] && s'.tasks[t].key == s.tasks[t].key
    requires Past(s'.tasks[t].phase) ==> Past(s.tasks[t].phase)
    ensures Cached(s')
  {
    QuietCached(s, s');
  }

  /** Past the second look, and still inside the gate. */
  predicate Past(p: Phase) {
    InGate(p) && !p.Holding?
  }

  lemma QuietCached(s: State, s': State)
    requires Cached(s) && s.now <= s'.now
    requires s'.cache == s.cache && s'.lastStore == s.lastStore
    requires forall t | t in s'.tasks && Past(s'.tasks[t].phase) ::
               t in s.tasks && Past(s.tasks[t].phase) && s'.tasks[t].key == s.tasks[t].key
    ensures Cached(s')
  {
  }

  lemma {:induction false} RunKeeps(es: seq<Event>)
    requires Runs(es)
    ensures Gated(After(es)) && Cached(After(es))
  {
    if es != [] {
      var s := After(es[..|es| - 1]);
      RunKeeps(es[..|es| - 1]);
      ApplyGated(s, es[|es| - 1]);
      ApplyCached(s, es[|es| - 1]);
    }
  }

  // ----- Main results, over every interleaving -----

  /** At most one daemon call is in flight per key. */
  lemma SingleFlight(es: seq<Event>, t: nat, u: nat)
    requires Runs(es) && At(After(es), t, Resolving) && At(After(es), u, Resolving)
    requires After(es).tasks[t].key == After(es).tasks[u].key
    ensures t == u
  {
    RunKeeps(es);
    OneInGate(After(es), t, u);
  }

  predicate StoresKey(s: State, e: Event, key: string) {
    e.StoreResult? && e.t in s.tasks && s.tasks[e.t].key == key
  }

  /** No event of `more` stores an entry for `key`. */
  predicate NoStore(es: seq<Event>, more: seq<Event>, key: string)
    requires Runs(es + more)
    decreases |more|
  {
    more == []
    || (var before := more[..|more| - 1];
        assert (es + more)[..|es + more| - 1] == es + before;
        NoStore(es, before, key) && !StoresKey(After(es + before), more[|more| - 1], key))
  }

  /** The last store for `key`, if any, is too old to be answered from. */
  predicate Stale(s: State, key: string) {
    key in s.lastStore ==> s.now - s.lastStore[key] >= TTL
  }

  lemma StaysStale(s: State, e: Event, key: string)
    requires Enabled(s, e) && Stale(s, key) && !StoresKey(s, e, key)
    ensures Stale(Apply(s, e), key)
  {
  }

  lemma StaleIsNotFresh(s: State, key: string)
    requires Cached(s) && Stale(s, key)
    ensures FreshAddr(s.cache, key, s.now) == None
  {
  }

  /** What takes an entry away: the eviction by a failed task of its key, or its great age
      when another key is stored. */
  lemma EntryLeavesIff(s: State, e: Event, key: string)
    requires Enabled(s, e) && key in s.cache && !StoresKey(s, e, key)
    ensures key !in Apply(s, e).cache
            <==> (e.EvictKey? && s.tasks[e.t].key == key)
                 || (e.StoreResult? && s.now - s.cache[key].at >= MAX_AGE)
  {
  }

  lemma EntryKept(s: State, e: Event, key: string)
    requires Enabled(s, e) && key in s.cache && key in Apply(s, e).cache && !StoresKey(s, e, key)
    ensures Apply(s, e).cache[key] == s.cache[key]
  {
  }

  lemma NowGrows(s: State, e: Event)
    requires Enabled(s, e)
    ensures s.now <= Apply(s, e).now
  {
  }

  /** No task of `key` that failed has evicted it in `more`. */
  predicate NoEviction(es: seq<Event>, more: seq<Event>, key: string)
    requires Runs(es + more)
    decreases |more|
  {
    more == []
    || (var before, e := more[..|more| - 1], more[|more| - 1];
        assert (es + more)[..|es + more| - 1] == es + before;
        NoEviction(es, before, key) && !(e.EvictKey? && After(es + before).tasks[e.t].key == key))
  }

  /** An entry stays as it is for 300 s, unless a task of its key stores another or fails. */
  lemma {:induction false} EntryStaysYoung(es: seq<Event>, more: seq<Event>, key: string)
    requires Runs(es) && Runs(es + more) && key in After(es).cache
    requires NoStore(es, more, key) && NoEviction(es, more, key)
    requires After(es + more).now - After(es).cache[key].at < MAX_AGE
    ensures key in After(es + more).cache && After(es + more).cache[key] == After(es).cache[key]
    decreases |more|
  {
    if more == [] {
      assert es + more == es;
    } else {
      var before, e := more[..|more| - 1], more[|more| - 1];
      assert (es + more)[..|es + more| - 1] == es + before;
      NowGrows(After(es + before), e);
      EntryStaysYoung(es, before, key);
      EntryLeavesIff(After(es + before), e, key);
      EntryKept(After(es + before), e, key);
    }
  }

  lemma StaysAbsent(s: State, e: Event, key: string)
    requires Enabled(s, e) && key !in s.cache && !StoresKey(s, e, key)
    ensures key !in Apply(s, e).cache
  {
  }

  lemma KeyStays(s: State, e: Event, t: nat)
    requires Enabled(s, e) && t in s.tasks
    ensures t in Apply(s, e).tasks && Apply(s, e).tasks[t].key == s.tasks[t].key
  {
  }

  lemma {:induction false} TaskKeepsKey(es: seq<Event>, more: seq<Event>, t: nat)
    requires Runs(es) && Runs(es + more) && t in After(es).tasks
    ensures t in After(es + more).tasks && After(es + more).tasks[t].key == After(es).tasks[t].key
    decreases |more|
  {
    if more == [] {
      assert es + more == es;
    } else {
      var before := more[..|more| - 1];
      assert (es + more)[..|es + more| - 1] == es + before;
      TaskKeepsKey(es, before, t);
      KeyStays(After(es + before), more[|more| - 1], t);
    }
  }

  /** From a failed resolution on, and until some resolution of that key succeeds, no read
      finds a fresh entry for the key, even if the failed request is dropped before it evicts. */
  lemma {:induction false} FailureLeavesNothing(es: seq<Event>, t: nat, more: seq<Event>)
    requires Runs(es) && Runs(es + more) && At(After(es), t, Failed)
    requires NoStore(es, more, After(es).tasks[t].key)
    ensures var s, key := After(es + more), After(es).tasks[t].key;
            Stale(s, key) && FreshAddr(s.cache, key, s.now) == None
    decreases |more|
  {
    var key := After(es).tasks[t].key;
    RunKeeps(es + more);
    if more == [] {
      assert es + more == es;
    } else {
      var before := more[..|more| - 1];
      assert (es + more)[..|es + more| - 1] == es + before;
      FailureLeavesNothing(es, t, before);
      StaysStale(After(es + before), more[|more| - 1], key);
    }
    StaleIsNotFresh(After(es + more), key);
  }

  /** Once the failed request has evicted, the key has no entry at all until such a success. */
  lemma {:induction false} EvictionLeavesNoEntry(es: seq<Event>, t: nat, more: seq<Event>)
    requires Runs(es) && Runs(es + more) && At(After(es), t, Failed) && EvictKey(t) in more
    requires NoStore(es, more, After(es).tasks[t].key)
    ensures After(es).tasks[t].key !in After(es + more).cache
    decreases |more|
  {
    var before, e := more[..|more| - 1], more[|more| - 1];
    assert (es + more)[..|es + more| - 1] == es + before;
    if EvictKey(t) in before {
      EvictionLeavesNoEntry(es, t, before);
      StaysAbsent(After(es + before), e, After(es).tasks[t].key);
    } else {
      assert e == EvictKey(t);
      TaskKeepsKey(es, before, t);
    }
  }

  /** What task `t` for `key` has changed on its own way: only itself and its gate. */
  predicate OnItsWay(s: State, s': State, t: nat, key: string) {
    && s'.cache == s.cache && s'.now == s.now && s'.tasks.Keys == s.tasks.Keys + {t}
    && t in s'.tasks && s'.tasks[t].key == key
  }

  /** A new task whose key has no fresh entry asks for its gate... */
  lemma ReachesGate(es: seq<Event>, t: nat, key: string) returns (all: seq<Event>)
    requires Runs(es) && t !in After(es).tasks && FreshAddr(After(es).cache, key, After(es).now) == None
    ensures Runs(all) && At(After(all), t, Queued) && OnItsWay(After(es), After(all), t, key)
    ensures After(all).holder == After(es).holder
  {
    all := Extend(es, Spawn(t, key));
    all := Extend(all, FastRead(t));
    all := Extend(all, TakeGate(t));
  }

  /** ...and, with every gate free, gets as far as its daemon call. */
  lemma ReachesDaemon(es: seq<Event>, t: nat, key: string) returns (all: seq<Event>)
    requires Runs(es) && t !in After(es).tasks && FreshAddr(After(es).cache, key, After(es).now) == None
    requires After(es).holder == map[]
    ensures Runs(all) && At(After(all), t, Resolving) && OnItsWay(After(es), After(all), t, key)
    ensures After(all).holder == map[After(all).tasks[t].gate := t]
  {
    all := ReachesGate(es, t, key);
    all := Extend(all, Lock(t));
    all := Extend(all, Recheck(t));
  }

  /** A failed request that is dropped before it evicts keeps the entry that was there: store one,
      let it go stale, fail to resolve the key again, and drop that request. */
  lemma AbandonedFailureKeepsEntry(key: string, addr: string) returns (es: seq<Event>)
    ensures Runs(es + [DaemonFails(1)] + [Abandon(1)]) && At(After(es + [DaemonFails(1)]), 1, Failed)
    ensures var s := After(es + [DaemonFails(1)] + [Abandon(1)]);
            At(s, 1, Gone) && s.tasks[1].key == key && key in s.cache && FreshAddr(s.cache, key, s.now) == None
  {
    es := StaleThenResolving(key, addr);
    var failed := Extend(es, DaemonFails(1));
    var gone := Extend(failed, Abandon(1));
  }

  lemma StaleThenResolving(key: string, addr: string) returns (es: seq<Event>)
    ensures Runs(es) && At(After(es), 1, Resolving) && After(es).tasks[1].key == key
    ensures After(es).cache == map[key := Entry(addr, 0.0)] && After(es).now == TTL
  {
    es := ReachesDaemon([], 0, key);
    es := Extend(es, DaemonOk(0, addr));
    es := Extend(es, StoreResult(0));
    es := Extend(es, Tick(TTL));
    es := ReachesDaemon(es, 1, key);
  }

  lemma Extend(es: seq<Event>, e: Event) returns (all: seq<Event>)
    requires Runs(es) && Enabled(After(es), e)
    ensures all == es + [e] && Runs(all) && After(all) == Apply(After(es), e)
  {
    all := es + [e];
    assert all[..|es|] == es;
  }

  /** Dropping entries of great age changes the answer of no later read. */
  lemma PruningInvisible(cache: map<string, Entry>, key: string, now: real, later: real)
    requires now <= later
    ensures FreshAddr(Pruned(cache, now), key, later) == FreshAddr(cache, key, later)
  {
  }

  // ----- Which address an answer carries, read off the events -----

  /** The clock, after the ticks of a run. */
  function ClockOf(es: seq<Event>): real {
    if es == [] then 0.0
    else ClockOf(es[..|es| - 1]) + if es[|es| - 1].Tick? then es[|es| - 1].d else 0.0
  }

  /** The key that task `t` came for. */
  function KeyOf(es: seq<Event>, t: nat): Option<string> {
    if es == [] then None
    else if es[|es| - 1].Spawn? && es[|es| - 1].t == t then Some(es[|es| - 1].key)
    else KeyOf(es[..|es| - 1], t)
  }

  /** What the daemon told task `t`. */
  function ToldTo(es: seq<Event>, t: nat): Option<string> {
    if es == [] then None
    else if es[|es| - 1].DaemonOk? && es[|es| - 1].t == t then Some(es[|es| - 1].addr)
    else ToldTo(es[..|es| - 1], t)
  }

  /** The event is a store for `key` of what the daemon told the storing task. */
  predicate Stores(es: seq<Event>, e: Event, key: string) {
    e.StoreResult? && KeyOf(es, e.t) == Some(key) && ToldTo(es, e.t).Some?
  }

  /** The last address that a task stored for `key`: what the daemon told that task, and when it stored. */
  function LastStored(es: seq<Event>, key: string): Option<Entry> {
    if es == [] then None
    else
      var before, e := es[..|es| - 1], es[|es| - 1];
      if Stores(before, e, key) then Some(Entry(ToldTo(before, e.t).value, ClockOf(before)))
      else LastStored(before, key)
  }

  /** The state has what the events say of task `t`. */
  predicate TaskTold(s: State, es: seq<Event>, t: nat)
    requires t in s.tasks
  {
    && KeyOf(es, t) == Some(s.tasks[t].key)
    && (match s.tasks[t].phase
        case Resolved(addr) => ToldTo(es, t) == Some(addr)
        case Done(FromDaemon(addr)) => ToldTo(es, t) == Some(addr)
        case _ => true)
  }

  ghost predicate Told(s: State, es: seq<Event>) {
    && s.now == ClockOf(es)
    && (forall t | t in s.tasks :: TaskTold(s, es, t))
    && (forall t | t !in s.tasks :: KeyOf(es, t) == None)
    && (forall k | k in s.cache :: LastStored(es, k) == Some(s.cache[k]))
    && (forall k :: LastStored(es, k).Some? <==> k in s.lastStore)
    && (forall k | k in s.lastStore :: LastStored(es, k).value.at == s.lastStore[k])
  }

  /** What one more event adds to the story. */
  lemma StorySnoc(es: seq<Event>, e: Event, t: nat, k: string)
    ensures ClockOf(es + [e]) == ClockOf(es) + if e.Tick? then e.d else 0.0
    ensures KeyOf(es + [e], t) == if e.Spawn? && e.t == t then Some(e.key) else KeyOf(es, t)
    ensures ToldTo(es + [e], t) == if e.DaemonOk? && e.t == t then Some(e.addr) else ToldTo(es, t)
    ensures LastStored(es + [e], k)
         == if Stores(es, e, k) then Some(Entry(ToldTo(es, e.t).value, ClockOf(es))) else LastStored(es, k)
  {
    assert (es + [e])[..|es|] == es;
  }

  lemma OthersUnchanged(s: State, e: Event, t: nat)
    requires Enabled(s, e) && t in Apply(s, e).tasks && (e.Tick? || e.t != t)
    ensures t in s.tasks && Apply(s, e).tasks[t] == s.tasks[t]
  {
  }

  lemma TaskStaysTold(s: State, es: seq<Event>, e: Event, t: nat)
    requires Told(s, es) && Enabled(s, e) && t in Apply(s, e).tasks
    ensures TaskTold(Apply(s, e), es + [e], t)
  {
    StorySnoc(es, e, t, "");
    if e.Tick? || e.t != t { OthersUnchanged(s, e, t); }
    if t in s.tasks { assert TaskTold(s, es, t); }
  }

  lemma CacheStaysTold(s: State, es: seq<Event>, e: Event, k: string)
    requires Told(s, es) && Enabled(s, e)
    ensures var s' := Apply(s, e);
            (k in s'.cache ==> LastStored(es + [e], k) == Some(s'.cache[k]))
            && (LastStored(es + [e], k).Some? <==> k in s'.lastStore)
            && (k in s'.lastStore ==> LastStored(es + [e], k).value.at == s'.lastStore[k])
  {
    StorySnoc(es, e, 0, k);
    if e.StoreResult? { assert TaskTold(s, es, e.t); }
  }

  lemma StepTold(s: State, es: seq<Event>, e: Event)
    requires Told(s, es) && Enabled(s, e)
    ensures Told(Apply(s, e), es + [e])
  {
    var s' := Apply(s, e);
    StorySnoc(es, e, 0, "");
    forall t | t !in s'.tasks ensures KeyOf(es + [e], t) == None { StorySnoc(es, e, t, ""); }
    forall t | t in s'.tasks ensures TaskTold(s', es + [e], t) { TaskStaysTold(s, es, e, t); }
    forall k
      ensures (k in s'.cache ==> LastStored(es + [e], k) == Some(s'.cache[k]))
              && (LastStored(es + [e], k).Some? <==> k in s'.lastStore)
              && (k in s'.lastStore ==> LastStored(es + [e], k).value.at == s'.lastStore[k])
    {
      CacheStaysTold(s, es, e, k);
    }
  }

  lemma {:induction false} RunTold(es: seq<Event>)
    requires Runs(es)
    ensures Told(After(es), es)
  {
    if es != [] {
      var before, e := es[..|es| - 1], es[|es| - 1];
      RunTold(before);
      StepTold(After(before), before, e);
      assert es == before + [e];
    }
  }

  /** Task `t` read the cache in event `n` of the run, and found this entry. */
  ghost predicate ReadAt(es: seq<Event>, n: nat, t: nat, entry: Entry, readAt: real)
    requires n < |es|
  {
    && (es[n] == FastRead(t) || es[n] == Recheck(t))
    && KeyOf(es[..n], t).Some? && LastStored(es[..n], KeyOf(es[..n], t).value) == Some(entry)
    && readAt == ClockOf(es[..n]) && 0.0 <= readAt - entry.at < TTL
  }

  /** What a read of the cache by task `t` answers, if it is a hit. */
  lemma HitIsTold(s: State, es: seq<Event>, t: nat)
    requires Told(s, es) && Cached(s) && t in s.tasks
    ensures KeyOf(es, t) == Some(s.tasks[t].key)
    ensures var hit := FreshAddr(s.cache, s.tasks[t].key, s.now);
            hit.Some? ==> LastStored(es, s.tasks[t].key) == Some(hit.value) && 0.0 <= s.now - hit.value.at < TTL
  {
    assert TaskTold(s, es, t);
  }

  lemma OnlyReadsHit(s: State, e: Event, t: nat)
    requires Enabled(s, e) && t in Apply(s, e).tasks && Apply(s, e).tasks[t].phase.Done?
    requires Apply(s, e).tasks[t].phase.answer.FromCache?
    ensures t in s.tasks
    ensures var answer := Apply(s, e).tasks[t].phase.answer;
            if s.tasks[t].phase.Done? then s.tasks[t].phase == Done(answer)
            else (e == FastRead(t) || e == Recheck(t)) && answer.readAt == s.now
                 && FreshAddr(s.cache, s.tasks[t].key, s.now) == Some(answer.entry)
  {
  }

  lemma AnswerIsRead(s: State, es: seq<Event>, e: Event, t: nat)
    requires Told(s, es) && Cached(s) && Enabled(s, e) && t in Apply(s, e).tasks && Apply(s, e).tasks[t].phase.Done?
    requires Apply(s, e).tasks[t].phase.answer.FromCache?
    ensures t in s.tasks
    ensures var answer := Apply(s, e).tasks[t].phase.answer;
            if s.tasks[t].phase.Done? then s.tasks[t].phase == Done(answer)
            else (e == FastRead(t) || e == Recheck(t)) && KeyOf(es, t).Some?
                 && LastStored(es, KeyOf(es, t).value) == Some(answer.entry)
                 && answer.readAt == ClockOf(es) && 0.0 <= answer.readAt - answer.entry.at < TTL
  {
    OnlyReadsHit(s, e, t);
    HitIsTold(s, es, t);
  }

  lemma ReadAtStays(es: seq<Event>, e: Event, n: nat, t: nat, entry: Entry, readAt: real)
    requires n < |es| && ReadAt(es, n, t, entry, readAt)
    ensures ReadAt(es + [e], n, t, entry, readAt)
  {
    assert (es + [e])[..n] == es[..n];
  }

  lemma {:induction false} CacheAnswersAreTold(es: seq<Event>, t: nat) returns (n: nat)
    requires Runs(es) && t in After(es).tasks && After(es).tasks[t].phase.Done?
    requires After(es).tasks[t].phase.answer.FromCache?
    ensures var answer := After(es).tasks[t].phase.answer;
            n < |es| && ReadAt(es, n, t, answer.entry, answer.readAt)
  {
    var before, e := es[..|es| - 1], es[|es| - 1];
    assert es == before + [e];
    RunTold(before);
    RunKeeps(before);
    AnswerIsRead(After(before), before, e, t);
    var answer := After(es).tasks[t].phase.answer;
    if After(before).tasks[t].phase.Done? {
      n := CacheAnswersAreTold(before, t);
      ReadAtStays(before, e, n, t, answer.entry, answer.readAt);
    } else {
      n := |before|;
      assert es[..n] == before;
    }
  }

  /** Main result: an answer is what the daemon told that very task; or, for a task that read the
      cache, what the daemon had told the last task to store for its key before that read, and
      under 3 s before it. */
  lemma AnswersAreTold(es: seq<Event>, t: nat)
    requires Runs(es) && t in After(es).tasks && After(es).tasks[t].phase.Done?
    ensures match After(es).tasks[t].phase.answer
            case FromDaemon(addr) => ToldTo(es, t) == Some(addr)
            case FromCache(entry, readAt) => exists n: nat :: n < |es| && ReadAt(es, n, t, entry, readAt)
            case Unresolvable => true
  {
    if After(es).tasks[t].phase.answer.FromCache? {
      var n := CacheAnswersAreTold(es, t);
    } else {
      RunTold(es);
      assert TaskTold(After(es), es, t);
    }
  }

  lemma ReadHits(es: seq<Event>, t: nat)
    requires Runs(es) && t in After(es).tasks && KeyOf(es, t).Some?
    requires var last := LastStored(es, KeyOf(es, t).value);
             last.Some? && ClockOf(es) - last.value.at < TTL
    ensures FreshAddr(After(es).cache, After(es).tasks[t].key, After(es).now) == LastStored(es, KeyOf(es, t).value)
    ensures After(es).now == ClockOf(es)
  {
    RunKeeps(es);
    RunTold(es);
    assert TaskTold(After(es), es, t);
  }

  /** Main result: a request within 3 s of the last store for its key is answered by its first read,
      with the address and the time of that store. */
  lemma FirstReadHits(es: seq<Event>, t: nat)
    requires Runs(es) && At(After(es), t, Start) && KeyOf(es, t).Some?
    requires var last := LastStored(es, KeyOf(es, t).value);
             last.Some? && ClockOf(es) - last.value.at < TTL
    ensures Apply(After(es), FastRead(t)).tasks[t].phase
         == Done(FromCache(LastStored(es, KeyOf(es, t).value).value, ClockOf(es)))
  {
    ReadHits(es, t);
  }

  /** Main result: a task that looks again within 3 s of the last store for its key makes no daemon
      call, and answers with the address and the time of that store. */
  lemma NoCallWhileFresh(es: seq<Event>, t: nat)
    requires Runs(es) && At(After(es), t, Holding) && KeyOf(es, t).Some?
    requires var last := LastStored(es, KeyOf(es, t).value);
             last.Some? && ClockOf(es) - last.value.at < TTL
    ensures Apply(After(es), Recheck(t)).tasks[t].phase
         == Done(FromCache(LastStored(es, KeyOf(es, t).value).value, ClockOf(es)))
  {
    ReadHits(es, t);
  }
}
