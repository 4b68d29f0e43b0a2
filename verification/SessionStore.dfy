/** The bearer-session store: a map in memory with a sliding and an absolute
    expiry, and a two-lock protocol that mirrors it on disk. Sessions are keyed
    by token hashes; seconds are natural numbers. */
module SessionStore {
  import opened Wrappers
  import opened Clocks
  import opened Sets

  const SESSION_TTL: nat := 43_200
  const SESSION_ABS_TTL: nat := 604_800
  const PERSIST_AFTER: nat := 300

  type Key = string

  datatype Rec = Rec(user: string, last: nat, issued: nat)

  type Sessions = map<Key, Rec>

  predicate RecordLive(r: Rec, now: nat, ttl: nat) {
    Since(now, r.last) <= ttl && Since(now, r.issued) <= SESSION_ABS_TTL
  }

  function Live(m: Sessions, now: nat, ttl: nat): Sessions {
    map k | k in m && RecordLive(m[k], now, ttl) :: m[k]
  }

  // ----- The critical section of each operation on the map -----

  /** `now` and `ttl` are what the operation reads from the clock and the settings. */
  datatype Op =
    | Issue(key: Key, user: string, now: nat, ttl: nat)
    | Identity(key: Key, now: nat, ttl: nat)
    | Revoke(key: Key)
    | RevokeUser(user: string, keep: Option<Key>)
    | Sweep(now: nat, ttl: nat)

  predicate Resolves(m: Sessions, op: Op) {
    op.Identity? && op.key in m && RecordLive(m[op.key], op.now, op.ttl)
  }

  function MapAfter(m: Sessions, op: Op): Sessions {
    match op
    case Issue(key, user, now, ttl) => Live(m, now, ttl)[key := Rec(user, now, now)]
    case Identity(key, now, _) => if Resolves(m, op) then m[key := m[key].(last := now)] else m
    case Revoke(key) => m - {key}
    case RevokeUser(user, keep) => map k | k in m && (m[k].user != user || keep == Some(k)) :: m[k]
    case Sweep(now, ttl) => Live(m, now, ttl)
  }

  /** Whether the operation goes on to save. */
  predicate Saves(m: Sessions, op: Op) {
    match op
    case Identity(key, now, _) => Resolves(m, op) && Since(now, m[key].last) >= PERSIST_AFTER
    case Sweep(_, _) => |MapAfter(m, op)| != |m|
    case _ => true
  }

  /** Of the keys `used` so far, those that an operation which goes on to save leaves out of memory. */
  function Dropped(used: set<Key>, m: Sessions, op: Op): set<Key> {
    if Saves(m, op) then used - MapAfter(m, op).Keys else {}
  }

  // ----- The store, one call at a time -----

  class Store {
    var sessions: Sessions
    var disk: Sessions
    var ttlSecs: nat
    const persist: bool
    /** The token hash. */
    const tokenKey: string -> Key

    /** Load what an earlier run left, if the file could be read. */
    constructor WithStore(loaded: Option<Sessions>, now: nat, hash: string -> Key)
      ensures persist && ttlSecs == 0 && tokenKey == hash
      ensures sessions == if loaded.Some? then Live(loaded.value, now, SESSION_TTL) else map[]
      ensures disk == if loaded.Some? then loaded.value else map[]
    {
      persist, ttlSecs, tokenKey := true, 0, hash;
      sessions := if loaded.Some? then Live(loaded.value, now, SESSION_TTL) else map[];
      disk := if loaded.Some? then loaded.value else map[];
    }

    function Ttl(): nat
      reads this
    {
      if ttlSecs == 0 then SESSION_TTL else ttlSecs
    }

    method Save()
      modifies this`disk
      ensures disk == if persist then sessions else old(disk)
    {
      if persist { disk := sessions; }
    }

    /** `token` is the freshly drawn random token. */
    method Issue(token: string, user: string, now: nat)
      modifies this`sessions, this`disk
      ensures sessions == MapAfter(old(sessions), Op.Issue(tokenKey(token), user, now, Ttl()))
      ensures tokenKey(token) in sessions && sessions[tokenKey(token)] == Rec(user, now, now)
      ensures forall k | k != tokenKey(token) ::
                k in sessions <==> k in old(sessions) && Since(now, old(sessions)[k].last) <= Ttl()
                                   && Since(now, old(sessions)[k].issued) <= 604_800
      ensures forall k | k in sessions && k != tokenKey(token) :: sessions[k] == old(sessions)[k]
      ensures disk == if persist then sessions else old(disk)
    {
      sessions := map k | k in sessions && RecordLive(sessions[k], now, Ttl()) :: sessions[k];
      sessions := sessions[tokenKey(token) := Rec(user, now, now)];
      Save();
    }

    method Identity(token: string, now: nat) returns (user: Option<string>)
      modifies this`sessions, this`disk
      ensures token == "" ==> user == None && sessions == old(sessions) && disk == old(disk)
      ensures token != "" ==>
                var op := Op.Identity(tokenKey(token), now, Ttl());
                sessions == MapAfter(old(sessions), op)
                && user == (if Resolves(old(sessions), op) then Some(old(sessions)[op.key].user) else None)
                && disk == (if persist && Saves(old(sessions), op) then sessions else old(disk))
      ensures user.Some? ==> tokenKey(token) in old(sessions) && user.value == old(sessions)[tokenKey(token)].user
      ensures user.Some? && persist && Since(now, old(sessions)[tokenKey(token)].last) >= 300 ==> disk == sessions
    {
      if token == "" { return None; }
      var key := tokenKey(token);
      var save := false;
      user := None;
      if key in sessions {
        var rec := sessions[key];
        if RecordLive(rec, now, Ttl()) {
          if Since(now, rec.last) >= PERSIST_AFTER { save := true; }
          sessions := sessions[key := Rec(rec.user, now, rec.issued)];
          user := Some(rec.user);
        }
      }
      if save { Save(); }
    }

    method Revoke(token: string)
      modifies this`sessions, this`disk
      ensures sessions == MapAfter(old(sessions), Op.Revoke(tokenKey(token))) == old(sessions) - {tokenKey(token)}
      ensures disk == if persist then sessions else old(disk)
    {
      sessions := sessions - {tokenKey(token)};
      Save();
    }

    method RevokeUser(user: string, keep: Option<string>)
      modifies this`sessions, this`disk
      ensures var kept := if keep.Some? then Some(tokenKey(keep.value)) else None;
              sessions == MapAfter(old(sessions), Op.RevokeUser(user, kept))
              && forall k :: k in sessions <==> k in old(sessions) && (old(sessions)[k].user != user || kept == Some(k))
      ensures forall k | k in sessions :: sessions[k] == old(sessions)[k]
      ensures disk == if persist then sessions else old(disk)
    {
      var keepKey := if keep.Some? then Some(tokenKey(keep.value)) else None;
      sessions := map k | k in sessions && (sessions[k].user != user || keepKey == Some(k)) :: sessions[k];
      Save();
    }

    method Sweep(now: nat)
      modifies this`sessions, this`disk
      ensures sessions == MapAfter(old(sessions), Op.Sweep(now, Ttl()))
      ensures forall k :: k in sessions <==> k in old(sessions) && Since(now, old(sessions)[k].last) <= Ttl()
                                             && Since(now, old(sessions)[k].issued) <= 604_800
      ensures forall k | k in sessions :: sessions[k] == old(sessions)[k]
      ensures disk == if persist && Saves(old(sessions), Op.Sweep(now, Ttl())) then sessions else old(disk)
    {
      var before := |sessions|;
      sessions := map k | k in sessions && RecordLive(sessions[k], now, Ttl()) :: sessions[k];
      if |sessions| != before { Save(); }
    }
  }

  // ----- Concurrent calls and the disk -----

  datatype Phase =
    | NeedSave
    | Locked                       // holds the write lock
    | Snapped(snapshot: Sessions)  // has cloned the map
    | Written                      // has written, still holds the write lock
    | Returned

  datatype Call = Call(dropped: set<Key>, phase: Phase)

  /** `used` are the keys that ever named a session or were presented for revocation;
      `boot` the expired keys that the last start found on disk and no save has yet erased. */
  datatype State = State(
    mem: Sessions,
    disk: Sessions,
    lock: Option<nat>,
    calls: map<nat, Call>,
    used: set<Key>,
    boot: set<Key>)

  datatype Event =
    | Mutate(t: nat, op: Op)  // the call's section under the map lock
    | LockWrites(t: nat)
    | Snapshot(t: nat)
    | Write(t: nat)
    | Unlock(t: nat)
    | Restart(now: nat)       // the process dies and starts again from disk

  predicate At(s: State, t: nat, phase: Phase) {
    t in s.calls && s.calls[t].phase == phase
  }

  /** Issued tokens are fresh; everything else can happen at any time. */
  predicate Enabled(s: State, e: Event) {
    match e
    case Mutate(t, op) => t !in s.calls && (op.Issue? ==> op.key !in s.used)
    case LockWrites(t) => At(s, t, NeedSave) && s.lock == None
    case Snapshot(t) => At(s, t, Locked)
    case Write(t) => t in s.calls && s.calls[t].phase.Snapped?
    case Unlock(t) => At(s, t, Written)
    case Restart(_) => true
  }

  function Goto(s: State, t: nat, phase: Phase): State
    requires t in s.calls
  {
    s.(calls := s.calls[t := s.calls[t].(phase := phase)])
  }

  function Apply(s: State, e: Event): State
    requires Enabled(s, e)
  {
    match e
    case Mutate(t, op) =>
      var used := if op.Issue? || op.Revoke? then s.used + {op.key} else s.used;
      s.(mem := MapAfter(s.mem, op),
         calls := s.calls[t := Call(Dropped(used, s.mem, op), if Saves(s.mem, op) then NeedSave else Returned)],
         used := used)
    case LockWrites(t) => Goto(s, t, Locked).(lock := Some(t))
    case Snapshot(t) => Goto(s, t, Snapped(s.mem))
    case Write(t) => Goto(s, t, Written).(disk := s.calls[t].phase.snapshot, boot := {})
    case Unlock(t) => Goto(s, t, Returned).(lock := None)
    case Restart(now) => Boot(s, now)
  }

  /** Calls that had returned stay on record; the others die with the process. */
  function Boot(s: State, now: nat): State {
    var mem := Live(s.disk, now, SESSION_TTL);
    s.(mem := mem, lock := None, boot := s.disk.Keys - mem.Keys,
       calls := map t | t in s.calls && s.calls[t].phase.Returned? :: s.calls[t])
  }

  /** A first start on any disk contents. */
  function Initial(disk: Sessions, now: nat): State {
    Boot(State(map[], disk, None, map[], disk.Keys, {}), now)
  }

  predicate Runs(disk: Sessions, start: nat, es: seq<Event>)
    decreases |es|, 0
  {
    es == [] || (Runs(disk, start, es[..|es| - 1]) && Enabled(StateAfter(disk, start, es[..|es| - 1]), es[|es| - 1]))
  }

  function StateAfter(disk: Sessions, start: nat, es: seq<Event>): State
    requires Runs(disk, start, es)
    decreases |es|, 1
  {
    if es == [] then Initial(disk, start) else Apply(StateAfter(disk, start, es[..|es| - 1]), es[|es| - 1])
  }

  // ----- Invariants -----

  predicate HoldsLock(p: Phase) {
    p.Locked? || p.Snapped? || p.Written?
  }

  ghost predicate Exclusive(s: State) {
    && (s.lock.Some? ==> s.lock.value in s.calls)
    && forall t | t in s.calls :: HoldsLock(s.calls[t].phase) <==> s.lock == Some(t)
  }

  predicate CallOk(s: State, t: nat)
    requires t in s.calls
  {
    var c := s.calls[t];
    && c.dropped <= s.used
    && c.dropped !! s.mem.Keys
    && (c.phase.Snapped? ==> c.dropped !! c.phase.snapshot.Keys && c.phase.snapshot.Keys <= s.used)
    && (c.phase.Written? || c.phase.Returned? ==> c.dropped !! s.disk.Keys)
  }

  /** No snapshot in flight holds a key whose call has returned. */
  ghost predicate Clean(s: State) {
    forall t, u | t in s.calls && u in s.calls && s.calls[t].phase.Returned? && s.calls[u].phase.Snapped? ::
      s.calls[t].dropped !! s.calls[u].phase.snapshot.Keys
  }

  ghost predicate Safe(s: State) {
    && Exclusive(s)
    && (forall t | t in s.calls :: CallOk(s, t))
    && Clean(s)
    && s.mem.Keys <= s.used
    && s.disk.Keys <= s.used
    && s.boot <= s.used
  }

  lemma SweepKeepsKeys(m: Sessions, op: Op)
    requires op.Sweep? && !Saves(m, op)
    ensures MapAfter(m, op).Keys == m.Keys
  {
    SubsetSameSize(MapAfter(m, op).Keys, m.Keys);
    assert |MapAfter(m, op).Keys| == |MapAfter(m, op)| && |m.Keys| == |m|;
  }

  /** A map section that does not go on to save leaves the key set alone; any section keeps
      its keys among the old ones and the one issued. */
  lemma MutateKeys(m: Sessions, op: Op)
    ensures !Saves(m, op) ==> MapAfter(m, op).Keys == m.Keys
    ensures MapAfter(m, op).Keys <= m.Keys + (if op.Issue? then {op.key} else {})
  {
    if op.Sweep? && !Saves(m, op) { SweepKeepsKeys(m, op); }
  }

  lemma MutateSafe(s: State, t: nat, op: Op)
    requires Safe(s) && Enabled(s, Mutate(t, op))
    ensures Safe(Apply(s, Mutate(t, op)))
  {
    var s' := Apply(s, Mutate(t, op));
    MutateKeys(s.mem, op);
    forall u | u in s'.calls ensures CallOk(s', u) {
      if u in s.calls { assert CallOk(s, u); }
    }
  }

  lemma SaveSafe(s: State, e: Event)
    requires Safe(s) && Enabled(s, e) && !e.Mutate? && !e.Restart?
    ensures Safe(Apply(s, e))
  {
    var s' := Apply(s, e);
    assert CallOk(s, e.t);
    forall u | u in s'.calls ensures CallOk(s', u) {
      assert CallOk(s, u);
    }
  }

  lemma RestartSafe(s: State, now: nat)
    requires Safe(s)
    ensures Safe(Boot(s, now))
  {
    var s' := Boot(s, now);
    forall u | u in s'.calls ensures CallOk(s', u) {
      assert CallOk(s, u);
    }
  }

  /** Whether some call has still to take a snapshot. */
  ghost predicate SnapshotDue(s: State) {
    exists t | t in s.calls :: s.calls[t].phase.NeedSave? || s.calls[t].phase.Locked?
  }

  /** Unless a snapshot is due, the last snapshot, or else the disk, has memory's key set. */
  ghost predicate Mirrored(s: State) {
    && s.boot !! s.mem.Keys
    && (!SnapshotDue(s) ==>
          && (forall u | u in s.calls && s.calls[u].phase.Snapped? :: s.calls[u].phase.snapshot.Keys == s.mem.Keys)
          && ((forall u | u in s.calls :: !s.calls[u].phase.Snapped?) ==> s.disk.Keys == s.mem.Keys + s.boot))
  }

  lemma MutateMirrored(s: State, t: nat, op: Op)
    requires Safe(s) && Mirrored(s) && Enabled(s, Mutate(t, op))
    ensures Mirrored(Apply(s, Mutate(t, op)))
  {
    BootStaysApart(s, t, op);
    if Saves(s.mem, op) {
      assert t in Apply(s, Mutate(t, op)).calls && Apply(s, Mutate(t, op)).calls[t].phase.NeedSave?;
    } else {
      QuietMirrored(s, t, op);
    }
  }

  lemma BootStaysApart(s: State, t: nat, op: Op)
    requires Safe(s) && s.boot !! s.mem.Keys && Enabled(s, Mutate(t, op))
    ensures s.boot !! MapAfter(s.mem, op).Keys
  {
    MutateKeys(s.mem, op);
  }

  lemma QuietMirrored(s: State, t: nat, op: Op)
    requires Safe(s) && Mirrored(s) && Enabled(s, Mutate(t, op)) && !Saves(s.mem, op)
    ensures Mirrored(Apply(s, Mutate(t, op)))
  {
    MutateKeys(s.mem, op);
    DueUnchanged(s, Apply(s, Mutate(t, op)), t);
  }

  lemma DueUnchanged(s: State, s': State, t: nat)
    requires t in s'.calls && forall u | u != t :: (u in s.calls <==> u in s'.calls)
    requires forall u | u in s.calls && u != t :: s'.calls[u] == s.calls[u]
    requires !s'.calls[t].phase.NeedSave? && !s'.calls[t].phase.Locked?
    requires t in s.calls ==> !s.calls[t].phase.NeedSave? && !s.calls[t].phase.Locked?
    ensures SnapshotDue(s) == SnapshotDue(s')
  {
    if SnapshotDue(s) {
      var u :| u in s.calls && (s.calls[u].phase.NeedSave? || s.calls[u].phase.Locked?);
      assert u in s'.calls && s'.calls[u] == s.calls[u];
    }
  }

  lemma LockIsMine(s: State, t: nat)
    requires Exclusive(s) && t in s.calls && HoldsLock(s.calls[t].phase)
    ensures forall u | u in s.calls && u != t :: !HoldsLock(s.calls[u].phase)
  {
  }

  lemma SnapshotMirrored(s: State, t: nat)
    requires Safe(s) && Mirrored(s) && Enabled(s, Snapshot(t))
    ensures Mirrored(Apply(s, Snapshot(t)))
  {
    var s' := Apply(s, Snapshot(t));
    LockIsMine(s, t);
    assert t in s'.calls && s'.calls[t].phase.Snapped?;
  }

  lemma WriteMirrored(s: State, t: nat)
    requires Safe(s) && Mirrored(s) && Enabled(s, Write(t))
    ensures Mirrored(Apply(s, Write(t)))
  {
    var s' := Apply(s, Write(t));
    DueUnchanged(s, s', t);
    LockIsMine(s, t);
  }

  lemma OtherMirrored(s: State, e: Event)
    requires Safe(s) && Mirrored(s) && Enabled(s, e) && (e.LockWrites? || e.Unlock? || e.Restart?)
    ensures Mirrored(Apply(s, e))
  {
    var s' := Apply(s, e);
    if e.LockWrites? { assert e.t in s'.calls && s'.calls[e.t].phase.Locked?; }
    if e.Unlock? {
      DueUnchanged(s, s', e.t);
      LockIsMine(s, e.t);
    }
  }

  lemma {:induction false} RunKeeps(disk: Sessions, start: nat, es: seq<Event>)
    requires Runs(disk, start, es)
    ensures Safe(StateAfter(disk, start, es)) && Mirrored(StateAfter(disk, start, es))
  {
    if es != [] {
      var s, e := StateAfter(disk, start, es[..|es| - 1]), es[|es| - 1];
      RunKeeps(disk, start, es[..|es| - 1]);
      match e {
        case Mutate(t, op) =>
          MutateSafe(s, t, op);
          MutateMirrored(s, t, op);
        case Restart(now) =>
          RestartSafe(s, now);
          OtherMirrored(s, e);
        case Snapshot(t) =>
          SaveSafe(s, e);
          SnapshotMirrored(s, t);
        case Write(t) =>
          SaveSafe(s, e);
          WriteMirrored(s, t);
        case _ =>
          SaveSafe(s, e);
          OtherMirrored(s, e);
      }
    }
  }

  // ----- Main results, over every interleaving and restart -----

  /** Once a call that took a key away has returned (a `revoke` of it, a `revoke_user`, a prune),
      that key is neither on disk nor in memory in any later state, restarts included. */
  lemma DroppedStaysOff(disk: Sessions, start: nat, es: seq<Event>, t: nat, k: Key)
    requires Runs(disk, start, es)
    requires At(StateAfter(disk, start, es), t, Returned) && k in StateAfter(disk, start, es).calls[t].dropped
    ensures var s := StateAfter(disk, start, es);
            k !in s.disk && k !in s.mem && forall now, ttl :: !Resolves(s.mem, Op.Identity(k, now, ttl))
  {
    RunKeeps(disk, start, es);
    assert CallOk(StateAfter(disk, start, es), t);
  }

  lemma StepKeepsReturned(s: State, e: Event, t: nat)
    requires Enabled(s, e) && At(s, t, Returned)
    ensures t in Apply(s, e).calls && Apply(s, e).calls[t] == s.calls[t]
  {
  }

  /** A returned call is never forgotten, so the result above covers all later states. */
  lemma {:induction false} ReturnedStays(disk: Sessions, start: nat, es: seq<Event>, more: seq<Event>, t: nat)
    requires Runs(disk, start, es) && Runs(disk, start, es + more)
    requires At(StateAfter(disk, start, es), t, Returned)
    ensures t in StateAfter(disk, start, es + more).calls
    ensures StateAfter(disk, start, es + more).calls[t] == StateAfter(disk, start, es).calls[t]
    decreases |more|
  {
    if more == [] {
      assert es + more == es;
    } else {
      var before := more[..|more| - 1];
      assert (es + more)[..|es + more| - 1] == es + before;
      ReturnedStays(disk, start, es, before, t);
      StepKeepsReturned(StateAfter(disk, start, es + before), more[|more| - 1], t);
    }
  }

  /** The call of `revoke` takes its key away, whether or not a session had it. */
  lemma RevokeDrops(s: State, t: nat, k: Key)
    requires t !in s.calls
    ensures k in Apply(s, Mutate(t, Op.Revoke(k))).calls[t].dropped
  {
  }

  lemma StepKeepsDropped(s: State, e: Event, t: nat, k: Key)
    requires Enabled(s, e) && (t in s.calls ==> k in s.calls[t].dropped) && !(e.Mutate? && e.t == t)
    ensures t in Apply(s, e).calls ==> k in Apply(s, e).calls[t].dropped
  {
  }

  /** A call that dropped a key still has, as long as it is on record. */
  lemma {:induction false} DropsStay(disk: Sessions, start: nat, es: seq<Event>, t: nat, k: Key, more: seq<Event>)
    requires Runs(disk, start, es) && Runs(disk, start, es + more)
    requires t in StateAfter(disk, start, es).calls ==> k in StateAfter(disk, start, es).calls[t].dropped
    requires forall e | e in more :: !(e.Mutate? && e.t == t)
    ensures var s := StateAfter(disk, start, es + more);
            t in s.calls ==> k in s.calls[t].dropped
    decreases |more|
  {
    if more == [] {
      assert es + more == es;
    } else {
      var before := more[..|more| - 1];
      assert (es + more)[..|es + more| - 1] == es + before;
      assert more[|more| - 1] in more;
      DropsStay(disk, start, es, t, k, before);
      StepKeepsDropped(StateAfter(disk, start, es + before), more[|more| - 1], t, k);
    }
  }

  /** Main result: once `revoke` of a key has returned, in any later state of any interleaving,
      restarts included, the key is on neither disk nor memory, and nothing resolves it. */
  lemma RevokedStaysOff(disk: Sessions, start: nat, es: seq<Event>, t: nat, k: Key, more: seq<Event>)
    requires Runs(disk, start, es + [Mutate(t, Op.Revoke(k))])
    requires Runs(disk, start, es + [Mutate(t, Op.Revoke(k))] + more)
    requires forall e | e in more :: !(e.Mutate? && e.t == t)
    requires At(StateAfter(disk, start, es + [Mutate(t, Op.Revoke(k))] + more), t, Returned)
    ensures var s := StateAfter(disk, start, es + [Mutate(t, Op.Revoke(k))] + more);
            k !in s.disk && k !in s.mem && forall now, ttl :: !Resolves(s.mem, Op.Identity(k, now, ttl))
  {
    assert (es + [Mutate(t, Op.Revoke(k))])[..|es|] == es;
    RevokeDrops(StateAfter(disk, start, es), t, k);
    DropsStay(disk, start, es + [Mutate(t, Op.Revoke(k))], t, k, more);
    DroppedStaysOff(disk, start, es + [Mutate(t, Op.Revoke(k))] + more, t, k);
  }

  /** When no call is in progress, disk and memory hold the same keys, save for the expired keys
      that the last start found and no save has yet erased. */
  lemma QuiescentMirror(disk: Sessions, start: nat, es: seq<Event>)
    requires Runs(disk, start, es)
    requires forall t | t in StateAfter(disk, start, es).calls :: StateAfter(disk, start, es).calls[t].phase.Returned?
    ensures var s := StateAfter(disk, start, es);
            s.disk.Keys == s.mem.Keys + s.boot && s.boot !! s.mem.Keys
  {
    RunKeeps(disk, start, es);
  }

  /** The leftovers are real: a start keeps every expired record's key on disk and out of memory,
      with no call in progress; one second past 12 hours is enough. */
  lemma StartLeavesExpired(disk: Sessions, start: nat, k: Key)
    ensures var s := StateAfter(disk, start, []);
            s.calls == map[] && (k in s.boot <==> k in disk && !RecordLive(disk[k], start, SESSION_TTL))
            && (k in s.boot ==> k in s.disk && k !in s.mem)
    ensures "k" in StateAfter(map["k" := Rec("u", 0, 0)], 43_201, []).boot
  {
  }

  lemma StepKeepsClean(s: State, e: Event)
    requires Enabled(s, e) && s.boot == {} && !e.Restart?
    ensures Apply(s, e).boot == {}
  {
  }

  lemma {:induction false} CleanStays(disk: Sessions, start: nat, es: seq<Event>, more: seq<Event>)
    requires Runs(disk, start, es) && Runs(disk, start, es + more)
    requires StateAfter(disk, start, es).boot == {} && forall e | e in more :: !e.Restart?
    ensures StateAfter(disk, start, es + more).boot == {}
    decreases |more|
  {
    if more == [] {
      assert es + more == es;
    } else {
      var before := more[..|more| - 1];
      assert (es + more)[..|es + more| - 1] == es + before;
      assert more[|more| - 1] in more;
      CleanStays(disk, start, es, before);
      StepKeepsClean(StateAfter(disk, start, es + before), more[|more| - 1]);
    }
  }

  /** Those leftovers are gone from the first write on, until the next restart. */
  lemma WriteErasesLeftovers(disk: Sessions, start: nat, es: seq<Event>, t: nat, more: seq<Event>)
    requires Runs(disk, start, es + [Write(t)]) && Runs(disk, start, es + [Write(t)] + more)
    requires forall e | e in more :: !e.Restart?
    ensures StateAfter(disk, start, es + [Write(t)] + more).boot == {}
  {
    assert (es + [Write(t)])[..|es|] == es;
    CleanStays(disk, start, es + [Write(t)], more);
  }
}
