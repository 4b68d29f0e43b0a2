/** How long a session lives: over every interleaving of calls and saves, across
    restarts, and against what a restart by itself takes away. */
module SessionExpiry {
  import opened Wrappers
  import opened Clocks
  import opened SessionStore

  // ----- What has happened to each key -----

  /** To whom and when a key's session was issued, and the latest reading it was issued or resolved at. */
  datatype Stamp = Stamp(owner: string, issued: nat, used: nat)

  function Max(a: nat, b: nat): nat {
    if a < b then b else a
  }

  function Noted(book: map<Key, Stamp>, mem: Sessions, e: Event): map<Key, Stamp> {
    if !e.Mutate? then book
    else if e.op.Issue? then book[e.op.key := Stamp(e.op.user, e.op.now, e.op.now)]
    else if Resolves(mem, e.op) && e.op.key in book
    then book[e.op.key := book[e.op.key].(used := Max(book[e.op.key].used, e.op.now))]
    else book
  }

  /** The history of every key, beginning with what the disk said at the first start. */
  function BookOf(disk: Sessions, start: nat, es: seq<Event>): map<Key, Stamp>
    requires Runs(disk, start, es)
  {
    if es == [] then map k | k in disk :: Stamp(disk[k].user, disk[k].issued, disk[k].last)
    else
      var before := es[..|es| - 1];
      Noted(BookOf(disk, start, before), StateAfter(disk, start, before).mem, es[|es| - 1])
  }

  /** Every record has its key's owner and time of issue, and no use later than its key has seen. */
  ghost predicate Truthful(m: Sessions, book: map<Key, Stamp>) {
    forall k | k in m :: k in book && m[k].user == book[k].owner && m[k].issued == book[k].issued && m[k].last <= book[k].used
  }

  /** So do memory, disk, and every snapshot on its way from one to the other. */
  ghost predicate AllTruthful(s: State, book: map<Key, Stamp>) {
    && Truthful(s.mem, book) && Truthful(s.disk, book)
    && forall t | t in s.calls && s.calls[t].phase.Snapped? :: Truthful(s.calls[t].phase.snapshot, book)
  }

  lemma OthersStayTruthful(s: State, m: Sessions, book: map<Key, Stamp>, t: nat, op: Op)
    requires Truthful(m, book) && m.Keys <= s.used && Enabled(s, Mutate(t, op))
    ensures Truthful(m, Noted(book, s.mem, Mutate(t, op)))
  {
  }

  lemma MemoryStaysTruthful(s: State, book: map<Key, Stamp>, t: nat, op: Op)
    requires Truthful(s.mem, book)
    ensures Truthful(MapAfter(s.mem, op), Noted(book, s.mem, Mutate(t, op)))
  {
  }

  lemma StepStaysTruthful(s: State, book: map<Key, Stamp>, e: Event)
    requires Safe(s) && Enabled(s, e) && AllTruthful(s, book)
    ensures AllTruthful(Apply(s, e), Noted(book, s.mem, e))
  {
    var s', book' := Apply(s, e), Noted(book, s.mem, e);
    match e {
      case Mutate(t, op) =>
        MemoryStaysTruthful(s, book, t, op);
        OthersStayTruthful(s, s.disk, book, t, op);
        forall u | u in s'.calls && s'.calls[u].phase.Snapped? ensures Truthful(s'.calls[u].phase.snapshot, book') {
          assert CallOk(s, u);
          OthersStayTruthful(s, s.calls[u].phase.snapshot, book, t, op);
        }
      case _ =>
    }
  }

  lemma {:induction false} RunStaysTruthful(disk: Sessions, start: nat, es: seq<Event>)
    requires Runs(disk, start, es)
    ensures AllTruthful(StateAfter(disk, start, es), BookOf(disk, start, es))
  {
    if es != [] {
      RunStaysTruthful(disk, start, es[..|es| - 1]);
      RunKeeps(disk, start, es[..|es| - 1]);
      StepStaysTruthful(StateAfter(disk, start, es[..|es| - 1]), BookOf(disk, start, es[..|es| - 1]), es[|es| - 1]);
    }
  }

  /** Main result: in every interleaving, and across restarts, a session resolves only within
      604800 s of its issue and within the inactivity timeout of its latest use. */
  lemma ResolvesOnlyInTime(disk: Sessions, start: nat, es: seq<Event>, op: Op)
    requires Runs(disk, start, es) && Resolves(StateAfter(disk, start, es).mem, op)
    ensures var book := BookOf(disk, start, es);
            op.key in book && op.now <= book[op.key].issued + SESSION_ABS_TTL && op.now <= book[op.key].used + op.ttl
  {
    RunStaysTruthful(disk, start, es);
  }

  // ----- Whose session it is -----

  /** What a call answers that resolves its token. */
  function AnswerOf(m: Sessions, op: Op): Option<string> {
    if Resolves(m, op) then Some(m[op.key].user) else None
  }

  /** Main result: in every interleaving, and across restarts, a resolved token answers the owner
      that its session was issued to. */
  lemma AnswersItsOwner(disk: Sessions, start: nat, es: seq<Event>, op: Op)
    requires Runs(disk, start, es) && AnswerOf(StateAfter(disk, start, es).mem, op).Some?
    ensures var book := BookOf(disk, start, es);
            op.key in book && AnswerOf(StateAfter(disk, start, es).mem, op) == Some(book[op.key].owner)
  {
    RunStaysTruthful(disk, start, es);
  }

  lemma NotedIsUsed(s: State, book: map<Key, Stamp>, e: Event)
    requires Enabled(s, e) && book.Keys <= s.used
    ensures Noted(book, s.mem, e).Keys <= Apply(s, e).used
  {
  }

  lemma {:induction false} BookIsUsed(disk: Sessions, start: nat, es: seq<Event>)
    requires Runs(disk, start, es)
    ensures BookOf(disk, start, es).Keys <= StateAfter(disk, start, es).used
  {
    if es != [] {
      BookIsUsed(disk, start, es[..|es| - 1]);
      NotedIsUsed(StateAfter(disk, start, es[..|es| - 1]), BookOf(disk, start, es[..|es| - 1]), es[|es| - 1]);
    }
  }

  /** The section of `revoke_user` under the map lock: the user's sessions leave memory, save the one
      to keep, and every other session stays as it is. */
  lemma RevokeUserTakes(disk: Sessions, start: nat, es: seq<Event>, t: nat, user: string, keep: Option<Key>)
    requires Runs(disk, start, es + [Mutate(t, Op.RevokeUser(user, keep))])
    ensures Runs(disk, start, es)
    ensures var s, s' := StateAfter(disk, start, es), StateAfter(disk, start, es + [Mutate(t, Op.RevokeUser(user, keep))]);
            var book := BookOf(disk, start, es);
            (forall k | k in s.mem && k in book && (book[k].owner != user || keep == Some(k)) :: k in s'.mem && s'.mem[k] == s.mem[k])
            && (forall k | k in book && book[k].owner == user && keep != Some(k) :: k !in s'.mem && k in s'.calls[t].dropped)
  {
    assert (es + [Mutate(t, Op.RevokeUser(user, keep))])[..|es|] == es;
    RunStaysTruthful(disk, start, es);
    BookIsUsed(disk, start, es);
  }

  /** Main result: once `revoke_user` has returned, in any later state of any interleaving, restarts
      included, none of the sessions issued to that user before it is on disk or in memory or
      resolves, save the one to keep. */
  lemma UserRevokedStaysOff(disk: Sessions, start: nat, es: seq<Event>, t: nat, user: string, keep: Option<Key>,
                            more: seq<Event>, k: Key)
    requires Runs(disk, start, es) && k in BookOf(disk, start, es)
    requires BookOf(disk, start, es)[k].owner == user && keep != Some(k)
    requires Runs(disk, start, es + [Mutate(t, Op.RevokeUser(user, keep))])
    requires Runs(disk, start, es + [Mutate(t, Op.RevokeUser(user, keep))] + more)
    requires forall e | e in more :: !(e.Mutate? && e.t == t)
    requires At(StateAfter(disk, start, es + [Mutate(t, Op.RevokeUser(user, keep))] + more), t, Returned)
    ensures var s := StateAfter(disk, start, es + [Mutate(t, Op.RevokeUser(user, keep))] + more);
            k !in s.disk && k !in s.mem && forall now, ttl :: !Resolves(s.mem, Op.Identity(k, now, ttl))
  {
    RevokeUserTakes(disk, start, es, t, user, keep);
    DropsStay(disk, start, es + [Mutate(t, Op.RevokeUser(user, keep))], t, k, more);
    DroppedStaysOff(disk, start, es + [Mutate(t, Op.RevokeUser(user, keep))] + more, t, k);
  }

  // ----- What the book says -----

  /** The event issues a session for `k`. */
  predicate IssuesKey(e: Event, k: Key) {
    e.Mutate? && e.op.Issue? && e.op.key == k
  }

  /** The event issues or resolves a session for `k`. */
  predicate UsesKey(s: State, e: Event, k: Key) {
    IssuesKey(e, k) || (e.Mutate? && Resolves(s.mem, e.op) && e.op.key == k)
  }

  /** The last of the run's events to use `k` read this clock, or the disk had this stamp at first. */
  function LastUse(disk: Sessions, start: nat, es: seq<Event>, k: Key): Option<nat>
    requires Runs(disk, start, es)
  {
    if es == [] then if k in disk then Some(disk[k].last) else None
    else
      var before, e := es[..|es| - 1], es[|es| - 1];
      if UsesKey(StateAfter(disk, start, before), e, k) then Some(e.op.now) else LastUse(disk, start, before, k)
  }

  /** The one event that issued `k`, or the stamp the disk had at first. */
  function FirstIssue(disk: Sessions, es: seq<Event>, k: Key): Option<nat> {
    if es == [] then if k in disk then Some(disk[k].issued) else None
    else if IssuesKey(es[|es| - 1], k) then Some(es[|es| - 1].op.now)
    else FirstIssue(disk, es[..|es| - 1], k)
  }

  /** The readings that use `k` never go back, nor before what the disk says. */
  predicate UsesInOrder(disk: Sessions, start: nat, es: seq<Event>, k: Key)
    requires Runs(disk, start, es)
  {
    es == []
    || (var before, e := es[..|es| - 1], es[|es| - 1];
        UsesInOrder(disk, start, before, k)
        && (UsesKey(StateAfter(disk, start, before), e, k) && LastUse(disk, start, before, k).Some? ==>
              LastUse(disk, start, before, k).value <= e.op.now))
  }

  /** What the book has on `k` is when it was issued and, if its uses were in order, last used. */
  predicate Tells(book: map<Key, Stamp>, k: Key, issued: Option<nat>, used: Option<nat>, ordered: bool) {
    && (k in book <==> issued.Some?)
    && (k in book ==> issued == Some(book[k].issued) && used.Some? && (ordered ==> used == Some(book[k].used)))
  }

  lemma NotedTells(s: State, book: map<Key, Stamp>, e: Event, k: Key, issued: Option<nat>, used: Option<nat>, ordered: bool)
    requires Tells(book, k, issued, used, ordered) && Truthful(s.mem, book)
    ensures var uses := UsesKey(s, e, k);
            Tells(Noted(book, s.mem, e), k, if IssuesKey(e, k) then Some(e.op.now) else issued,
                  if uses then Some(e.op.now) else used,
                  ordered && (uses && used.Some? ==> used.value <= e.op.now))
  {
  }

  /** The book has the time of issue; and under a clock that does not go back, its latest
      use is the last one. */
  lemma {:induction false} BookTellsHistory(disk: Sessions, start: nat, es: seq<Event>, k: Key)
    requires Runs(disk, start, es)
    ensures Tells(BookOf(disk, start, es), k, FirstIssue(disk, es, k), LastUse(disk, start, es, k),
                  UsesInOrder(disk, start, es, k))
  {
    if es != [] {
      var before := es[..|es| - 1];
      BookTellsHistory(disk, start, before, k);
      RunStaysTruthful(disk, start, before);
      NotedTells(StateAfter(disk, start, before), BookOf(disk, start, before), es[|es| - 1], k,
                 FirstIssue(disk, before, k), LastUse(disk, start, before, k), UsesInOrder(disk, start, before, k));
    }
  }

  /** So, under such a clock, a session resolves only within the timeout of its previous use. */
  lemma ResolvesAfterPreviousUse(disk: Sessions, start: nat, es: seq<Event>, op: Op)
    requires Runs(disk, start, es) && Resolves(StateAfter(disk, start, es).mem, op) && UsesInOrder(disk, start, es, op.key)
    ensures LastUse(disk, start, es, op.key).Some? && op.now <= LastUse(disk, start, es, op.key).value + op.ttl
    ensures FirstIssue(disk, es, op.key).Some? && op.now <= FirstIssue(disk, es, op.key).value + SESSION_ABS_TTL
  {
    ResolvesOnlyInTime(disk, start, es, op);
    BookTellsHistory(disk, start, es, op.key);
  }

  // ----- What a restart takes away -----

  /** No later call can tell whether a stored map went through the filter of a start. */
  ghost predicate RestartInvisible(ttl: nat) {
    forall m: Sessions, op: Op, now: nat | op.Identity? && op.ttl == ttl && now <= op.now ::
      Resolves(Live(m, now, SESSION_TTL), op) <==> Resolves(m, op)
  }

  /** Main result: a start drops only sessions that no later call would resolve, exactly when the
      configured timeout is at most the built-in one, which the start goes by. */
  lemma RestartInvisibleIff(ttl: nat)
    ensures RestartInvisible(ttl) <==> ttl <= SESSION_TTL
  {
    if ttl > SESSION_TTL {
      var now := SESSION_TTL + 1;
      var m: Sessions := map["k" := Rec("u", 0, 0)];
      assert Resolves(m, Op.Identity("k", now, ttl)) && !Resolves(Live(m, now, SESSION_TTL), Op.Identity("k", now, ttl));
    }
  }

  // ----- One call at a time, without a restart -----

  function MemoryAfter(ops: seq<Op>): Sessions {
    if ops == [] then map[] else MapAfter(MemoryAfter(ops[..|ops| - 1]), ops[|ops| - 1])
  }

  /** When the session was issued, by the last `Issue` of its key. */
  function IssuedAt(ops: seq<Op>, k: Key): Option<nat> {
    if ops == [] then None
    else
      var op := ops[|ops| - 1];
      if op.Issue? && op.key == k then Some(op.now) else IssuedAt(ops[..|ops| - 1], k)
  }

  /** When the key was last issued or last resolved. */
  function UsedAt(ops: seq<Op>, k: Key): Option<nat> {
    if ops == [] then None
    else
      var before, op := ops[..|ops| - 1], ops[|ops| - 1];
      if (op.Issue? || Resolves(MemoryAfter(before), op)) && op.key == k then Some(op.now) else UsedAt(before, k)
  }

  lemma {:induction false} RecordsTellHistory(ops: seq<Op>, k: Key)
    requires k in MemoryAfter(ops)
    ensures Some(MemoryAfter(ops)[k].issued) == IssuedAt(ops, k) && Some(MemoryAfter(ops)[k].last) == UsedAt(ops, k)
  {
    if ops != [] && k in MemoryAfter(ops[..|ops| - 1]) {
      RecordsTellHistory(ops[..|ops| - 1], k);
    }
  }

  /** Until the next restart, a session resolves only within the inactivity timeout of exactly
      its previous use, whatever the clock does in between. */
  lemma ResolvesSincePreviousUse(ops: seq<Op>, op: Op)
    requires Resolves(MemoryAfter(ops), op)
    ensures IssuedAt(ops, op.key).Some? && op.now <= IssuedAt(ops, op.key).value + SESSION_ABS_TTL
    ensures UsedAt(ops, op.key).Some? && op.now <= UsedAt(ops, op.key).value + op.ttl
  {
    RecordsTellHistory(ops, op.key);
  }

  /** When the session of `k` was last issued or asked for. */
  function AskedAt(ops: seq<Op>, k: Key): nat {
    if ops == [] then 0
    else
      var op := ops[|ops| - 1];
      if (op.Issue? || op.Identity?) && op.key == k then op.now else AskedAt(ops[..|ops| - 1], k)
  }

  /** The call does not end the session of `k`, of `user`: it is no revocation of it, and any call
      that would prune it or asks for it comes within both time limits. */
  predicate Spares(before: seq<Op>, op: Op, k: Key, user: string, issued: nat) {
    && op != Op.Revoke(k) && !(op.Issue? && op.key == k)
    && (op.RevokeUser? ==> op.user != user || op.keep == Some(k))
    && (op.Issue? || op.Sweep? || (op.Identity? && op.key == k) ==>
          Since(op.now, AskedAt(before, k)) <= op.ttl && Since(op.now, issued) <= 604_800)
  }

  lemma SpareStep(m: Sessions, before: seq<Op>, op: Op, k: Key, user: string, issued: nat)
    requires k in m && m[k] == Rec(user, AskedAt(before, k), issued) && Spares(before, op, k, user, issued)
    ensures k in MapAfter(m, op)
    ensures MapAfter(m, op)[k]
         == Rec(user, if op.Identity? && op.key == k then op.now else AskedAt(before, k), issued)
  {
  }

  /** Main result: until the next restart, a session that nothing ends is there, with its owner, its
      last use and its issue; so it resolves for whoever asks in time. */
  lemma {:induction false} SparedSessionStays(ops: seq<Op>, k: Key, user: string, issued: nat, ttl: nat, more: seq<Op>)
    requires ops != [] && ops[|ops| - 1] == Op.Issue(k, user, issued, ttl)
    requires forall x | 0 <= x < |more| :: Spares(ops + more[..x], more[x], k, user, issued)
    ensures k in MemoryAfter(ops + more) && MemoryAfter(ops + more)[k] == Rec(user, AskedAt(ops + more, k), issued)
    decreases |more|
  {
    if more == [] {
      assert ops + more == ops;
    } else {
      var n := |more| - 1;
      var before := more[..n];
      assert (ops + more)[..|ops + more| - 1] == ops + before;
      forall x | 0 <= x < n ensures Spares(ops + before[..x], before[x], k, user, issued) {
        assert before[..x] == more[..x] && Spares(ops + more[..x], more[x], k, user, issued);
      }
      SparedSessionStays(ops, k, user, issued, ttl, before);
      SpareStep(MemoryAfter(ops + before), ops + before, more[n], k, user, issued);
    }
  }

  lemma SparedSessionResolves(ops: seq<Op>, k: Key, user: string, issued: nat, ttl: nat, more: seq<Op>, op: Op)
    requires ops != [] && ops[|ops| - 1] == Op.Issue(k, user, issued, ttl)
    requires forall x | 0 <= x < |more| :: Spares(ops + more[..x], more[x], k, user, issued)
    requires op.Identity? && op.key == k && Spares(ops + more, op, k, user, issued)
    ensures AnswerOf(MemoryAfter(ops + more), op) == Some(user)
  {
    SparedSessionStays(ops, k, user, issued, ttl, more);
  }
}
