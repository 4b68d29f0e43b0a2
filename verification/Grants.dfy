/** One-shot grants: login challenges, tickets and step-up tokens. The three
    stores issue, evict and sweep alike and differ in how a grant is consumed. */
module Grants {
  import opened Wrappers
  import opened Sets

  datatype Kind = Challenge | Ticket | StepUp

  /** A challenge names no user; only a ticket has a purpose. */
  datatype Grant = Grant(issued: real, user: string, purpose: string)

  type Live = map<string, Grant>

  function Ttl(kind: Kind): real {
    match kind
    case Challenge => 120.0
    case Ticket => 30.0
    case StepUp => 120.0
  }

  function Cap(kind: Kind): nat {
    if kind.StepUp? then 1024 else 4096
  }

  predicate InTime(g: Grant, now: real, kind: Kind) {
    now - g.issued <= Ttl(kind)
  }

  function Unexpired(m: Live, now: real, kind: Kind): Live {
    map k | k in m && InTime(m[k], now, kind) :: m[k]
  }

  // ----- What each operation may do -----

  datatype Event =
    | Issue(token: string, user: string, purpose: string, now: real)
    | Consume(token: string, who: string, now: real)  // `who` is the user or the purpose presented
    | RevokeUser(user: string)
    | Sweep(now: real)

  /** Whether the grant is for whoever presents it. */
  predicate Matches(g: Grant, who: string, kind: Kind) {
    match kind
    case Challenge => true
    case Ticket => g.purpose == who
    case StepUp => g.user == who
  }

  predicate Accepts(m: Live, e: Event, kind: Kind) {
    e.Consume? && e.token != "" && e.token in m && Matches(m[e.token], e.who, kind) && InTime(m[e.token], e.now, kind)
  }

  /** A challenge is removed by any attempt, a ticket only by a success, a step-up token by a
      success or once it has expired. */
  predicate Removes(m: Live, e: Event, kind: Kind)
    requires e.Consume?
  {
    e.token != "" && e.token in m
    && (match kind
        case Challenge => true
        case Ticket => Accepts(m, e, kind)
        case StepUp => Accepts(m, e, kind) || !InTime(m[e.token], e.now, kind))
  }

  /** `kept` is `m` with just as many of its oldest grants evicted as make room for one more. */
  ghost predicate OldestEvicted(m: Live, kept: Live, cap: nat) {
    && kept.Keys <= m.Keys
    && (forall k | k in kept :: kept[k] == m[k])
    && (|m| < cap ==> kept == m)
    && (|m| >= cap ==> |kept| == cap - 1)
    && (forall k, l | k in m && k !in kept && l in kept :: m[k].issued <= m[l].issued)
  }

  ghost predicate Next(m: Live, e: Event, m': Live, kind: Kind) {
    match e
    case Issue(token, user, purpose, now) =>
      token in m' && m'[token] == Grant(now, user, purpose)
      && OldestEvicted(Unexpired(m, now, kind), m' - {token}, Cap(kind))
    case Consume(token, _, _) => m' == if Removes(m, e, kind) then m - {token} else m
    case RevokeUser(user) => m' == map k | k in m && m[k].user != user :: m[k]
    case Sweep(now) => m' == Unexpired(m, now, kind)
  }

  // ----- The stores -----

  lemma {:induction false} Oldest(m: Live) returns (k: string)
    requires m != map[]
    ensures k in m && forall l | l in m :: m[k].issued <= m[l].issued
    decreases |m|
  {
    k :| k in m;
    var rest := m - {k};
    if rest == map[] {
      forall l | l in m ensures l == k { assert l == k || l in rest; }
    } else {
      var o := Oldest(rest);
      forall l | l in m ensures l == k || m[o].issued <= m[l].issued { assert l == k || l in rest; }
      if m[o].issued < m[k].issued { k := o; }
    }
  }

  class GrantStore {
    const kind: Kind
    var live: Live

    ghost predicate Valid()
      reads this
    {
      |live| <= Cap(kind) && "" !in live
    }

    constructor (kind: Kind)
      ensures Valid() && this.kind == kind && live == map[]
    {
      this.kind, live := kind, map[];
    }

    /** Evict oldest grants until there is room for one more. */
    method MakeRoom()
      modifies this
      ensures OldestEvicted(old(live), live, Cap(kind)) && |live| < Cap(kind)
    {
      ghost var m := live;
      while |live| >= Cap(kind)
        invariant live.Keys <= m.Keys && forall k | k in live :: live[k] == m[k]
        invariant live == m || (|m| >= Cap(kind) && |live| >= Cap(kind) - 1)
        invariant forall k, l | k in m && k !in live && l in live :: m[k].issued <= m[l].issued
        decreases |live|
      {
        ghost var some := Oldest(live);
        var oldest :| oldest in live && forall l | l in live :: live[oldest].issued <= live[l].issued;
        live := live - {oldest};
      }
    }

    /** `token` is the freshly drawn random token. */
    method Issue(token: string, user: string, purpose: string, now: real)
      requires Valid() && token != "" && token !in live
      modifies this
      ensures Valid() && Next(old(live), Event.Issue(token, user, purpose, now), live, kind)
    {
      live := map k | k in live && InTime(live[k], now, kind) :: live[k];
      assert live == Unexpired(old(live), now, kind);
      MakeRoom();
      ghost var kept := live;
      live := live[token := Grant(now, user, purpose)];
      assert live - {token} == kept;
    }

    method ConsumeChallenge(nonce: string, now: real) returns (ok: bool)
      requires Valid() && kind == Challenge
      modifies this
      ensures Valid() && ok == Accepts(old(live), Consume(nonce, "", now), kind)
      ensures Next(old(live), Consume(nonce, "", now), live, kind)
    {
      if nonce == "" { return false; }
      if nonce in live {
        var g := live[nonce];
        live := live - {nonce};
        ok := InTime(g, now, kind);
      } else {
        ok := false;
      }
    }

    method ConsumeTicket(ticket: string, purpose: string, now: real) returns (owner: Option<string>)
      requires Valid() && kind == Ticket
      modifies this
      ensures Valid() && Next(old(live), Consume(ticket, purpose, now), live, kind)
      ensures owner == if Accepts(old(live), Consume(ticket, purpose, now), kind)
                       then Some(old(live)[ticket].user) else None
    {
      if ticket == "" { return None; }
      if ticket in live && live[ticket].purpose == purpose && InTime(live[ticket], now, kind) {
        owner := Some(live[ticket].user);
        live := live - {ticket};
      } else {
        owner := None;
      }
    }

    method ConsumeStepUp(token: string, user: string, now: real) returns (ok: bool)
      requires Valid() && kind == StepUp
      modifies this
      ensures Valid() && ok == Accepts(old(live), Consume(token, user, now), kind)
      ensures Next(old(live), Consume(token, user, now), live, kind)
    {
      if token == "" { return false; }
      var outcome := None;
      if token in live {
        if live[token].user == user && InTime(live[token], now, kind) { outcome := Some(true); }
        else if !InTime(live[token], now, kind) { outcome := Some(false); }
      }
      match outcome {
        case Some(good) =>
          live := live - {token};
          ok := good;
        case None => ok := false;
      }
    }

    method RevokeUser(user: string)
      requires Valid()
      modifies this
      ensures Valid() && Next(old(live), Event.RevokeUser(user), live, kind)
    {
      ghost var m := live;
      live := map k | k in live && live[k].user != user :: live[k];
      NoMoreEntries(live, m);
    }

    method Sweep(now: real)
      requires Valid()
      modifies this
      ensures Valid() && Next(old(live), Event.Sweep(now), live, kind)
    {
      ghost var m := live;
      live := map k | k in live && InTime(live[k], now, kind) :: live[k];
      NoMoreEntries(live, m);
    }
  }

  lemma NoMoreEntries(a: Live, b: Live)
    requires a.Keys <= b.Keys
    ensures |a| <= |b|
  {
    SubsetSize(a.Keys, b.Keys);
    assert |a.Keys| == |a| && |b.Keys| == |b|;
  }

  // ----- Runs -----

  /** `ms[i]` is the store before event `i`; issued tokens are all different. */
  ghost predicate IsRun(ms: seq<Live>, es: seq<Event>, kind: Kind) {
    && |ms| == |es| + 1 && ms[0] == map[]
    && (forall i | 0 <= i < |es| :: Next(ms[i], es[i], ms[i + 1], kind))
    && (forall i, j | 0 <= i < j < |es| && es[i].Issue? && es[j].Issue? :: es[i].token != es[j].token)
  }

  /** A stored grant is the one some earlier event issued under that token. */
  lemma {:induction false} StoredWasIssued(ms: seq<Live>, es: seq<Event>, kind: Kind, i: nat, token: string)
    returns (j: nat)
    requires IsRun(ms, es, kind) && i <= |es| && token in ms[i]
    ensures j < i && es[j].Issue? && es[j].token == token
    ensures ms[i][token] == Grant(es[j].now, es[j].user, es[j].purpose)
  {
    assert Next(ms[i - 1], es[i - 1], ms[i], kind);
    if es[i - 1].Issue? && es[i - 1].token == token {
      j := i - 1;
    } else {
      if es[i - 1].Issue? {
        var kept := ms[i] - {es[i - 1].token};
        assert token in kept && kept[token] == ms[i][token];
      }
      j := StoredWasIssued(ms, es, kind, i - 1, token);
    }
  }

  /** A stored grant is as its own event issued it. */
  lemma StoredAs(ms: seq<Live>, es: seq<Event>, kind: Kind, j: nat, i: nat)
    requires IsRun(ms, es, kind) && j < |es| && i <= |es| && es[j].Issue? && es[j].token in ms[i]
    ensures ms[i][es[j].token] == Grant(es[j].now, es[j].user, es[j].purpose)
  {
    var x := StoredWasIssued(ms, es, kind, i, es[j].token);
    assert x == j;
  }

  /** A token once issued and gone never comes back. */
  lemma {:induction false} GoneStaysGone(ms: seq<Live>, es: seq<Event>, kind: Kind, j: nat, i: nat, k: nat,
                                         token: string)
    requires IsRun(ms, es, kind) && j < i <= k <= |es|
    requires es[j].Issue? && es[j].token == token && token !in ms[i]
    ensures token !in ms[k]
    decreases k
  {
    if i < k {
      GoneStaysGone(ms, es, kind, j, i, k - 1, token);
      assert Next(ms[k - 1], es[k - 1], ms[k], kind);
      if es[k - 1].Issue? {
        assert es[k - 1].token != token;
        assert token in ms[k] <==> token in ms[k] - {es[k - 1].token};
      }
    }
  }

  /** Main result: over any run, no grant is accepted twice. */
  lemma AcceptedOnce(ms: seq<Live>, es: seq<Event>, kind: Kind, i: nat, k: nat)
    requires IsRun(ms, es, kind) && i < k < |es|
    requires Accepts(ms[i], es[i], kind) && es[k].Consume? && es[k].token == es[i].token
    ensures !Accepts(ms[k], es[k], kind)
  {
    var j := StoredWasIssued(ms, es, kind, i, es[i].token);
    assert Next(ms[i], es[i], ms[i + 1], kind);
    GoneStaysGone(ms, es, kind, j, i + 1, k, es[i].token);
  }

  /** Main result: an accepted grant was issued at most its TTL before, to the user or for the
      purpose that it was accepted for. */
  lemma AcceptedInTime(ms: seq<Live>, es: seq<Event>, kind: Kind, i: nat) returns (j: nat)
    requires IsRun(ms, es, kind) && i < |es| && Accepts(ms[i], es[i], kind)
    ensures j < i && es[j].Issue? && es[j].token == es[i].token && es[i].now - es[j].now <= Ttl(kind)
    ensures kind.Ticket? ==> es[j].purpose == es[i].who
    ensures kind.StepUp? ==> es[j].user == es[i].who
  {
    j := StoredWasIssued(ms, es, kind, i, es[i].token);
  }

  /** Main result: no store ever holds more than its cap. */
  lemma {:induction false} NeverOverCap(ms: seq<Live>, es: seq<Event>, kind: Kind, i: nat)
    requires IsRun(ms, es, kind) && i <= |es|
    ensures |ms[i]| <= Cap(kind)
  {
    if i > 0 {
      var m, e, m' := ms[i - 1], es[i - 1], ms[i];
      NeverOverCap(ms, es, kind, i - 1);
      assert Next(m, e, m', kind);
      if e.Issue? {
        var kept := m' - {e.token};
        NoMoreEntries(kept, Unexpired(m, e.now, kind));
        assert m' == kept[e.token := m'[e.token]];
      } else {
        NoMoreEntries(m', m);
      }
    }
  }

  /** Main result: a grant that is still in time leaves the store in three ways only: it is
      presented (for a ticket or step-up token: by its own user or purpose, and accepted), its
      user is revoked, or a full store evicts it while every grant it keeps is at least as new. */
  lemma LiveGrantLeaves(m: Live, e: Event, m': Live, kind: Kind, token: string, now: real)
    requires Next(m, e, m', kind) && token != "" && token in m && token !in m'
    requires InTime(m[token], now, kind) && (e.Issue? || e.Consume? || e.Sweep? ==> e.now == now)
    ensures match e
            case Consume(t, who, _) => t == token && Accepts(m, e, kind)
            case RevokeUser(user) => m[token].user == user
            case Issue(t, _, _, _) =>
              |Unexpired(m, now, kind)| >= Cap(kind)
              && forall l | l in m' && l != t :: m[token].issued <= m'[l].issued
            case Sweep(_) => false
  {
    if e.Issue? {
      var u, kept := Unexpired(m, now, kind), m' - {e.token};
      assert token in u && token !in kept;
      forall l | l in m' && l != e.token ensures m[token].issued <= m'[l].issued {
        assert l in kept && kept[l] == u[l];
      }
    }
  }

  /** Main result: after a user is revoked, no grant issued to that user before is accepted any more. */
  lemma RevokedNeverAccepted(ms: seq<Live>, es: seq<Event>, kind: Kind, j: nat, i: nat, k: nat)
    requires IsRun(ms, es, kind) && j < i < k < |es| && es[j].Issue? && es[i] == RevokeUser(es[j].user)
    requires es[k].Consume? && es[k].token == es[j].token
    ensures !Accepts(ms[k], es[k], kind)
  {
    assert Next(ms[i], es[i], ms[i + 1], kind);
    if es[j].token in ms[i] { StoredAs(ms, es, kind, j, i); }
    GoneStaysGone(ms, es, kind, j, i + 1, k, es[j].token);
  }

  // ----- Who comes in time is let in -----

  /** A wrong user or purpose never spends a live ticket or step-up token, and is never accepted. */
  lemma WrongHolderSpendsNothing(m: Live, e: Event, m': Live, kind: Kind)
    requires Next(m, e, m', kind) && e.Consume?
    requires e.token in m && !Matches(m[e.token], e.who, kind) && InTime(m[e.token], e.now, kind)
    ensures m' == m && !Accepts(m, e, kind)
  {
  }

  /** The readings of the run never go back; a revocation reads no clock. */
  predicate InClockOrder(es: seq<Event>) {
    forall i, j | 0 <= i < j < |es| && !es[i].RevokeUser? && !es[j].RevokeUser? :: es[i].now <= es[j].now
  }

  /** The other issues before `i` that are no older than issue `j`. */
  function NoOlderIssues(es: seq<Event>, j: nat, i: nat): set<nat>
    requires j < i <= |es| && es[j].Issue?
  {
    set x: nat | x < i && x != j && es[x].Issue? && es[x].now >= es[j].now
  }

  function TokensOf(es: seq<Event>, xs: set<nat>): set<string>
    requires forall x | x in xs :: x < |es| && es[x].Issue?
  {
    set x | x in xs :: es[x].token
  }

  lemma {:induction false} TokensNoMore(es: seq<Event>, xs: set<nat>)
    requires forall x | x in xs :: x < |es| && es[x].Issue?
    ensures |TokensOf(es, xs)| <= |xs|
    decreases xs
  {
    if x :| x in xs {
      TokensNoMore(es, xs - {x});
      assert TokensOf(es, xs) == TokensOf(es, xs - {x}) + {es[x].token};
    }
  }

  lemma FullAfterEviction(m: Live, e: Event, m': Live, kind: Kind, token: string)
    requires e.Issue? && Next(m, e, m', kind) && token in m && token !in m' && InTime(m[token], e.now, kind)
    ensures |m'.Keys| == Cap(kind)
  {
    var kept := m' - {e.token};
    assert token in Unexpired(m, e.now, kind) && token !in kept;
    assert m'.Keys == kept.Keys + {e.token} && |kept.Keys| == |kept| == Cap(kind) - 1;
  }

  lemma KeptWereIssued(ms: seq<Live>, es: seq<Event>, kind: Kind, j: nat, k: nat, l: string)
    requires IsRun(ms, es, kind) && j < k < |es| && es[j].Issue? && es[j].token !in ms[k + 1] && l in ms[k + 1]
    requires ms[k + 1][l].issued >= es[j].now
    ensures l in TokensOf(es, NoOlderIssues(es, j, k + 1))
  {
    var x := StoredWasIssued(ms, es, kind, k + 1, l);
    assert x in NoOlderIssues(es, j, k + 1);
  }

  /** An issue that evicts a live grant makes the store full of grants no older than it. */
  lemma EvictionTakesMany(ms: seq<Live>, es: seq<Event>, kind: Kind, j: nat, k: nat)
    requires IsRun(ms, es, kind) && InClockOrder(es) && j < k < |es| && es[j].Issue? && es[k].Issue?
    requires es[j].token != "" && es[j].token in ms[k] && es[j].token !in ms[k + 1]
    requires ms[k][es[j].token] == Grant(es[j].now, es[j].user, es[j].purpose)
    requires es[k].now - es[j].now <= Ttl(kind)
    ensures |NoOlderIssues(es, j, k + 1)| >= Cap(kind)
  {
    assert Next(ms[k], es[k], ms[k + 1], kind);
    LiveGrantLeaves(ms[k], es[k], ms[k + 1], kind, es[j].token, es[k].now);
    FullAfterEviction(ms[k], es[k], ms[k + 1], kind, es[j].token);
    var xs := NoOlderIssues(es, j, k + 1);
    forall l | l in ms[k + 1] ensures l in TokensOf(es, xs) { KeptWereIssued(ms, es, kind, j, k, l); }
    SubsetSize(ms[k + 1].Keys, TokensOf(es, xs));
    TokensNoMore(es, xs);
  }

  /** Nobody has yet used the grant up: no one it is for has presented it, its user has not been
      revoked, and fewer grants than the store holds have been issued no earlier than it. */
  ghost predicate Untouched(es: seq<Event>, kind: Kind, j: nat, i: nat)
    requires j < i <= |es| && es[j].Issue?
  {
    var g := Grant(es[j].now, es[j].user, es[j].purpose);
    && (forall k | j < k < i :: es[k].Consume? && es[k].token == es[j].token ==> !Matches(g, es[k].who, kind))
    && (forall k | j < k < i :: es[k] != RevokeUser(es[j].user))
    && |NoOlderIssues(es, j, i)| < Cap(kind)
  }

  lemma UntouchedBefore(es: seq<Event>, kind: Kind, j: nat, i: nat)
    requires j + 1 < i <= |es| && es[j].Issue? && Untouched(es, kind, j, i)
    ensures Untouched(es, kind, j, i - 1)
  {
    SubsetSize(NoOlderIssues(es, j, i - 1), NoOlderIssues(es, j, i));
  }

  lemma StillThere(ms: seq<Live>, es: seq<Event>, kind: Kind, j: nat, k: nat, now: real)
    requires IsRun(ms, es, kind) && InClockOrder(es) && j < k < |es| && es[j].Issue? && es[j].token != ""
    requires Untouched(es, kind, j, k + 1) && now - es[j].now <= Ttl(kind) && (!es[k].RevokeUser? ==> es[k].now <= now)
    requires es[j].token in ms[k] && ms[k][es[j].token] == Grant(es[j].now, es[j].user, es[j].purpose)
    ensures es[j].token in ms[k + 1]
  {
    var token, e := es[j].token, es[k];
    assert Next(ms[k], e, ms[k + 1], kind);
    if e.Consume? && e.token == token {
      WrongHolderSpendsNothing(ms[k], e, ms[k + 1], kind);
    } else if token !in ms[k + 1] {
      LiveGrantLeaves(ms[k], e, ms[k + 1], kind, token, if e.RevokeUser? then now else e.now);
      if e.Issue? { EvictionTakesMany(ms, es, kind, j, k); }
    }
  }

  lemma JustIssued(ms: seq<Live>, es: seq<Event>, kind: Kind, j: nat)
    requires IsRun(ms, es, kind) && j < |es| && es[j].Issue?
    ensures es[j].token in ms[j + 1]
  {
    assert Next(ms[j], es[j], ms[j + 1], kind);
  }

  lemma {:induction false} UntouchedStays(ms: seq<Live>, es: seq<Event>, kind: Kind, j: nat, i: nat, now: real)
    requires IsRun(ms, es, kind) && InClockOrder(es) && j < i <= |es| && es[j].Issue? && es[j].token != ""
    requires Untouched(es, kind, j, i) && now - es[j].now <= Ttl(kind)
    requires forall k | j < k < i && !es[k].RevokeUser? :: es[k].now <= now
    ensures es[j].token in ms[i] && ms[i][es[j].token] == Grant(es[j].now, es[j].user, es[j].purpose)
    decreases i
  {
    if j < i - 1 {
      UntouchedBefore(es, kind, j, i);
      UntouchedStays(ms, es, kind, j, i - 1, now);
      StillThere(ms, es, kind, j, i - 1, now);
    } else {
      JustIssued(ms, es, kind, j);
    }
    StoredAs(ms, es, kind, j, i);
  }

  /** Main result: a grant presented in time by whoever it is for is accepted, whatever others
      presented it in between, unless its user was revoked or a full store's worth of grants was
      issued no earlier than it. */
  lemma RightHolderAccepted(ms: seq<Live>, es: seq<Event>, kind: Kind, j: nat, i: nat)
    requires IsRun(ms, es, kind) && InClockOrder(es) && j < i < |es| && es[j].Issue? && es[j].token != ""
    requires Untouched(es, kind, j, i)
    requires es[i].Consume? && es[i].token == es[j].token && es[i].now - es[j].now <= Ttl(kind)
    requires Matches(Grant(es[j].now, es[j].user, es[j].purpose), es[i].who, kind)
    ensures Accepts(ms[i], es[i], kind)
  {
    UntouchedStays(ms, es, kind, j, i, es[i].now);
  }
}
