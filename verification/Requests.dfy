/** How one request's guard travels through the edge: admitted by the router, lent to the
    proxy, kept by the response body or by the tunnel of an upgrade, or dropped on the way. */
module Requests {
  import opened Wrappers
  import opened ConnLimit

  // ----- What one request meets -----

  /** A request for a route: its client's key and limit, and what decides its way. */
  datatype Request<Key> = Request(key: Key, maxInFlight: nat, loopback: bool, proxied: bool, websockets: bool,
                                  asksUpgrade: bool, contentLength: Option<nat>, maxBody: nat)

  /** What the upstream side answers at each await; `reply` is none when sending fails. */
  datatype Upstream = Upstream(resolves: bool, uriParses: bool, connects: bool, https: bool, tlsOk: bool,
                               handshakeOk: bool, reply: Option<nat>, plainStatus: nat, ownStatus: nat)

  const SWITCHING: nat := 101
  const TOO_LARGE: nat := 413
  const BAD_GATEWAY: nat := 502
  const UNAVAILABLE: nat := 503

  /** The declared length is over the route's cap. */
  predicate Oversized<Key>(q: Request<Key>) {
    q.maxBody > 0 && q.contentLength.Some? && q.contentLength.value > q.maxBody
  }

  predicate Limited<Key>(q: Request<Key>) {
    q.maxInFlight > 0 && !q.loopback
  }

  /** Where the guard of an admitted request ends up when its handler returns. */
  datatype Fate = WithBody | WithTunnel | Freed

  /** The tunnel keeps it when the upstream switches protocols for an upgrade that got that far;
      an upgrade that fails or is declined frees it; in all other cases it goes with the body. */
  function FateOf<Key>(q: Request<Key>, up: Upstream): Fate {
    if !q.proxied || Oversized(q) || !up.resolves || !up.uriParses || !q.websockets || !q.asksUpgrade then WithBody
    else if up.connects && (up.https ==> up.tlsOk) && up.handshakeOk && up.reply == Some(SWITCHING) then WithTunnel
    else Freed
  }

  function Own<Key>(guard: Option<Key>): multiset<Key> {
    if guard.Some? then multiset{guard.value} else multiset{}
  }

  class Edge<Key(==, !new)> {
    const table: ConnTable<Key>
    /** The guarded response bodies and the tunnel tasks alive, by the key of each one's guard. */
    var bodies: multiset<Key>
    var tunnels: multiset<Key>
    /** The guards that other requests' handlers hold. */
    ghost const others: multiset<Key>

    /** Every guard the table counts has exactly one owner, `own` being in the caller's hands. */
    ghost predicate Valid(own: Option<Key>)
      reads this, table
    {
      table.Valid() && table.live == others + bodies + tunnels + Own(own)
    }

    constructor (table: ConnTable<Key>)
      requires table.Valid()
      ensures Valid(None) && this.table == table && bodies == tunnels == multiset{} && others == table.live
    {
      this.table, bodies, tunnels, others := table, multiset{}, multiset{}, table.live;
    }

    /** What happens to a guard that goes out of scope. */
    method DropGuard(guard: Option<Key>)
      requires Valid(guard)
      modifies table
      ensures Valid(None) && table.live == old(table.live) - Own(guard)
    {
      if guard.Some? { table.Release(guard.value); }
    }

    /** The detached tunnel task takes the guard. */
    method SpawnTunnel(guard: Option<Key>)
      requires Valid(guard)
      modifies this`tunnels
      ensures Valid(None) && tunnels == old(tunnels) + Own(guard)
    {
      tunnels := tunnels + Own(guard);
    }

    method WsHandshake(up: Upstream, guard: Option<Key>) returns (status: nat)
      requires Valid(guard)
      modifies this`tunnels, table
      ensures Valid(None)
      ensures tunnels == old(tunnels) + if up.handshakeOk && up.reply == Some(SWITCHING) then Own(guard) else multiset{}
      ensures status == SWITCHING <==> up.handshakeOk && up.reply == Some(SWITCHING)
    {
      if !up.handshakeOk {
        DropGuard(guard);
        return BAD_GATEWAY;
      }
      match up.reply {
        case None =>
          DropGuard(guard);
          return BAD_GATEWAY;
        case Some(answer) =>
          if answer != SWITCHING {
            DropGuard(guard);
            return answer;
          }
      }
      SpawnTunnel(guard);
      status := SWITCHING;
    }

    method ProxyWebsocket(up: Upstream, guard: Option<Key>) returns (status: nat)
      requires Valid(guard)
      modifies this`tunnels, table
      ensures Valid(None)
      ensures var switched := up.connects && (up.https ==> up.tlsOk) && up.handshakeOk && up.reply == Some(SWITCHING);
              tunnels == old(tunnels) + (if switched then Own(guard) else multiset{})
              && (status == SWITCHING <==> switched)
    {
      if !up.connects {
        DropGuard(guard);
        return BAD_GATEWAY;
      }
      if up.https {
        if !up.tlsOk {
          DropGuard(guard);
          return BAD_GATEWAY;
        }
        status := WsHandshake(up, guard);
      } else {
        status := WsHandshake(up, guard);
      }
    }

    /** The proxy gives back the guard it has not used up. */
    method ProxyHandle(q: Request<Key>, up: Upstream, guard: Option<Key>) returns (status: nat, leftover: Option<Key>)
      requires Valid(guard) && q.proxied
      modifies this`tunnels, table
      ensures Valid(leftover)
      ensures leftover == if FateOf(q, up).WithBody? then guard else None
      ensures tunnels == old(tunnels) + if FateOf(q, up).WithTunnel? then Own(guard) else multiset{}
      ensures FateOf(q, up).WithTunnel? ==> status == SWITCHING
      ensures FateOf(q, up).Freed? ==> status != SWITCHING
      ensures Oversized(q) ==> status == 413
      ensures !Oversized(q) && !up.resolves ==> status == 503
      ensures !Oversized(q) && up.resolves && !up.uriParses ==> status == 502
    {
      if q.maxBody > 0 && q.contentLength.Some? {
        if q.contentLength.value > q.maxBody { return TOO_LARGE, guard; }
      }
      if !up.resolves { return UNAVAILABLE, guard; }
      var isWs := q.websockets && q.asksUpgrade;
      if !up.uriParses { return BAD_GATEWAY, guard; }
      if isWs {
        status := ProxyWebsocket(up, guard);
        leftover := None;
      } else {
        status, leftover := up.plainStatus, guard;
      }
    }

    /** A limited request takes a guard, unless its client is at the limit. */
    method Admit(q: Request<Key>) returns (admitted: bool, guard: Option<Key>)
      requires Valid(None)
      modifies table
      ensures Valid(guard) && guard == (if admitted && Limited(q) then Some(q.key) else None)
      ensures admitted <==> !Limited(q) || old(table.live[q.key]) < q.maxInFlight
    {
      admitted, guard := true, None;
      if q.maxInFlight > 0 && !q.loopback {
        admitted := table.Acquire(q.key, q.maxInFlight);
        if admitted { guard := Some(q.key); }
      }
    }

    /** The response body takes the guard. */
    method GuardBody(guard: Option<Key>)
      requires Valid(guard)
      modifies this`bodies
      ensures Valid(None) && bodies == old(bodies) + Own(guard)
    {
      bodies := bodies + Own(guard);
    }

    /** Run the handler, and thread what guard is left into the response body. */
    method Dispatch(q: Request<Key>, up: Upstream, guard: Option<Key>) returns (status: nat)
      requires Valid(guard)
      modifies this`bodies, this`tunnels, table
      ensures Valid(None)
      ensures bodies == old(bodies) + if FateOf(q, up).WithBody? then Own(guard) else multiset{}
      ensures tunnels == old(tunnels) + if FateOf(q, up).WithTunnel? then Own(guard) else multiset{}
      ensures FateOf(q, up).WithTunnel? ==> status == SWITCHING
      ensures FateOf(q, up).Freed? ==> status != SWITCHING
      ensures q.proxied && Oversized(q) ==> status == 413
      ensures q.proxied && !Oversized(q) && !up.resolves ==> status == 503
      ensures q.proxied && !Oversized(q) && up.resolves && !up.uriParses ==> status == 502
    {
      var leftover := guard;
      if q.proxied {
        status, leftover := ProxyHandle(q, up, guard);
      } else {
        status := up.ownStatus;
      }
      GuardBody(leftover);
    }

    /** Main result on one request: a limited one is turned away exactly at its limit; otherwise
        its guard ends with its body, with its tunnel, or freed, as `FateOf` says, and no other
        guard moves. A guard is in a tunnel only if the client was answered 101. */
    method Serve(q: Request<Key>, up: Upstream) returns (status: nat, admitted: bool)
      requires Valid(None)
      modifies this`bodies, this`tunnels, table
      ensures Valid(None)
      ensures admitted <==> !Limited(q) || old(table.live[q.key]) < q.maxInFlight
      ensures var guard := Own(if admitted && Limited(q) then Some(q.key) else None);
              bodies == old(bodies) + (if FateOf(q, up).WithBody? then guard else multiset{})
              && tunnels == old(tunnels) + (if FateOf(q, up).WithTunnel? then guard else multiset{})
      ensures tunnels != old(tunnels) ==> status == SWITCHING
      ensures !admitted ==> status == UNAVAILABLE
      // Only an upgrade can end without a body that holds the slot, and only with 101 has it a tunnel.
      ensures admitted && Limited(q) ==>
                if !(q.proxied && q.websockets && q.asksUpgrade) || Oversized(q) || !up.resolves || !up.uriParses
                then bodies == old(bodies) + multiset{q.key}
                else bodies == old(bodies) && tunnels == old(tunnels) + if status == 101 then multiset{q.key} else multiset{}
      // What the client is told before any upstream is asked.
      ensures admitted && q.proxied && Oversized(q) ==> status == 413
      ensures admitted && q.proxied && !Oversized(q) && !up.resolves ==> status == 503
      ensures admitted && q.proxied && !Oversized(q) && up.resolves && !up.uriParses ==> status == 502
    {
      var guard;
      admitted, guard := Admit(q);
      if !admitted { return UNAVAILABLE, false; }
      status := Dispatch(q, up, guard);
    }

    method BodyOver(k: Key)
      requires Valid(None) && k in bodies
      modifies this`bodies, table
      ensures Valid(None) && bodies == old(bodies) - multiset{k} && table.live == old(table.live) - multiset{k}
    {
      bodies := bodies - multiset{k};
      table.Release(k);
    }

    method TunnelOver(k: Key)
      requires Valid(None) && k in tunnels
      modifies this`tunnels, table
      ensures Valid(None) && tunnels == old(tunnels) - multiset{k} && table.live == old(table.live) - multiset{k}
    {
      tunnels := tunnels - multiset{k};
      table.Release(k);
    }

    /** Every slot that no handler holds belongs to a body or to a tunnel still alive. */
    lemma SlotsAreOwned(k: Key)
      requires Valid(None)
      ensures Count(table.counts, k) == others[k] + bodies[k] + tunnels[k]
    {
    }
  }

  // ----- Requests that run at the same time -----

  datatype Owner = Handler | Body | Tunnel

  datatype Guard<Key> = Guard(key: Key, owner: Owner)

  datatype State<Key> = State(counts: map<Key, nat>, guards: map<nat, Guard<Key>>)

  datatype Event<Key> =
    | Admit(g: nat, key: Key)
    | Refuse(key: Key)
    | Settle(g: nat, q: Request<Key>, up: Upstream)  // the handler returns, after what it met
    | Cancelled(g: nat)                              // the handler is dropped before that
    | Drained(g: nat)                                // the body is finished or dropped
    | TunnelEnded(g: nat)

  predicate Owned<Key>(s: State<Key>, g: nat, owner: Owner) {
    g in s.guards && s.guards[g].owner == owner
  }

  /** Steps that can happen; `max` is the key's fixed limit. */
  predicate Enabled<Key>(s: State<Key>, e: Event<Key>, max: Key -> nat) {
    match e
    case Admit(g, k) => g !in s.guards && Count(s.counts, k) < max(k)
    case Refuse(k) => Count(s.counts, k) >= max(k)
    case Settle(g, q, _) => Owned(s, g, Handler) && s.guards[g].key == q.key
    case Cancelled(g) => Owned(s, g, Handler)
    case Drained(g) => Owned(s, g, Body)
    case TunnelEnded(g) => Owned(s, g, Tunnel)
  }

  function Moved<Key>(s: State<Key>, g: nat, owner: Owner): State<Key>
    requires g in s.guards
  {
    s.(guards := s.guards[g := s.guards[g].(owner := owner)])
  }

  /** The destructor's decrement is guarded by the lookup, as in the table. */
  function Dropped<Key>(s: State<Key>, g: nat): State<Key>
    requires g in s.guards
  {
    var k := s.guards[g].key;
    State(if Count(s.counts, k) > 0 then Unbump(s.counts, k) else s.counts, s.guards - {g})
  }

  function Settled<Key>(s: State<Key>, g: nat, fate: Fate): State<Key>
    requires g in s.guards
  {
    match fate
    case WithBody => Moved(s, g, Body)
    case WithTunnel => Moved(s, g, Tunnel)
    case Freed => Dropped(s, g)
  }

  function Apply<Key>(s: State<Key>, e: Event<Key>, max: Key -> nat): State<Key>
    requires Enabled(s, e, max)
  {
    match e
    case Admit(g, k) => State(Bump(s.counts, k), s.guards[g := Guard(k, Handler)])
    case Refuse(_) => s
    case Settle(g, q, up) => Settled(s, g, FateOf(q, up))
    case Cancelled(g) => Dropped(s, g)
    case Drained(g) => Dropped(s, g)
    case TunnelEnded(g) => Dropped(s, g)
  }

  /** The run `es` is possible from the empty table. */
  ghost predicate Runs<Key(!new)>(es: seq<Event<Key>>, max: Key -> nat)
    decreases |es|, 0
  {
    es == [] || (Runs(es[..|es| - 1], max) && Enabled(After(es[..|es| - 1], max), es[|es| - 1], max))
  }

  ghost function After<Key(!new)>(es: seq<Event<Key>>, max: Key -> nat): State<Key>
    requires Runs(es, max)
    decreases |es|, 1
  {
    if es == [] then State(map[], map[])
    else Apply(After(es[..|es| - 1], max), es[|es| - 1], max)
  }

  ghost function HeldFor<Key>(s: State<Key>, k: Key): set<nat> {
    set g | g in s.guards && s.guards[g].key == k
  }

  ghost predicate Accounted<Key(!new)>(s: State<Key>, max: Key -> nat) {
    forall k :: AccountedFor(s, k, max)
  }

  ghost predicate AccountedFor<Key>(s: State<Key>, k: Key, max: Key -> nat) {
    Count(s.counts, k) == |HeldFor(s, k)| && (k in s.counts ==> s.counts[k] > 0) && Count(s.counts, k) <= max(k)
  }

  lemma ApplyAccounts<Key(!new)>(s: State<Key>, e: Event<Key>, max: Key -> nat)
    requires Accounted(s, max) && Enabled(s, e, max)
    ensures Accounted(Apply(s, e, max), max)
  {
    forall k ensures AccountedFor(Apply(s, e, max), k, max) {
      assert AccountedFor(s, k, max);
      match e {
        case Admit(g, k') => AdmitAccounts(s, g, k', k, max);
        case Refuse(_) =>
        case Settle(g, q, up) =>
          MoveAccounts(s, g, if FateOf(q, up).WithBody? then Body else Tunnel, k, max);
          DropAccounts(s, g, k, max);
        case Cancelled(g) => DropAccounts(s, g, k, max);
        case Drained(g) => DropAccounts(s, g, k, max);
        case TunnelEnded(g) => DropAccounts(s, g, k, max);
      }
    }
  }

  lemma AdmitAccounts<Key>(s: State<Key>, g: nat, k': Key, k: Key, max: Key -> nat)
    requires AccountedFor(s, k, max) && g !in s.guards && Count(s.counts, k') < max(k')
    ensures AccountedFor(State(Bump(s.counts, k'), s.guards[g := Guard(k', Handler)]), k, max)
  {
    var t := State(Bump(s.counts, k'), s.guards[g := Guard(k', Handler)]);
    assert HeldFor(t, k) == if k == k' then HeldFor(s, k) + {g} else HeldFor(s, k);
  }

  lemma MoveAccounts<Key>(s: State<Key>, g: nat, owner: Owner, k: Key, max: Key -> nat)
    requires AccountedFor(s, k, max) && g in s.guards
    ensures AccountedFor(Moved(s, g, owner), k, max)
  {
    assert HeldFor(Moved(s, g, owner), k) == HeldFor(s, k);
  }

  lemma DropAccounts<Key(!new)>(s: State<Key>, g: nat, k: Key, max: Key -> nat)
    requires Accounted(s, max) && g in s.guards
    ensures AccountedFor(Dropped(s, g), k, max) && Count(s.counts, s.guards[g].key) > 0
  {
    var k', t := s.guards[g].key, Dropped(s, g);
    assert AccountedFor(s, k', max) && g in HeldFor(s, k');
    assert AccountedFor(s, k, max);
    assert HeldFor(t, k) == if k == k' then HeldFor(s, k) - {g} else HeldFor(s, k);
  }

  /** Main result: in every run, a key's count is the number of its live guards, no zero entry
      is stored, and with fixed limits no count exceeds its limit. */
  lemma {:induction false} RunAccounts<Key(!new)>(es: seq<Event<Key>>, max: Key -> nat)
    requires Runs(es, max)
    ensures Accounted(After(es, max), max)
  {
    if es != [] {
      RunAccounts(es[..|es| - 1], max);
      ApplyAccounts(After(es[..|es| - 1], max), es[|es| - 1], max);
    } else {
      forall k ensures AccountedFor(After(es, max), k, max) {
        assert HeldFor(After(es, max), k) == {};
      }
    }
  }

  /** Whether `g`, with this fate, is still held after the events `more`. */
  ghost predicate StillHeld<Key>(g: nat, fate: Fate, more: seq<Event<Key>>) {
    match fate
    case WithBody => Drained(g) !in more
    case WithTunnel => TunnelEnded(g) !in more
    case Freed => false
  }

  ghost predicate HeldAs<Key(!new)>(s: State<Key>, g: nat, fate: Fate, held: bool) {
    (g in s.guards <==> held) && (held ==> s.guards[g].owner == if fate.WithBody? then Body else Tunnel)
  }

  lemma HeldStep<Key(!new)>(s: State<Key>, e: Event<Key>, g: nat, fate: Fate, held: bool, max: Key -> nat)
    requires Enabled(s, e, max) && !(e.Admit? && e.g == g) && HeldAs(s, g, fate, held) && (held ==> !fate.Freed?)
    ensures HeldAs(Apply(s, e, max), g, fate, held && e != if fate.WithBody? then Drained(g) else TunnelEnded(g))
  {
  }

  /** Main result: from the moment its handler returns, a request's slot is held exactly until its
      body drains, or until its tunnel ends if an upgrade was answered 101, and not at all after
      an upgrade that failed or was declined; whatever else happens meanwhile. */
  lemma {:induction false} SlotLifetime<Key(!new)>(es: seq<Event<Key>>, g: nat, q: Request<Key>, up: Upstream,
                                                  more: seq<Event<Key>>, max: Key -> nat)
    requires Runs(es + [Settle(g, q, up)] + more, max)
    requires forall e | e in more :: !(e.Admit? && e.g == g)
    ensures HeldAs(After(es + [Settle(g, q, up)] + more, max), g, FateOf(q, up), StillHeld(g, FateOf(q, up), more))
    decreases |more|
  {
    var first := es + [Settle(g, q, up)];
    var all := first + more;
    if more == [] {
      assert all == first && first[..|first| - 1] == es;
    } else {
      var before, e := more[..|more| - 1], more[|more| - 1];
      assert all[..|all| - 1] == first + before && all[|all| - 1] == e;
      assert e in more && forall x | x in before :: x in more;
      assert more == before + [e];
      SlotLifetime(es, g, q, up, before, max);
      HeldStep(After(first + before, max), e, g, FateOf(q, up), StillHeld(g, FateOf(q, up), before), max);
    }
  }
}
