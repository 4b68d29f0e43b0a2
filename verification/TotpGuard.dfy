/** The single-use guard for TOTP codes: the last accepted step per secret, with
    entries forgotten after 300 s. Secrets stand for their hashes. */
module TotpGuard {
  import opened Wrappers
  import opened Clocks

  const PRUNE_AFTER_SECS: nat := 300
  const STEP: nat := 30

  datatype Entry = Entry(lastStep: nat, updated: nat)

  function Kept(m: map<string, Entry>, now: nat): map<string, Entry> {
    map k | k in m && Since(now, m[k].updated) <= PRUNE_AFTER_SECS :: m[k]
  }

  predicate Accepts(m: map<string, Entry>, secret: string, step: nat, now: nat) {
    var kept := Kept(m, now);
    secret in kept ==> step > kept[secret].lastStep
  }

  function After(m: map<string, Entry>, secret: string, step: nat, now: nat): map<string, Entry> {
    if Accepts(m, secret, step, now) then Kept(m, now)[secret := Entry(step, now)] else Kept(m, now)
  }

  class Guard {
    var entries: map<string, Entry>

    constructor ()
      ensures entries == map[]
    {
      entries := map[];
    }

    method Consume(secret: string, step: nat, now: nat) returns (accepted: bool)
      modifies this
      ensures accepted == Accepts(old(entries), secret, step, now)
      ensures entries == After(old(entries), secret, step, now)
    {
      entries := map k | k in entries && Since(now, entries[k].updated) <= PRUNE_AFTER_SECS :: entries[k];
      if secret in entries {
        var e := entries[secret];
        if step <= e.lastStep { return false; }
        entries := entries[secret := e.(lastStep := step, updated := now)];
        return true;
      }
      entries := entries[secret := Entry(step, now)];
      accepted := true;
    }
  }

  // ----- Runs -----

  /** One presented code: it matched `step` at time `seen`, and is consumed at time `now`. */
  datatype Use = Use(secret: string, step: nat, seen: nat, now: nat)

  /** The longest a request may take from matching its code to consuming the step. */
  const MAX_LAG: nat := 211

  /** The matched step is within one of the step the code was checked at. */
  predicate WithinSkew(u: Use) {
    u.seen / STEP <= u.step + 1 && u.step <= u.seen / STEP + 1
  }

  predicate InClockOrder(us: seq<Use>) {
    forall i, j | 0 <= i < j < |us| :: us[i].now <= us[j].now
  }

  /** A run in clock order, of requests that take at most `lag` seconds each. */
  predicate WellTimed(us: seq<Use>, lag: nat) {
    InClockOrder(us) && forall i | 0 <= i < |us| :: WithinSkew(us[i]) && us[i].seen <= us[i].now <= us[i].seen + lag
  }

  function StateOf(us: seq<Use>): map<string, Entry> {
    if us == [] then map[]
    else
      var u := us[|us| - 1];
      After(StateOf(us[..|us| - 1]), u.secret, u.step, u.now)
  }

  predicate AcceptedAt(us: seq<Use>, i: nat)
    requires i < |us|
  {
    Accepts(StateOf(us[..i]), us[i].secret, us[i].step, us[i].now)
  }

  /** After an acceptance the guard remembers that step or a later one, or has since seen the
      clock more than 300 s past it. */
  ghost predicate Remembered(us: seq<Use>, i: nat)
    requires i < |us|
  {
    var m := StateOf(us);
    (us[i].secret in m && m[us[i].secret].lastStep >= us[i].step)
    || us[|us| - 1].now > us[i].now + PRUNE_AFTER_SECS
  }

  lemma {:induction false} AcceptedIsRemembered(us: seq<Use>, i: nat)
    requires InClockOrder(us) && i < |us| && AcceptedAt(us, i)
    ensures Remembered(us, i)
    decreases |us|
  {
    var before, u := us[..|us| - 1], us[|us| - 1];
    if i < |before| {
      assert before[..i] == us[..i];
      AcceptedIsRemembered(before, i);
      var m := StateOf(before);
      if us[i].secret in m && u.now <= us[i].now + PRUNE_AFTER_SECS {
        UpdatedAfter(before, i);
      }
    }
  }

  /** An entry at least as late as an acceptance was updated no earlier than it. */
  lemma {:induction false} UpdatedAfter(us: seq<Use>, i: nat)
    requires InClockOrder(us) && i < |us| && AcceptedAt(us, i) && us[i].secret in StateOf(us)
    ensures StateOf(us)[us[i].secret].updated >= us[i].now
    decreases |us|
  {
    var before := us[..|us| - 1];
    if i < |before| {
      assert before[..i] == us[..i];
      if us[i].secret in StateOf(before) { UpdatedAfter(before, i); }
    }
  }

  /** More than 300 s apart, matched steps have moved on: pruning loses nothing. */
  lemma StepsMoveOn(a: Use, b: Use)
    requires WithinSkew(a) && WithinSkew(b)
    requires a.seen <= a.now <= a.seen + MAX_LAG && b.seen <= b.now <= b.seen + MAX_LAG
    requires b.now > a.now + PRUNE_AFTER_SECS
    ensures b.step > a.step
  {
    assert b.seen >= a.seen + 90;
    assert b.seen / STEP >= a.seen / STEP + 3;
  }

  /** Main result: over any run, the steps accepted for one secret strictly increase, although
      entries are forgotten; so no code is accepted twice. */
  lemma AcceptedStepsIncrease(us: seq<Use>, i: nat, k: nat)
    requires WellTimed(us, MAX_LAG) && i < k < |us| && us[i].secret == us[k].secret
    requires AcceptedAt(us, i) && AcceptedAt(us, k)
    ensures us[i].step < us[k].step
  {
    var before := us[..k];
    assert before[..i] == us[..i];
    AcceptedIsRemembered(before, i);
    if us[k].now > us[i].now + PRUNE_AFTER_SECS {
      StepsMoveOn(us[i], us[k]);
    } else {
      if us[i].secret in StateOf(before) { UpdatedAfter(before, i); }
    }
  }

  /** No run of requests that take at most `lag` seconds accepts a step after the same or a later one. */
  ghost predicate NeverReplays(lag: nat) {
    forall us: seq<Use>, i: nat, k: nat
      | WellTimed(us, lag) && i < k < |us| && us[i].secret == us[k].secret && AcceptedAt(us, i) && AcceptedAt(us, k) ::
      us[i].step < us[k].step
  }

  /** A request that takes `lag` seconds, longer than the margin, replays the step accepted before. */
  lemma LongerLagReplays(lag: nat)
    requires lag > MAX_LAG
    ensures var us := [Use("s", 2, 30, 30), Use("s", 2, 119, 119 + lag)];
            WellTimed(us, lag) && us[0].step == us[1].step && AcceptedAt(us, 0) && AcceptedAt(us, 1)
  {
    var us := [Use("s", 2, 30, 30), Use("s", 2, 119, 119 + lag)];
    assert us[..0] == [] && us[..1] == [us[0]] && [us[0]][..0] == [];
  }

  /** Main result: accepted steps strictly increase in every run of requests that take at most
      `lag` seconds, exactly when `lag` is within the margin. */
  lemma NeverReplaysIff(lag: nat)
    ensures NeverReplays(lag) <==> lag <= MAX_LAG
  {
    if lag <= MAX_LAG {
      forall us: seq<Use>, i: nat, k: nat
        | WellTimed(us, lag) && i < k < |us| && us[i].secret == us[k].secret && AcceptedAt(us, i) && AcceptedAt(us, k)
        ensures us[i].step < us[k].step
      {
        AcceptedStepsIncrease(us, i, k);
      }
    } else {
      LongerLagReplays(lag);
      var us := [Use("s", 2, 30, 30), Use("s", 2, 119, 119 + lag)];
      assert us[0].secret == us[1].secret && !(us[0].step < us[1].step);
    }
  }

  // ----- What decides, in terms of the uses alone -----

  /** Use `k` comes within 300 s of an accepted use of its secret with its step or a later one. */
  ghost predicate Repeats(us: seq<Use>, k: nat)
    requires k < |us|
  {
    exists i: nat | i < k ::
      us[i].secret == us[k].secret && AcceptedAt(us, i) && us[k].now <= us[i].now + 300 && us[k].step <= us[i].step
  }

  /** The last accepted use of a secret. */
  function LastAccepted(us: seq<Use>, secret: string): Option<nat> {
    if us == [] then None
    else
      var before, u := us[..|us| - 1], us[|us| - 1];
      if u.secret == secret && Accepts(StateOf(before), secret, u.step, u.now) then Some(|us| - 1)
      else LastAccepted(before, secret)
  }

  /** What the guard remembers of a secret is its last accepted use, for 300 s at least. */
  lemma {:induction false} RemembersLast(us: seq<Use>, secret: string)
    requires InClockOrder(us)
    ensures var m, last := StateOf(us), LastAccepted(us, secret);
            (last.Some? ==> last.value < |us|)
            && (secret in m ==> last.Some? && m[secret] == Entry(us[last.value].step, us[last.value].now))
            && (last.Some? && us[|us| - 1].now <= us[last.value].now + PRUNE_AFTER_SECS ==> secret in m)
  {
    if us != [] {
      var before, u := us[..|us| - 1], us[|us| - 1];
      RemembersLast(before, secret);
      if before != [] { assert before[|before| - 1].now <= u.now; }
    }
  }

  /** The last accepted use is accepted, and is of the secret; no later one is. */
  lemma {:induction false} LastIsAccepted(us: seq<Use>, secret: string)
    ensures var last := LastAccepted(us, secret);
            (last.Some? ==> last.value < |us| && us[last.value].secret == secret && AcceptedAt(us, last.value))
            && forall i: nat | i < |us| && us[i].secret == secret && AcceptedAt(us, i) :: last.Some? && i <= last.value
  {
    if us != [] {
      var before := us[..|us| - 1];
      LastIsAccepted(before, secret);
      forall i: nat | i < |us| && us[i].secret == secret && AcceptedAt(us, i)
        ensures LastAccepted(us, secret).Some? && i <= LastAccepted(us, secret).value
      {
        if i < |before| { assert before[..i] == us[..i] && AcceptedAt(before, i); }
      }
      var last := LastAccepted(before, secret);
      if last.Some? { assert before[..last.value] == us[..last.value]; }
    }
  }

  lemma AcceptedBefore(us: seq<Use>, k: nat, i: nat)
    requires i < k <= |us|
    ensures AcceptedAt(us[..k], i) == AcceptedAt(us, i)
  {
    assert us[..k][..i] == us[..i];
  }

  /** An accepted step is newer than every step accepted for its secret in the 300 s before. */
  lemma {:induction false} NewerThanRecent(us: seq<Use>, k: nat, i: nat)
    requires InClockOrder(us) && i < k < |us| && us[i].secret == us[k].secret && AcceptedAt(us, i) && AcceptedAt(us, k)
    requires us[k].now <= us[i].now + PRUNE_AFTER_SECS
    ensures us[i].step < us[k].step
    decreases k
  {
    var before := us[..k];
    RemembersLast(before, us[k].secret);
    LastIsAccepted(before, us[k].secret);
    AcceptedBefore(us, k, i);
    var last := LastAccepted(before, us[k].secret).value;
    AcceptedBefore(us, k, last);
    assert before[|before| - 1].now <= us[k].now && us[i].now <= us[last].now <= us[k].now;
    if i < last { NewerThanRecent(us, last, i); }
  }

  /** Main result: in every run in clock order, a step is accepted exactly unless an accepted use of
      the same secret at most 300 s before had that step or a later one. */
  lemma AcceptedIff(us: seq<Use>, k: nat)
    requires InClockOrder(us) && k < |us|
    ensures AcceptedAt(us, k) <==> !Repeats(us, k)
  {
    if AcceptedAt(us, k) {
      forall i: nat | i < k && us[i].secret == us[k].secret && AcceptedAt(us, i) && us[k].now <= us[i].now + 300
        ensures us[i].step < us[k].step
      {
        NewerThanRecent(us, k, i);
      }
    } else {
      var before := us[..k];
      RemembersLast(before, us[k].secret);
      LastIsAccepted(before, us[k].secret);
      var last := LastAccepted(before, us[k].secret).value;
      AcceptedBefore(us, k, last);
      assert us[last].secret == us[k].secret && us[k].step <= us[last].step;
    }
  }
}
