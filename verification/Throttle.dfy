/** The download throttle of the edge: a response body paced to `rate` bytes a
    second by a byte bucket that splits chunks and sleeps for what is missing. */
module Throttle {
  import opened Wrappers
  import opened Bytes
  import opened Clocks

  /** What the wrapped body yields when polled. */
  datatype Item = Data(bytes: seq<byte>) | Trailers | Failure | NotReady

  datatype Frame = DataFrame(bytes: seq<byte>) | TrailersFrame | FailureFrame

  datatype Poll = Pending | Ready(frame: Option<Frame>)

  datatype Emission = Emission(at: real, size: nat)

  // ----- The stream a client receives, independent of time -----

  /** A chunk leaves as whole seconds of bandwidth, then the rest. */
  function Slices(chunk: seq<byte>, rate: nat): seq<Frame>
    requires rate > 0
  {
    if chunk == [] then []
    else if |chunk| <= rate then [DataFrame(chunk)]
    else [DataFrame(chunk[..rate])] + Slices(chunk[rate..], rate)
  }

  function ItemFrames(item: Item, rate: nat): seq<Frame>
    requires rate > 0
  {
    match item
    case Data(bytes) => Slices(bytes, rate)
    case Trailers => [TrailersFrame]
    case Failure => [FailureFrame]
    case NotReady => []
  }

  function FramesOf(items: seq<Item>, rate: nat): seq<Frame>
    requires rate > 0
  {
    if items == [] then [] else ItemFrames(items[0], rate) + FramesOf(items[1..], rate)
  }

  function BytesOfItems(items: seq<Item>): seq<byte> {
    if items == [] then []
    else (if items[0].Data? then items[0].bytes else []) + BytesOfItems(items[1..])
  }

  function BytesOfFrames(frames: seq<Frame>): seq<byte> {
    if frames == [] then []
    else (if frames[0].DataFrame? then frames[0].bytes else []) + BytesOfFrames(frames[1..])
  }

  lemma {:induction false} BytesAppend(a: seq<Frame>, b: seq<Frame>)
    ensures BytesOfFrames(a + b) == BytesOfFrames(a) + BytesOfFrames(b)
  {
    if a == [] {
      assert a + b == b;
    } else {
      BytesAppend(a[1..], b);
      assert (a + b)[1..] == a[1..] + b;
    }
  }

  /** Main result: slicing keeps every byte in order, in exactly ceil(n / rate) frames,
      none of them empty or longer than the rate. */
  lemma {:induction false} SlicesKeepBytes(chunk: seq<byte>, rate: nat)
    requires rate > 0
    ensures BytesOfFrames(Slices(chunk, rate)) == chunk
    ensures var k := |Slices(chunk, rate)|;
            (k - 1) * rate < |chunk| || k == 0
    ensures |chunk| <= |Slices(chunk, rate)| * rate
    ensures chunk == [] <==> Slices(chunk, rate) == []
    ensures forall f | f in Slices(chunk, rate) :: f.DataFrame? && 0 < |f.bytes| <= rate
  {
    if |chunk| > rate {
      var rest := Slices(chunk[rate..], rate);
      SlicesKeepBytes(chunk[rate..], rate);
      assert chunk[..rate] + chunk[rate..] == chunk;
      assert Slices(chunk, rate)[1..] == rest;
      Successor(|rest|, rate);
      Successor(|rest| - 1, rate);
    }
  }

  lemma Successor(k: int, d: nat)
    ensures (k + 1) * d == k * d + d
  {
  }

  lemma {:induction false} FramesKeepBytes(items: seq<Item>, rate: nat)
    requires rate > 0
    ensures BytesOfFrames(FramesOf(items, rate)) == BytesOfItems(items)
  {
    if items != [] {
      FramesKeepBytes(items[1..], rate);
      if items[0].Data? { SlicesKeepBytes(items[0].bytes, rate); }
      var head := FramesOf(items, rate)[..|FramesOf(items, rate)| - |FramesOf(items[1..], rate)|];
      assert FramesOf(items, rate) == head + FramesOf(items[1..], rate);
      BytesAppend(head, FramesOf(items[1..], rate));
    }
  }

  lemma Regroup(a: seq<Frame>, b: seq<Frame>, c: seq<Frame>)
    ensures a + (b + c) == a + b + c
  {
  }

  lemma {:induction false} FramesAppend(a: seq<Item>, b: seq<Item>, rate: nat)
    requires rate > 0
    ensures FramesOf(a + b, rate) == FramesOf(a, rate) + FramesOf(b, rate)
  {
    if a == [] {
      assert a + b == b;
    } else {
      FramesAppend(a[1..], b, rate);
      assert (a + b)[1..] == a[1..] + b;
      Regroup(ItemFrames(a[0], rate), FramesOf(a[1..], rate), FramesOf(b, rate));
    }
  }

  /** Trailers and a failure come through as they are, in their place among the data. */
  lemma OthersPassThrough(a: seq<Item>, x: Item, b: seq<Item>, rate: nat)
    requires rate > 0 && (x.Trailers? || x.Failure?)
    ensures FramesOf(a + [x] + b, rate)
         == FramesOf(a, rate) + [if x.Trailers? then TrailersFrame else FailureFrame] + FramesOf(b, rate)
  {
    FramesAppend(a + [x], b, rate);
    FramesAppend(a, [x], rate);
    assert [x][1..] == [];
  }

  lemma SplitBytes(sent: seq<Frame>, chunk: seq<byte>, rest: seq<Item>, source: seq<Item>, rate: nat)
    requires rate > 0 && sent + (Slices(chunk, rate) + FramesOf(rest, rate)) == FramesOf(source, rate)
    ensures BytesOfFrames(sent) + chunk + BytesOfItems(rest) == BytesOfItems(source)
  {
    FramesKeepBytes(source, rate);
    FramesKeepBytes(rest, rate);
    SlicesKeepBytes(chunk, rate);
    BytesAppend(sent, Slices(chunk, rate) + FramesOf(rest, rate));
    BytesAppend(Slices(chunk, rate), FramesOf(rest, rate));
  }

  // ----- Pacing: what the log of emissions keeps -----

  function Total(log: seq<Emission>): real {
    if log == [] then 0.0 else Total(log[..|log| - 1]) + log[|log| - 1].size as real
  }

  /** What `d` seconds are worth. */
  function Budget(d: real, rate: nat): real {
    d * rate as real
  }

  lemma BudgetSum(a: real, b: real, rate: nat)
    ensures Budget(a + b, rate) == Budget(a, rate) + Budget(b, rate)
    ensures b >= 0.0 ==> Budget(b, rate) >= 0.0
  {
  }

  ghost predicate PacedSince(log: seq<Emission>, i: nat, allowance: real, last: real, rate: nat)
    requires i < |log|
  {
    log[i].at <= last && Total(log[i..]) + allowance <= rate as real + Budget(last - log[i].at, rate)
  }

  /** From any emission until `last`, what was sent and what is left are paid for. */
  ghost predicate Paced(log: seq<Emission>, allowance: real, last: real, rate: nat) {
    forall i: nat | i < |log| :: PacedSince(log, i, allowance, last, rate)
  }

  ghost predicate WindowPaced(log: seq<Emission>, i: nat, j: nat, rate: nat)
    requires i < j <= |log|
  {
    && log[i].at <= log[j - 1].at
    && Total(log[i..j]) <= rate as real + Budget(log[j - 1].at - log[i].at, rate)
  }

  /** The same between any two emissions. */
  ghost predicate WindowsPaced(log: seq<Emission>, rate: nat) {
    forall i: nat, j: nat | i < j <= |log| :: WindowPaced(log, i, j, rate)
  }

  lemma PacedRefill(log: seq<Emission>, allowance: real, last: real, now: real, more: real, rate: nat)
    requires Paced(log, allowance, last, rate) && last <= now
    requires more <= allowance + Budget(now - last, rate)
    ensures Paced(log, more, now, rate)
  {
    forall i: nat | i < |log| ensures PacedSince(log, i, more, now, rate) {
      assert PacedSince(log, i, allowance, last, rate);
      BudgetSum(last - log[i].at, now - last, rate);
      assert (last - log[i].at) + (now - last) == now - log[i].at;
    }
  }

  lemma TotalSnoc(log: seq<Emission>, e: Emission)
    ensures Total(log + [e]) == Total(log) + e.size as real
  {
    assert (log + [e])[..|log|] == log;
  }

  lemma PacedEmit(log: seq<Emission>, allowance: real, last: real, n: nat, rate: nat)
    requires Paced(log, allowance, last, rate)
    requires n as real <= allowance <= rate as real
    ensures Paced(log + [Emission(last, n)], allowance - n as real, last, rate)
  {
    var e := Emission(last, n);
    var log', left := log + [e], allowance - n as real;
    forall i: nat | i < |log'| ensures PacedSince(log', i, left, last, rate) {
      assert log'[i..] == log[i..] + [e];
      TotalSnoc(log[i..], e);
      if i < |log| { assert PacedSince(log, i, allowance, last, rate); }
      BudgetSum(0.0, 0.0, rate);
    }
  }

  lemma NewWindow(log: seq<Emission>, i: nat, allowance: real, last: real, rate: nat)
    requires i < |log| && PacedSince(log, i, allowance, last, rate) && allowance >= 0.0
    requires log[|log| - 1].at == last
    ensures WindowPaced(log, i, |log|, rate)
  {
    assert log[i..|log|] == log[i..];
  }

  lemma OldWindow(log: seq<Emission>, e: Emission, i: nat, j: nat, rate: nat)
    requires i < j <= |log| && WindowPaced(log, i, j, rate)
    ensures WindowPaced(log + [e], i, j, rate)
  {
    assert (log + [e])[i..j] == log[i..j];
  }

  lemma WindowsEmit(log: seq<Emission>, allowance: real, e: Emission, rate: nat)
    requires WindowsPaced(log, rate) && Paced(log + [e], allowance, e.at, rate) && allowance >= 0.0
    ensures WindowsPaced(log + [e], rate)
  {
    var log' := log + [e];
    forall i: nat, j: nat | i < j <= |log'| ensures WindowPaced(log', i, j, rate) {
      if j == |log'| { NewWindow(log', i, allowance, e.at, rate); } else { OldWindow(log, e, i, j, rate); }
    }
  }

  /** Main result: the bytes emitted in any window [s, t] are at most rate * (1 + (t - s)). */
  lemma WindowRate(log: seq<Emission>, i: nat, j: nat, s: real, t: real, rate: nat)
    requires WindowsPaced(log, rate) && i <= j <= |log| && s <= t
    requires forall k | i <= k < j :: s <= log[k].at <= t
    ensures Total(log[i..j]) <= rate as real + Budget(t - s, rate)
  {
    BudgetSum(0.0, t - s, rate);
    if i < j {
      assert WindowPaced(log, i, j, rate);
      var inner := log[j - 1].at - log[i].at;
      BudgetSum(inner, t - s - inner, rate);
      assert inner + (t - s - inner) == t - s;
    }
  }

  // ----- The body itself -----

  /** What one slice asks of the bucket. */
  function Want(len: nat, rate: nat): (w: nat)
    requires rate > 0 && len > 0
    ensures 0 < w <= rate && w <= len
  {
    if len < rate then len else rate
  }

  /** A wait no longer than the missing tokens take to accrue, or than a millisecond. */
  predicate Short(missing: real, wait: real, rate: nat)
    requires rate > 0
  {
    wait <= missing / rate as real || wait <= 0.001
  }

  /** Only empty chunks were taken from `was`, down to `left`. */
  predicate Skipped(was: seq<Item>, left: seq<Item>) {
    was == left || (was != [] && was[0] == Data([]) && Skipped(was[1..], left))
  }

  /** The wrapped body was read down to an item that was not ready; only empty chunks came before it. */
  predicate ReadToNotReady(was: seq<Item>, left: seq<Item>) {
    was != [] && ((was[0] == NotReady && left == was[1..]) || (was[0] == Data([]) && ReadToNotReady(was[1..], left)))
  }

  lemma {:induction false} SkipOne(was: seq<Item>, left: seq<Item>)
    requires Skipped(was, left) && left != []
    ensures left[0] == Data([]) ==> Skipped(was, left[1..])
    ensures left[0] == NotReady ==> ReadToNotReady(was, left[1..])
  {
    if was != left { SkipOne(was[1..], left); }
  }

  lemma {:induction false} NotReadyIsTaken(was: seq<Item>, left: seq<Item>)
    requires ReadToNotReady(was, left)
    ensures |left| < |was|
  {
    if was[0] != NotReady { NotReadyIsTaken(was[1..], left); }
  }

  class ThrottledBody {
    const rate: nat
    var inner: seq<Item>
    var allowance: real
    var last: real
    var sleep: Option<real>
    var pending: Option<seq<byte>>
    ghost var log: seq<Emission>
    ghost var sent: seq<Frame>
    ghost const source: seq<Item>
    /** When the sleep was armed. */
    ghost var armedAt: real

    ghost predicate Valid()
      reads this
    {
      && rate > 0
      && 0.0 <= allowance <= rate as real
      && (pending.Some? ==> pending.value != [])
      && (sleep.Some? ==> pending.Some?)
      && (sleep.Some? ==>
            allowance + Budget(sleep.value - last, rate) >= Want(|pending.value|, rate) as real)
      && (sleep.Some? ==> Short(Want(|pending.value|, rate) as real - allowance, sleep.value - armedAt, rate))
      && Paced(log, allowance, last, rate)
      && WindowsPaced(log, rate)
      && sent + Remaining() == FramesOf(source, rate)
    }

    /** The frames still to come. */
    ghost function Remaining(): seq<Frame>
      reads this
      requires rate > 0
    {
      (if pending.Some? then Slices(pending.value, rate) else []) + FramesOf(inner, rate)
    }

    constructor (body: seq<Item>, bytesPerSec: nat, now: real)
      requires bytesPerSec > 0
      ensures Valid() && rate == bytesPerSec && source == body && sent == []
      ensures log == [] && last == now && allowance == bytesPerSec as real && inner == body
      ensures sleep.None? && pending.None?
    {
      rate, inner, allowance, last := bytesPerSec, body, bytesPerSec as real, now;
      sleep, pending, log := None, None, [];
      sent, source := [], body;
    }

    /** At every moment the bytes sent, the pending chunk and the unread body make up the source. */
    lemma Conserved()
      requires Valid()
      ensures BytesOfFrames(sent) + (if pending.Some? then pending.value else []) + BytesOfItems(inner)
           == BytesOfItems(source)
    {
      SplitBytes(sent, if pending.Some? then pending.value else [], inner, source, rate);
    }

    method Refill(clock: Clock)
      requires rate > 0 && 0.0 <= allowance <= rate as real && last <= clock.time
      requires Paced(log, allowance, last, rate)
      modifies clock, this`allowance, this`last
      ensures old(clock.time) <= clock.time == last
      ensures old(allowance) <= allowance <= rate as real
      ensures allowance == rate as real || allowance == old(allowance) + Budget(last - old(last), rate)
      ensures Paced(log, allowance, last, rate)
    {
      var now := clock.Now();
      var elapsed := now - last;
      BudgetSum(0.0, elapsed, rate);
      var filled := allowance + elapsed * rate as real;
      var capped := if filled < rate as real then filled else rate as real;
      PacedRefill(log, allowance, last, now, capped, rate);
      allowance := capped;
      last := now;
    }

    /** Take `n` tokens and hand out the first `n` bytes of the pending chunk. */
    method Release(n: nat) returns (f: Frame)
      requires Valid() && sleep.None? && pending.Some? && n <= |pending.value|
      requires n == |pending.value| || n == rate < |pending.value|
      requires n as real <= allowance
      modifies this`allowance, this`pending, this`log, this`sent
      ensures Valid() && f == DataFrame(old(pending.value)[..n])
      ensures old(Remaining()) == [f] + Remaining()
      ensures log == old(log) + [Emission(last, n)] && sent == old(sent) + [f]
    {
      SliceOff(pending.value, n, rate, FramesOf(inner, rate));
      SentMoves(sent, DataFrame(pending.value[..n]), FramesAfter(pending.value, n, rate) + FramesOf(inner, rate));
      PacedEmit(log, allowance, last, n, rate);
      WindowsEmit(log, allowance - n as real, Emission(last, n), rate);
      log := log + [Emission(last, n)];
      allowance := allowance - n as real;
      f := DataFrame(pending.value[..n]);
      if n == |pending.value| {
        pending := None;
      } else {
        pending := Some(pending.value[n..]);
      }
      sent := sent + [f];
    }

    /** Meter a pending chunk: a frame, or a sleep armed for what is missing. */
    method Meter(clock: Clock) returns (f: Option<Frame>)
      requires Valid() && sleep.None? && pending.Some? && last <= clock.time
      modifies clock, this`allowance, this`last, this`pending, this`log, this`sent, this`sleep, this`armedAt
      ensures Valid() && old(clock.time) <= last <= clock.time
      ensures old(allowance) >= Want(|old(pending.value)|, rate) as real ==> f.Some?
      ensures f.Some? ==> old(Remaining()) == [f.value] + Remaining() && f.value.DataFrame?
                          && log == old(log) + [Emission(last, |f.value.bytes|)] && sent == old(sent) + [f.value]
      ensures f.None? ==> Remaining() == old(Remaining()) && log == old(log) && sent == old(sent)
                          && sleep.Some? && pending == old(pending) && armedAt <= clock.time
    {
      Refill(clock);
      var avail := allowance.Floor;
      var len := |pending.value|;
      if avail >= len {
        var out := Release(len);
        return Some(out);
      }
      var want := Want(len, rate);
      if avail >= want {
        var out := Release(want);
        return Some(out);
      }
      var missing := (want as real - allowance) / rate as real;
      var wait := if missing > 0.001 then missing else 0.001;
      var armed := clock.Now();
      SleepCovers(want as real - allowance, wait, armed - last, rate);
      sleep, armedAt := Some(armed + wait), armed;
      f := None;
    }

    /** Wait out an armed sleep; once it is over, the bucket covers the next slice. */
    method Wake(clock: Clock) returns (over: bool)
      requires Valid() && last <= clock.time
      modifies clock, this`allowance, this`last, this`sleep
      ensures Valid() && old(clock.time) <= clock.time && last <= clock.time
      ensures !over ==> sleep.Some? && clock.time < sleep.value && sleep == old(sleep)
      ensures over ==> sleep.None?
      ensures over && old(sleep.Some?) ==> pending.Some? && allowance >= Want(|pending.value|, rate) as real
      ensures old(sleep.Some? && sleep.value <= clock.time) ==> over
    {
      if sleep.Some? {
        var now := clock.Now();
        if now < sleep.value { return false; }
        ghost var was, due := last, sleep.value;
        sleep := None;
        Refill(clock);
        BudgetSum(due - was, last - due, rate);
        assert (due - was) + (last - due) == last - was;
      }
      over := true;
    }

    /** Pull the next item of the inner body: a data chunk becomes pending. */
    method Pull() returns (r: Option<Poll>)
      requires Valid() && sleep.None? && pending.None?
      modifies this`inner, this`pending, this`sent
      ensures Valid()
      ensures r == Some(Ready(None)) <==> old(inner) == []
      ensures inner == if old(inner) == [] then [] else old(inner)[1..]
      ensures r == None ==> Remaining() == old(Remaining()) && sent == old(sent)
                            && old(inner)[0] == Data(if pending.Some? then pending.value else [])
      ensures r == Some(Pending) ==> old(inner)[0] == NotReady && pending.None?
                                     && Remaining() == old(Remaining()) && sent == old(sent)
      ensures r == Some(Ready(None)) ==> old(Remaining()) == [] == Remaining() && sent == old(sent)
      ensures r.Some? && r.value.Ready? && r.value.frame.Some? ==>
                !r.value.frame.value.DataFrame?
                && old(Remaining()) == [r.value.frame.value] + Remaining() && sent == old(sent) + [r.value.frame.value]
    {
      if inner == [] { return Some(Ready(None)); }
      var item := inner[0];
      inner := inner[1..];
      assert Remaining() == FramesOf(inner, rate);
      assert old(Remaining()) == FramesOf(old(inner), rate);
      match item {
        case NotReady => r := Some(Pending);
        case Failure =>
          sent := sent + [FailureFrame];
          SentMoves(old(sent), FailureFrame, Remaining());
          r := Some(Ready(Some(FailureFrame)));
        case Trailers =>
          sent := sent + [TrailersFrame];
          SentMoves(old(sent), TrailersFrame, Remaining());
          r := Some(Ready(Some(TrailersFrame)));
        case Data(bytes) =>
          if bytes != [] { pending := Some(bytes); }
          r := None;
      }
    }

    /** One turn of the poll's loop: an answer, or none yet after arming a sleep or taking a chunk. */
    method Turn(clock: Clock) returns (r: Option<Poll>)
      requires Valid() && last <= clock.time
      modifies this, clock
      ensures Valid() && old(clock.time) <= clock.time && last <= clock.time
      ensures r.None? || r.value.Pending? ==> Remaining() == old(Remaining()) && sent == old(sent)
      ensures r == Some(Ready(None)) ==> old(Remaining()) == [] == Remaining() && sent == old(sent) && inner == old(inner)
      ensures r.Some? && r.value.Ready? && r.value.frame.Some? ==>
                old(Remaining()) == [r.value.frame.value] + Remaining() && sent == old(sent) + [r.value.frame.value]
                && (inner == old(inner) || (old(inner) != [] && inner == old(inner)[1..]))
      ensures log == old(log) + (if r.Some? && r.value.Ready? && r.value.frame.Some? && r.value.frame.value.DataFrame?
                                 then [Emission(last, |r.value.frame.value.bytes|)] else [])
      ensures r.None? ==>
                (inner == old(inner) && old(sleep.None?) && pending == old(pending) && pending.Some? && sleep.Some?
                 && armedAt <= clock.time)
                || (old(inner) != [] && inner == old(inner)[1..] && old(pending.None?) && old(sleep.None?) && sleep.None?
                    && old(inner)[0] == Data(if pending.Some? then pending.value else []))
      ensures r == Some(Pending) ==>
                (inner == old(inner) && sleep.Some? && clock.time < sleep.value && sleep == old(sleep)
                 && pending == old(pending) && armedAt == old(armedAt) && sleep.value <= armedAt + 1.0)
                || (old(inner) != [] && old(inner)[0] == NotReady && inner == old(inner)[1..]
                    && sleep.None? && pending.None? && old(pending.None?))
      ensures old(sleep.Some? && sleep.value <= clock.time) ==>
                r.Some? && r.value.Ready? && r.value.frame.Some?
    {
      var over := Wake(clock);
      if !over {
        ShortIsASecond(Want(|pending.value|, rate) as real - allowance, sleep.value - armedAt, rate);
        return Some(Pending);
      }
      if pending.Some? {
        var f := Meter(clock);
        r := if f.Some? then Some(Ready(f)) else None;
      } else {
        r := Pull();
      }
    }

    method PollFrame(clock: Clock) returns (r: Poll)
      requires Valid() && last <= clock.time
      modifies this, clock
      ensures Valid() && old(clock.time) <= clock.time && last <= clock.time
      ensures r.Pending? ==> Remaining() == old(Remaining()) && sent == old(sent)
      ensures r == Ready(None) ==> old(Remaining()) == [] == Remaining() && sent == old(sent)
      ensures r.Ready? && r.frame.Some? ==>
                old(Remaining()) == [r.frame.value] + Remaining() && sent == old(sent) + [r.frame.value]
      ensures log == old(log) + (if r.Ready? && r.frame.Some? && r.frame.value.DataFrame?
                                 then [Emission(last, |r.frame.value.bytes|)] else [])
      // A poll waits only for a sleep that is armed and not over, or for the wrapped body; a sleep
      // armed by this poll lasts no longer than the missing tokens need, and never over a second.
      ensures r.Pending? ==> (sleep.Some? && clock.time < sleep.value)
                             || (sleep.None? && pending.None? && old(pending.None?) && ReadToNotReady(old(inner), inner))
      ensures r.Pending? && sleep.Some? ==>
                Short(Want(|pending.value|, rate) as real - allowance, sleep.value - armedAt, rate)
                && sleep.value <= armedAt + 1.0 && (old(sleep.None?) ==> armedAt <= clock.time)
      ensures |inner| <= |old(inner)|
      // One armed sleep is enough: once it is over, the poll delivers.
      ensures old(sleep.Some? && sleep.value <= clock.time) ==> r.Ready? && r.frame.Some?
    {
      while true
        invariant Valid() && old(clock.time) <= clock.time && last <= clock.time
        invariant Remaining() == old(Remaining()) && log == old(log) && sent == old(sent)
        invariant old(sleep.Some? && sleep.value <= clock.time) ==> sleep.Some? && sleep.value <= clock.time
        invariant |inner| <= |old(inner)|
        invariant pending.None? ==> old(pending.None?) && Skipped(old(inner), inner)
        invariant old(sleep.None?) && sleep.Some? ==> armedAt <= clock.time
        decreases |inner|, if sleep.Some? then 1 else if pending.Some? then 2 else 0
      {
        if pending.None? && inner != [] { SkipOne(old(inner), inner); }
        var turn := Turn(clock);
        if turn.Some? { return turn.value; }
      }
    }

    /** `innerEnds` is the wrapped body's own answer, which may stay false at its end. */
    method IsEndStream(innerEnds: bool) returns (end: bool)
      requires Valid() && (innerEnds ==> inner == [])
      ensures end ==> Remaining() == []
      ensures end <==> innerEnds && pending.None?
    {
      end := pending.None? && sleep.None? && innerEnds;
    }
  }

  /** The frames of what is left of a chunk once `n` bytes are gone. */
  function FramesAfter(chunk: seq<byte>, n: nat, rate: nat): seq<Frame>
    requires n <= |chunk| && rate > 0
  {
    if n == |chunk| then [] else Slices(chunk[n..], rate)
  }

  lemma SliceOff(chunk: seq<byte>, n: nat, rate: nat, rest: seq<Frame>)
    requires rate > 0 && 0 < n <= rate && (n == |chunk| || n == rate < |chunk|)
    ensures Slices(chunk, rate) + rest == [DataFrame(chunk[..n])] + (FramesAfter(chunk, n, rate) + rest)
  {
    if n == |chunk| {
      assert chunk[..n] == chunk;
    } else {
      assert Slices(chunk, rate) == [DataFrame(chunk[..n])] + FramesAfter(chunk, n, rate);
    }
  }

  lemma SentMoves(sent: seq<Frame>, f: Frame, rest: seq<Frame>)
    ensures sent + ([f] + rest) == sent + [f] + rest
  {
  }

  lemma ShortIsASecond(missing: real, wait: real, rate: nat)
    requires rate > 0 && missing <= rate as real && Short(missing, wait, rate)
    ensures wait <= 1.0
  {
    assert missing / rate as real <= rate as real / rate as real;
  }

  lemma SleepCovers(missing: real, wait: real, late: real, rate: nat)
    requires rate > 0 && wait >= missing / rate as real && late >= 0.0
    ensures Budget(late + wait, rate) >= missing
  {
    BudgetSum(wait, late, rate);
    var r := rate as real;
    assert missing / r * r == missing;
    assert wait * r >= missing / r * r;
  }

  /** One poll by whoever was woken, and the wait for the next: work is done every time. */
  method PollAndWait(body: ThrottledBody, clock: Clock) returns (over: bool)
    requires body.Valid() && body.last <= clock.time && (body.sleep.Some? ==> body.sleep.value <= clock.time)
    modifies body, clock
    ensures body.Valid() && body.last <= clock.time && (body.sleep.Some? ==> body.sleep.value <= clock.time)
    ensures over ==> body.Remaining() == []
    ensures !over ==> Work(|body.Remaining()|, |body.inner|, body.sleep.Some?)
                      < old(Work(|body.Remaining()|, |body.inner|, body.sleep.Some?))
  {
    var r := body.PollFrame(clock);
    over := r == Ready(None);
    if r.Pending? && body.sleep.None? { NotReadyIsTaken(old(body.inner), body.inner); }
    if r.Ready? && r.frame.Some? { OneFewer(old(body.Remaining()), r.frame.value, body.Remaining()); }
    if body.sleep.Some? { clock.WaitUntil(body.sleep.value); }
  }

  lemma OneFewer(all: seq<Frame>, f: Frame, rest: seq<Frame>)
    requires all == [f] + rest
    ensures |all| == |rest| + 1
  {
  }

  /** What is left to do: two polls a frame, one of them behind it if a sleep is armed, and one an item. */
  function Work(frames: nat, items: nat, asleep: bool): nat {
    2 * frames + items + if asleep then 0 else 1
  }

  /** Main result: whoever polls again when woken gets every frame of the body, in a bounded number
      of polls: at most two for each frame, one for each item of the wrapped body, and two more. */
  method PollToEnd(body: ThrottledBody, clock: Clock) returns (polls: nat)
    requires body.Valid() && body.last <= clock.time
    modifies body, clock
    ensures body.Valid() && body.sent == FramesOf(body.source, body.rate) && body.Remaining() == []
    ensures polls <= 2 * |old(body.Remaining())| + |old(body.inner)| + 2
  {
    polls := 0;
    if body.sleep.Some? { clock.WaitUntil(body.sleep.value); }
    var over := false;
    while !over
      invariant body.Valid() && body.last <= clock.time
      invariant body.sleep.Some? ==> body.sleep.value <= clock.time
      invariant over ==> body.Remaining() == []
      invariant !over ==> polls + Work(|body.Remaining()|, |body.inner|, body.sleep.Some?)
                          <= 2 * |old(body.Remaining())| + |old(body.inner)| + 1
      invariant polls <= 2 * |old(body.Remaining())| + |old(body.inner)| + if over then 2 else 1
      decreases !over, Work(|body.Remaining()|, |body.inner|, body.sleep.Some?)
    {
      over := PollAndWait(body, clock);
      polls := polls + 1;
    }
    assert body.sent + [] == body.sent;
  }
}
