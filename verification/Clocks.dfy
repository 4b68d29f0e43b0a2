/** A monotone clock in seconds, and differences of wall-clock readings. */
module Clocks {

  /** Subtraction that stops at zero. */
  function Since(now: nat, t: nat): nat {
    if now >= t then now - t else 0
  }

  /** Time moves on by any amount between two readings, and never back. */
  class Clock {
    var time: real

    method Now() returns (t: real)
      modifies this
      ensures t == time >= old(time)
    {
      var step: real :| step >= 0.0;
      time := time + step;
      t := time;
    }

    /** Let time pass until `t` at least. */
    method WaitUntil(t: real)
      modifies this
      ensures old(time) <= time && t <= time
    {
      var now := Now();
      if now < t { time := t; }
    }
  }
}
