/** A monotonic clock that moves on by itself between any two steps of a program. */
module Clocks {

  class Clock {
    var now: real

    constructor (start: real)
      ensures now == start
    {
      now := start;
    }

    /** time.perf_counter(), time.monotonic(): some time has passed. */
    method Read() returns (t: real)
      modifies this
      ensures old(now) <= now && t == now
    {
      var passed: real := *;
      if passed > 0.0 { now := now + passed; }
      t := now;
    }

    /** Something that takes this long. */
    method Pass(duration: real)
      requires duration >= 0.0
      modifies this
      ensures now == old(now) + duration
    {
      now := now + duration;
    }
  }
}
