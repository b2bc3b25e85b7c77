/**
 * A one-shot timer, as the tile blink uses it (`Timer::from_seconds(d, TimerMode::Once)`).
 * Time is an integer number of nanoseconds. Ticking adds the frame's delta to the
 * elapsed time and clamps it at the duration; the timer is finished once the
 * elapsed time has reached the duration.
 */
module OneShot {

  datatype Timer = Timer(duration: nat, elapsed: nat)

  /** A fresh timer: nothing has elapsed yet. */
  function Start(duration: nat): (t: Timer)
    ensures t.duration == duration && t.elapsed == 0
  {
    Timer(duration, 0)
  }

  predicate Finished(t: Timer)
  {
    t.elapsed >= t.duration
  }

  /** Timers handed out by Start and advanced by Tick never run past their duration. */
  predicate Clamped(t: Timer)
  {
    t.elapsed <= t.duration
  }

  function Tick(t: Timer, delta: nat): (r: Timer)
    ensures r.duration == t.duration
    ensures Clamped(t) ==> Clamped(r) && t.elapsed <= r.elapsed
    ensures Finished(r) <==> t.elapsed + delta >= t.duration
  {
    Timer(t.duration, if t.elapsed + delta < t.duration then t.elapsed + delta else t.duration)
  }

  /** Two ticks in a row have the effect of one tick by their sum. */
  lemma TickAdditive(t: Timer, a: nat, b: nat)
    requires Clamped(t)
    ensures Tick(Tick(t, a), b) == Tick(t, a + b)
  {
  }
}
