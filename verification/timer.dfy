/** `Timer`: a stopwatch over a nanosecond clock. The clock reading is a
    parameter of every operation that consults it. */
module Timer {

  /** The three fields: when the current interval began, the nanoseconds
      accumulated by earlier intervals, and whether an interval is open. */
  datatype Timer = Timer(startTime: int, elapsed: int, running: bool)

  const NanosPerMilli := 1_000_000

  /** A fresh timer, as the field initialisers leave it. */
  const Initial := Timer(0, 0, false)

  /** Java's `long` division: the quotient is truncated toward zero, so the
      remainder takes the sign of the dividend. */
  function TruncDiv(a: int, d: int): (q: int)
    requires d > 0
    ensures a >= 0 ==> 0 <= a - q * d < d
    ensures a < 0 ==> -d < a - q * d <= 0
    ensures a >= 0 ==> q >= 0
    ensures a < 0 ==> q <= 0
  {
    if a >= 0 then a / d else -((-a) / d)
  }

  /** `start()`: opens an interval at `now`, unless one is open already. */
  function Start(t: Timer, now: int): (r: Timer)
    ensures r.running && r.elapsed == t.elapsed
    ensures t.running ==> r == t
    ensures !t.running ==> r.startTime == now
  {
    if t.running then t else t.(startTime := now, running := true)
  }

  /** `stop()`: closes the open interval and adds its length to the total;
      a stopped timer is left alone. */
  function Stop(t: Timer, now: int): (r: Timer)
    ensures !r.running && r.startTime == t.startTime
    ensures !t.running ==> r == t
    ensures t.running ==> r.elapsed - t.elapsed == now - t.startTime
  {
    if t.running then t.(elapsed := t.elapsed + (now - t.startTime), running := false) else t
  }

  /** `reset()`: back to the initial state, whatever the state was. */
  function Reset(t: Timer): (r: Timer)
    ensures r == Initial && !r.running && r.elapsed == 0
  {
    Timer(0, 0, false)
  }

  /** The nanoseconds measured by `now`: the closed intervals, plus the open
      one while running. */
  function Measured(t: Timer, now: int): int
  {
    if t.running then t.elapsed + (now - t.startTime) else t.elapsed
  }

  /** `getElapsedMillis()`: the measured time in whole milliseconds, the
      fraction dropped toward zero as Java's `long` division does. */
  function ElapsedMillis(t: Timer, now: int): (r: int)
    ensures Measured(t, now) >= 0 ==>
              r >= 0 && r * NanosPerMilli <= Measured(t, now) < r * NanosPerMilli + NanosPerMilli
    ensures Measured(t, now) < 0 ==>
              r <= 0 && r * NanosPerMilli - NanosPerMilli < Measured(t, now) <= r * NanosPerMilli
  {
    if t.running then TruncDiv(t.elapsed + (now - t.startTime), NanosPerMilli)
    else TruncDiv(t.elapsed, NanosPerMilli)
  }

  /** `getElapsedSeconds()`: the milliseconds divided by 1000. */
  function ElapsedSeconds(t: Timer, now: int): (r: real)
    ensures r * 1000.0 == ElapsedMillis(t, now) as real
  {
    ElapsedMillis(t, now) as real / 1000.0
  }

  /** `isRunning()`. */
  function IsRunning(t: Timer): bool
  {
    t.running
  }

  /** Reading a running timer gives what stopping it at the same moment and
      then reading it gives: the open interval is counted exactly once. */
  lemma ReadingIsStoppingThenReading(t: Timer, now: int)
    ensures ElapsedMillis(t, now) == ElapsedMillis(Stop(t, now), now)
    ensures ElapsedSeconds(t, now) == ElapsedSeconds(Stop(t, now), now)
    ensures !IsRunning(Stop(t, now))
  {
  }

  /** Starting twice is starting once, stopping twice is stopping once; a
      stopped timer reads the same whenever it is read. */
  lemma StartStopIdempotent(t: Timer, now: int, later: int)
    ensures Start(Start(t, now), later) == Start(t, now)
    ensures Stop(Stop(t, now), later) == Stop(t, now)
    ensures ElapsedMillis(Stop(t, now), later) == ElapsedMillis(Stop(t, now), now)
  {
  }

  /** Truncating division by a positive divisor is monotone. */
  lemma TruncDivMonotone(a: int, b: int, d: int)
    requires d > 0 && a <= b
    ensures TruncDiv(a, d) <= TruncDiv(b, d)
  {
    var qa, qb := TruncDiv(a, d), TruncDiv(b, d);
    if qa > qb {
      StepOfMultiples(qa, qb, d);
    }
  }

  lemma StepOfMultiples(p: int, q: int, d: int)
    requires p > q && d > 0
    ensures p * d >= q * d + d
  {
    var x := p - q;
    assert p * d == q * d + x * d;
    assert x * d == d + (x - 1) * d;
    assert (x - 1) * d >= 0;
  }

  /** The clock operations a timer sees, each with its clock reading. */
  datatype Event = StartAt(now: int) | StopAt(now: int) | ReadAt(now: int)

  /** The timer after one event; a read changes nothing. */
  function Apply(t: Timer, e: Event): Timer
  {
    match e
    case StartAt(now) => Start(t, now)
    case StopAt(now) => Stop(t, now)
    case ReadAt(_) => t
  }

  /** The timer after the events, in order. */
  function Replay(t: Timer, events: seq<Event>): Timer
    decreases |events|
  {
    if |events| == 0 then t
    else Replay(Apply(t, events[0]), events[1..])
  }

  /** Replaying one more event is applying it to the replayed timer. */
  lemma {:induction false} ReplayAppend(t: Timer, events: seq<Event>, e: Event)
    ensures Replay(t, events + [e]) == Apply(Replay(t, events), e)
    decreases |events|
  {
    if |events| > 0 {
      assert (events + [e])[1..] == events[1..] + [e];
      ReplayAppend(Apply(t, events[0]), events[1..], e);
    }
  }

  /** `isRunning()`: true after a start, false after a stop, and a reading
      does not change it, whatever happened before. */
  lemma RunningFollowsLastSwitch(t: Timer, events: seq<Event>, n: int)
    ensures IsRunning(Replay(t, events + [StartAt(n)]))
    ensures !IsRunning(Replay(t, events + [StopAt(n)]))
    ensures IsRunning(Replay(t, events + [ReadAt(n)])) == IsRunning(Replay(t, events))
    ensures IsRunning(Initial) == false
  {
    ReplayAppend(t, events, StartAt(n));
    ReplayAppend(t, events, StopAt(n));
    ReplayAppend(t, events, ReadAt(n));
  }

  /** The clock never runs backwards: readings do not decrease and none
      precedes the start of an open interval. */
  predicate ClockMonotone(t: Timer, events: seq<Event>)
  {
    && (forall i :: 0 < i < |events| ==> events[i - 1].now <= events[i].now)
    && (t.running && |events| > 0 ==> t.startTime <= events[0].now)
  }

  /** With a clock that never runs backwards, neither the accumulated time
      nor the reading ever decreases. */
  lemma {:induction false} ElapsedNeverDecreases(t: Timer, events: seq<Event>, now: int)
    requires ClockMonotone(t, events)
    requires forall i :: 0 <= i < |events| ==> events[i].now <= now
    requires t.running ==> t.startTime <= now
    ensures Replay(t, events).elapsed >= t.elapsed
    ensures ElapsedMillis(Replay(t, events), now) >= ElapsedMillis(t, if |events| > 0 then events[0].now else now)
    ensures ElapsedSeconds(Replay(t, events), now) >= ElapsedSeconds(t, if |events| > 0 then events[0].now else now)
    decreases |events|
  {
    if |events| > 0 {
      var e := events[0];
      var next := Apply(t, e);
      var rest := events[1..];
      assert ClockMonotone(next, rest) by {
        forall i | 0 < i < |rest|
          ensures rest[i - 1].now <= rest[i].now
        {
          assert rest[i - 1] == events[i] && rest[i] == events[i + 1];
        }
        if next.running && |rest| > 0 {
          assert events[1] == rest[0];
        }
      }
      assert forall i :: 0 <= i < |rest| ==> rest[i] == events[i + 1];
      assert e.now <= now;
      ElapsedNeverDecreases(next, rest, now);
      ReadAtStepDoesNotDecrease(t, e, next, if |rest| > 0 then rest[0].now else now);
    }
  }

  /** One event followed by a reading no earlier than it: the reading is not
      below what the timer showed at the event. */
  lemma ReadAtStepDoesNotDecrease(t: Timer, e: Event, next: Timer, later: int)
    requires t.running ==> t.startTime <= e.now
    requires e.now <= later
    requires next == Apply(t, e)
    ensures next.elapsed >= t.elapsed
    ensures ElapsedMillis(next, later) >= ElapsedMillis(t, e.now)
  {
    if t.running {
      var n := e.now;
      TruncDivMonotone(t.elapsed + (n - t.startTime), next.elapsed + (if next.running then later - next.startTime else 0), NanosPerMilli);
    } else if next.running {
      TruncDivMonotone(t.elapsed, next.elapsed + (later - next.startTime), NanosPerMilli);
    }
  }

  /** After a reset nothing has been measured, whatever came before. */
  lemma ResetForgetsEverything(t: Timer, now: int)
    ensures !IsRunning(Reset(t)) && ElapsedMillis(Reset(t), now) == 0
    ensures Reset(t) == Reset(Initial)
  {
  }
}
