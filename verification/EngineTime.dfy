// The seconds and microseconds arithmetic of select.c.
module EngineTime {
  import opened HeapModel

  const MILLION := 1_000_000

  datatype Time = Time(sec: int, usec: int)

  function Total(t: Time): int {
    t.sec * MILLION + t.usec
  }

  // What gettimeofday returns.
  predicate Normal(t: Time) {
    t.sec >= 0 && 0 <= t.usec < MILLION
  }

  // The sum of two microsecond fields, each below a million, is never carried.
  predicate Deadline(t: Time) {
    t.sec >= 0 && 0 <= t.usec <= 2 * MILLION - 2
  }

  function ClockAt(micros: nat): (t: Time)
    ensures Normal(t) && Total(t) == micros
  {
    Time(micros / MILLION, micros % MILLION)
  }

  // select_engine_schedule_add, lines 184-193
  function Scheduled(now: Time, timeout: nat): Time {
    var sec, usec := now.sec + timeout / MILLION, now.usec + timeout % MILLION;
    var (s, u) := if usec < 0 then (sec - 1, usec + MILLION) else (sec, usec);
    if s < 0 then Time(0, 0) else Time(s, u)
  }

  // select_engine_perform, lines 240-249
  function WaitFor(now: Time, deadline: Time): Time {
    var sec, usec := deadline.sec - now.sec, deadline.usec - now.usec;
    var (s, u) := if usec < 0 then (sec - 1, usec + MILLION) else (sec, usec);
    if s < 0 then Time(0, 0) else Time(s, u)
  }

  // __event_queue_pri_comp on the two times
  predicate NotLater(a: Time, b: Time) {
    a.sec - b.sec < 0 || (a.sec - b.sec == 0 && a.usec - b.usec <= 0)
  }

  lemma NotLaterIsTotalPreorder()
    ensures TotalPreorder(NotLater)
  {
  }

  function Max(a: int, b: int): int {
    if a >= b then a else b
  }

  // An event is due exactly `timeout` after `now`, although its microsecond
  // field may exceed a million; it does not exactly when the fields need no
  // carry.
  lemma ScheduledIsExact(now: Time, timeout: nat)
    requires Normal(now)
    ensures Total(Scheduled(now, timeout)) == Total(now) + timeout
    ensures Deadline(Scheduled(now, timeout))
    ensures Normal(Scheduled(now, timeout)) <==> now.usec + timeout % MILLION < MILLION
  {
  }

  // The comparator agrees with the true order except when `a` is one second
  // ahead and its microsecond field is more than a million larger.
  lemma NotLaterIff(a: Time, b: Time)
    requires Deadline(a) && Deadline(b)
    ensures NotLater(a, b) && Total(a) > Total(b) <==> b.sec == a.sec + 1 && a.usec > b.usec + MILLION
    ensures !NotLater(a, b) && Total(a) <= Total(b) <==> a.sec == b.sec + 1 && b.usec >= a.usec + MILLION
    ensures NotLater(a, b) ==> Total(a) <= Total(b) + (MILLION - 2)
    ensures Normal(a) && Normal(b) ==> (NotLater(a, b) <==> Total(a) <= Total(b))
  {
  }

  // The bound is reached.
  lemma WorstMisorder()
    ensures Deadline(Time(10, 1_999_998)) && Deadline(Time(11, 0))
    ensures NotLater(Time(10, 1_999_998), Time(11, 0))
    ensures Total(Time(10, 1_999_998)) == Total(Time(11, 0)) + 999_998
  {
  }

  // The computed wait is the time left, or nothing if that is past, except when
  // the deadline is in the previous second and its uncarried microseconds
  // reach into this one: then the engine does not wait at all.
  lemma WaitIff(now: Time, deadline: Time)
    requires Normal(now) && Deadline(deadline)
    ensures var left := Max(0, Total(deadline) - Total(now));
            var wait := Total(WaitFor(now, deadline));
            && 0 <= wait <= left <= wait + (MILLION - 2)
            && (wait < left <==> deadline.sec == now.sec - 1 && deadline.usec > now.usec + MILLION)
            && (Normal(deadline) ==> wait == left)
  {
  }

  // When the wait is over, the clock has passed the deadline in the
  // comparator's order, so that nothing scheduled from then on comes earlier.
  lemma ExpiredComesFirst(start: Time, deadline: Time, now: Time, timeout: nat)
    requires Normal(start) && Deadline(deadline) && Normal(now)
    requires Total(now) >= Total(start) + Total(WaitFor(start, deadline))
    ensures NotLater(deadline, now)
    ensures NotLater(deadline, Scheduled(now, timeout))
    ensures Total(now) >= Total(deadline) - (MILLION - 2)
  {
  }
}
