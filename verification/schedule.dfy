/** The operating-hours gate: `dentro_do_horario_funcionamento` and the wait computed
    by `esperar_proximo_horario_funcionamento`. Wall-clock readings are instants made of
    a day number and a time of day in microseconds (the resolution of Python's
    `datetime`), so waits are exact integers. */
module Schedule {
  import opened Wrappers

  const MicrosPerSecond: int := 1_000_000
  const MicrosPerHour: int := 3_600 * MicrosPerSecond
  const MicrosPerDay: int := 24 * MicrosPerHour

  /** Microseconds since midnight. */
  type TimeOfDay = t: int | 0 <= t < MicrosPerDay

  /** `datetime.time(hour, minute)` as microseconds since midnight. */
  function ClockTime(hour: int, minute: int): (t: TimeOfDay)
    requires 0 <= hour < 24 && 0 <= minute < 60
  {
    (hour * 3600 + minute * 60) * MicrosPerSecond
  }

  /** The window opens at 08:00 and closes at 21:00. */
  const OpensAt: TimeOfDay := ClockTime(8, 0)
  const ClosesAt: TimeOfDay := ClockTime(21, 0)

  /** A wall-clock reading: a day number (any epoch) and the time of day. */
  datatype Instant = Instant(day: int, time: TimeOfDay)

  /** Microseconds since the epoch's midnight; orders instants. */
  function Stamp(i: Instant): (stamp: int) {
    i.day * MicrosPerDay + i.time
  }

  /** `dentro_do_horario_funcionamento`: 08:00 <= t <= 21:00, both ends included. */
  predicate InWindow(t: TimeOfDay) {
    OpensAt <= t <= ClosesAt
  }

  /** Both ends of the window are inside it; a microsecond beyond either end is not. */
  lemma WindowIsInclusive()
    ensures InWindow(ClockTime(8, 0)) && InWindow(ClockTime(21, 0))
    ensures !InWindow(ClockTime(8, 0) - 1) && !InWindow(ClockTime(21, 0) + 1)
  {
  }

  /** On the clock face: the window is the hours 8 through 20, plus the single instant
      21:00:00.000000. */
  lemma InWindowHours(t: TimeOfDay)
    ensures InWindow(t) <==> (8 <= t / MicrosPerHour <= 20 || t == ClosesAt)
  {
  }

  /** The start `esperar_proximo_horario_funcionamento` sleeps until: tomorrow's opening
      after 21:00, otherwise today's opening, moved to tomorrow if already past. It is
      an opening, it is not before `now`, and it is less than a day away. */
  function NextOpening(now: Instant): (next: Instant)
    ensures next.time == OpensAt
    ensures Stamp(now) <= Stamp(next) < Stamp(now) + MicrosPerDay
  {
    if now.time > ClosesAt then Instant(now.day + 1, OpensAt)
    else
      var today := Instant(now.day, OpensAt);
      if Stamp(today) < Stamp(now) then Instant(now.day + 1, OpensAt) else today
  }

  /** `tempo_espera`, in microseconds rather than fractional seconds: zero exactly when
      `now` is the opening instant itself. */
  function WaitMicros(now: Instant): (wait: nat)
    ensures wait < MicrosPerDay
    ensures wait == 0 <==> now.time == OpensAt
  {
    Stamp(NextOpening(now)) - Stamp(now)
  }

  /** No opening lies between `now` and the computed start: it is the earliest one. */
  lemma NextOpeningIsEarliest(now: Instant, other: Instant)
    requires other.time == OpensAt && Stamp(now) <= Stamp(other)
    ensures Stamp(NextOpening(now)) <= Stamp(other)
  {
  }

  /** The gate and the pause of `check_feeds_loop` as the code has them: the gate reads
      the clock once (`check`) and the pause reads it again (`agora`), computing its
      start from the second reading. `None` when the gate lets the cycle run. */
  function Pause(check: Instant, agora: Instant): (resume: Option<Instant>)
    ensures resume.None? <==> InWindow(check.time)
    ensures resume.Some? ==> resume.value.time == OpensAt
    ensures resume.Some? ==> Stamp(agora) <= Stamp(resume.value) < Stamp(agora) + MicrosPerDay
  {
    if InWindow(check.time) then None else Some(NextOpening(agora))
  }

  /** The longest a pause can last: from one microsecond after 21:00 to 08:00 the next
      morning. */
  const LongestNight: int := MicrosPerDay - (ClosesAt - OpensAt) - 1

  /** From a reading outside the window, no window instant comes before the next
      opening. */
  lemma NoWindowBeforeOpening(now: Instant, x: Instant)
    requires !InWindow(now.time)
    requires Stamp(now) <= Stamp(x) < Stamp(NextOpening(now))
    ensures !InWindow(x.time)
  {
    assert x.day == now.day || x.day == now.day + 1;
  }

  /** The gate and the pause taking their decision and their start from one reading: a
      pause starts inside the window, skips no window time on the way, and lasts at most
      the night between 21:00 and 08:00. */
  function SingleReadingPause(now: Instant): (resume: Option<Instant>)
    ensures resume.None? <==> InWindow(now.time)
    ensures resume.Some? ==> InWindow(resume.value.time)
    ensures resume.Some? ==> Stamp(now) < Stamp(resume.value) <= Stamp(now) + LongestNight
    ensures resume.Some? ==> forall x :: Stamp(now) <= Stamp(x) < Stamp(resume.value) ==> !InWindow(x.time)
    ensures resume == Pause(now, now)
  {
    if InWindow(now.time) then None
    else
      var next := NextOpening(now);
      assert forall x | Stamp(now) <= Stamp(x) < Stamp(next) :: !InWindow(x.time) by {
        forall x | Stamp(now) <= Stamp(x) < Stamp(next) ensures !InWindow(x.time) {
          NoWindowBeforeOpening(now, x);
        }
      }
      Some(next)
  }

  /** With one reading, a pause skips no window time: every instant from `now` up to the
      start is outside the window, and the start is inside it. */
  lemma PauseSkipsNoWindowTime(now: Instant, x: Instant)
    requires SingleReadingPause(now).Some?
    requires Stamp(now) <= Stamp(x) < Stamp(SingleReadingPause(now).value)
    ensures !InWindow(x.time) && InWindow(SingleReadingPause(now).value.time)
  {
    NoWindowBeforeOpening(now, x);
  }

  /** A second reading taken no later than the opening the first one is waiting for
      gives the same start as one reading would. */
  lemma ReadingsAgreeBeforeOpening(check: Instant, agora: Instant)
    requires !InWindow(check.time)
    requires Stamp(check) <= Stamp(agora) <= Stamp(NextOpening(check))
    ensures Pause(check, agora) == SingleReadingPause(check)
  {
    assert agora.day == NextOpening(check).day || agora.day + 1 == NextOpening(check).day;
  }

  /** A second reading taken after that opening, on the same day, moves the start to the
      next day's opening; when that reading is inside the window, the rest of that day's
      window is slept through. */
  lemma LateReadingSkipsWindow(check: Instant, agora: Instant)
    requires !InWindow(check.time)
    requires agora.day == NextOpening(check).day && agora.time > OpensAt
    ensures Pause(check, agora) == Some(Instant(agora.day + 1, OpensAt))
  {
  }

  /** The smallest such case: the gate reads one microsecond before 08:00, the pause one
      microsecond after. The pause then lasts a day less a microsecond, where a single
      reading would have waited one microsecond. */
  lemma SecondReadingSkipsWindow()
    ensures var check := Instant(0, OpensAt - 1);
            var agora := Instant(0, OpensAt + 1);
            && !InWindow(check.time) && InWindow(agora.time)
            && Pause(check, agora) == Some(Instant(1, OpensAt))
            && WaitMicros(agora) == MicrosPerDay - 1
            && SingleReadingPause(check) == Some(Instant(0, OpensAt))
            && WaitMicros(check) == 1
  {
  }
}
