/**
 Quiet hours (`quiet_membership`, `quiet_end`): a test on the time of day and the weekday, proved
 to be membership in a set of intervals, one opened on each selected weekday.

 A local instant is a number of nanoseconds since the midnight that starts some Monday.
 */
module QuietHours {
  import opened Outcomes

  const DAY: int := 86_400_000_000_000

  type Time = t: int | 0 <= t < 86_400_000_000_000

  type Weekday = d: int | 1 <= d <= 7 witness 1

  function DateOf(instant: int): int {
    instant / DAY
  }

  function TimeOf(instant: int): Time {
    instant % DAY
  }

  function WeekdayOf(date: int): Weekday {
    date % 7 + 1
  }

  datatype Rule = Rule(start: Time, end: Time, weekdays: set<Weekday>)

  // ---- the program's test ---------------------------------------------------------------------

  /** Whether the time is quiet, and the weekday on which the quiet hours started. */
  function Membership(time: Time, weekday: Weekday, start: Time, end: Time): (bool, Weekday) {
    if start < end then (start <= time < end, weekday)
    else if start > end then
      if time >= start then (true, weekday)
      else if time < end then (true, if weekday == 1 then 7 else weekday - 1)
      else (false, weekday)
    else (true, weekday)
  }

  predicate Quiet(rule: Rule, instant: int) {
    var (active, started) := Membership(TimeOf(instant), WeekdayOf(DateOf(instant)), rule.start, rule.end);
    active && started in rule.weekdays
  }

  /** The instant a deferred delivery is released. */
  function QuietEnd(rule: Rule, now: int): int {
    var nextDay := (rule.start >= rule.end && TimeOf(now) >= rule.start) || rule.start == rule.end;
    (DateOf(now) + if nextDay then 1 else 0) * DAY + rule.end
  }

  // ---- the intervals -----------------------------------------------------------------------------

  /** The quiet hours that open on a date, the end excluded. */
  function Opening(rule: Rule, date: int): (int, int) {
    (date * DAY + rule.start, (date + if rule.start < rule.end then 0 else 1) * DAY + rule.end)
  }

  predicate InOpening(rule: Rule, date: int, instant: int) {
    WeekdayOf(date) in rule.weekdays && Opening(rule, date).0 <= instant < Opening(rule, date).1
  }

  lemma {:induction false} DateAndTime(instant: int)
    ensures instant == DateOf(instant) * DAY + TimeOf(instant)
  {
  }

  lemma {:induction false} DateIs(date: int, time: int)
    requires 0 <= time < DAY
    ensures DateOf(date * DAY + time) == date && TimeOf(date * DAY + time) == time
  {
    var instant := date * DAY + time;
    DateAndTime(instant);
    assert (DateOf(instant) - date) * DAY == time - TimeOf(instant);
  }

  lemma {:induction false} DayBefore(date: int)
    ensures WeekdayOf(date - 1) == if WeekdayOf(date) == 1 then 7 else WeekdayOf(date) - 1
  {
  }

  /** Every seventh date is a Monday, the first day of the week, starting with date zero. */
  lemma {:induction false} WeekStartsOnMonday(week: int, day: Weekday)
    ensures WeekdayOf(7 * week + (day - 1)) == day
  {
    assert 7 * week + (day - 1) - (day - 1) == 7 * week;
  }

  /** The date on which the quiet hours that hold at an instant opened. */
  function OpenedOn(rule: Rule, instant: int): int {
    if rule.start > rule.end && TimeOf(instant) < rule.end then DateOf(instant) - 1 else DateOf(instant)
  }

  /** Only the opening of that date can contain the instant. */
  lemma {:induction false} OnlyOpening(rule: Rule, date: int, instant: int)
    requires rule.start != rule.end && Opening(rule, date).0 <= instant < Opening(rule, date).1
    ensures date == OpenedOn(rule, instant)
  {
    DateAndTime(instant);
    assert (DateOf(instant) - date) * DAY == instant - TimeOf(instant) - date * DAY;
  }

  lemma {:induction false} QuietInOpening(rule: Rule, instant: int)
    requires rule.start != rule.end
    ensures Quiet(rule, instant) <==> InOpening(rule, OpenedOn(rule, instant), instant)
  {
    DateAndTime(instant);
    DayBefore(DateOf(instant));
  }

  /**
   An instant is quiet exactly when it lies in the interval opened on some selected weekday, which
   need not be the weekday of the instant.
   */
  lemma {:induction false} QuietIffInSomeOpening(rule: Rule, instant: int)
    requires rule.start != rule.end
    ensures Quiet(rule, instant) <==> exists date :: InOpening(rule, date, instant)
  {
    QuietInOpening(rule, instant);
    if exists date :: InOpening(rule, date, instant) {
      var date :| InOpening(rule, date, instant);
      OnlyOpening(rule, date, instant);
    }
  }

  /**
   The release instant is the end of the quiet hours that hold now: everything from now up to it
   is quiet, and it is not.
   */
  lemma {:induction false} QuietEndIsExact(rule: Rule, now: int)
    requires rule.start != rule.end && Quiet(rule, now)
    ensures now < QuietEnd(rule, now) == Opening(rule, OpenedOn(rule, now)).1
    ensures forall instant :: now <= instant < QuietEnd(rule, now) ==> Quiet(rule, instant)
    ensures !Quiet(rule, QuietEnd(rule, now))
  {
    QuietInOpening(rule, now);
    DateAndTime(now);
    var end := QuietEnd(rule, now);
    forall instant | now <= instant < end ensures Quiet(rule, instant) {
      assert InOpening(rule, OpenedOn(rule, now), instant);
      QuietIffInSomeOpening(rule, instant);
    }
    DateIs(end / DAY, rule.end);
    EndIsNotQuiet(rule, now);
  }

  lemma {:induction false} EndIsNotQuiet(rule: Rule, now: int)
    requires rule.start != rule.end
    ensures TimeOf(QuietEnd(rule, now)) == rule.end && !Quiet(rule, QuietEnd(rule, now))
  {
    var nextDay := (rule.start >= rule.end && TimeOf(now) >= rule.start) || rule.start == rule.end;
    DateIs(DateOf(now) + if nextDay then 1 else 0, rule.end);
  }

  // ---- equal start and end --------------------------------------------------------------------------

  /** With equal start and end, the whole calendar day of a selected weekday is quiet. */
  lemma {:induction false} EqualMeansCalendarDays(rule: Rule, instant: int)
    requires rule.start == rule.end
    ensures Quiet(rule, instant) <==> WeekdayOf(DateOf(instant)) in rule.weekdays
  {
  }

  /**
   Then the release instant lies on the next day, at the common time.  Everything up to it is
   quiet exactly when that time is midnight or the next day is selected too, and the release
   instant itself is quiet exactly when the next day is selected.
   */
  lemma {:induction false} EqualEndIsLate(rule: Rule, now: int)
    requires rule.start == rule.end && Quiet(rule, now)
    ensures QuietEnd(rule, now) == (DateOf(now) + 1) * DAY + rule.end
    ensures (forall instant :: now <= instant < QuietEnd(rule, now) ==> Quiet(rule, instant)) <==>
      rule.end == 0 || WeekdayOf(DateOf(now) + 1) in rule.weekdays
    ensures Quiet(rule, QuietEnd(rule, now)) <==> WeekdayOf(DateOf(now) + 1) in rule.weekdays
  {
    var next, end := DateOf(now) + 1, QuietEnd(rule, now);
    DateAndTime(now);
    DateIs(next, 0);
    DateIs(next, rule.end);
    forall instant | now <= instant < end
      ensures DateOf(instant) == next - 1 || (DateOf(instant) == next && rule.end != 0)
    {
      DateAndTime(instant);
      if instant < next * DAY {
        DateIs(next - 1, instant - (next - 1) * DAY);
      } else {
        DateIs(next, instant - next * DAY);
      }
    }
    if rule.end != 0 {
      assert now <= next * DAY < end;
      if forall instant :: now <= instant < end ==> Quiet(rule, instant) {
        assert Quiet(rule, next * DAY + 0);
      }
    }
  }

  // ---- the decision ------------------------------------------------------------------------------------

  datatype Behavior = Suppress | Defer

  datatype QuietDecision = NotQuiet | Suppressed | DeferUntil(instant: int)

  /** Times that could not be read, and events severe enough to bypass, are never quiet. */
  function Decide(rule: Option<Rule>, bypassed: bool, behavior: Behavior, now: int): QuietDecision {
    if rule.None? || bypassed || !Quiet(rule.value, now) then NotQuiet
    else if behavior == Suppress then Suppressed else DeferUntil(QuietEnd(rule.value, now))
  }

  /**
   For different start and end, the decision is about the interval that contains now, if there is one
   that opened on a selected weekday: it suppresses, or defers to the end of that interval.
   */
  lemma {:induction false} DecisionIs(rule: Option<Rule>, bypassed: bool, behavior: Behavior, now: int)
    requires rule.Some? ==> rule.value.start != rule.value.end
    ensures Decide(rule, bypassed, behavior, now) == NotQuiet <==>
      rule.None? || bypassed || forall date :: !InOpening(rule.value, date, now)
    ensures Decide(rule, bypassed, behavior, now) == Suppressed <==>
      behavior == Suppress && !bypassed && rule.Some? && exists date :: InOpening(rule.value, date, now)
    ensures forall until :: Decide(rule, bypassed, behavior, now) == DeferUntil(until) <==>
      behavior == Defer && !bypassed && rule.Some? && exists date :: InOpening(rule.value, date, now) && until == Opening(rule.value, date).1
  {
    if rule.Some? {
      QuietIffInSomeOpening(rule.value, now);
      if Quiet(rule.value, now) {
        QuietInOpening(rule.value, now);
        QuietEndIsExact(rule.value, now);
        forall date | InOpening(rule.value, date, now) ensures date == OpenedOn(rule.value, now) {
          OnlyOpening(rule.value, date, now);
        }
      }
    }
  }

  /** For equal start and end, the decision is about the calendar day, and a deferral goes to the next day. */
  lemma {:induction false} EqualDecisionIs(rule: Rule, bypassed: bool, behavior: Behavior, now: int)
    requires rule.start == rule.end
    ensures Decide(Some(rule), bypassed, behavior, now) ==
      if bypassed || WeekdayOf(DateOf(now)) !in rule.weekdays then NotQuiet
      else if behavior == Suppress then Suppressed
      else DeferUntil((DateOf(now) + 1) * DAY + rule.end)
  {
    EqualMeansCalendarDays(rule, now);
  }

  /** A deferral always goes to the first instant from now on that is not quiet. */
  lemma {:induction false} DeferredToFirstLoudInstant(rule: Rule, bypassed: bool, now: int)
    requires rule.start != rule.end
    ensures match Decide(Some(rule), bypassed, Defer, now)
      case DeferUntil(until) =>
        !bypassed && now < until && !Quiet(rule, until) && forall instant :: now <= instant < until ==> Quiet(rule, instant)
      case NotQuiet => bypassed || !Quiet(rule, now)
      case Suppressed => false
  {
    if Quiet(rule, now) {
      QuietEndIsExact(rule, now);
    }
  }
}
