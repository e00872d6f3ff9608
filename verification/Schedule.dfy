/** The calendar of scheduled news. Instants are milliseconds since the epoch, UTC; the
    hour and weekdays a person chooses are those of Brasilia, a fixed -03:00. */
module Schedule {
  import opened Wrappers

  type Instant = int

  // Milliseconds are written out, so that the arithmetic stays linear.
  function Minutes(n: int): int { n * 60_000 }

  function Days(n: int): int { n * 86_400_000 }

  /** The instant as Brasilia's clock shows it (`FUSO_MS` is three hours back). */
  function Local(t: Instant): int { t - 10_800_000 }

  /** `HH:mm`, as a pair; `None` is a text that is not a time. */
  datatype Time = Time(hour: int, minute: int)

  datatype Schedule =
    | Once(runAt: Option<Instant>)
    | Weekly(weekdays: set<int>, time: Option<Time>)

  /** The remainder of the source's language: it has the sign of the dividend. */
  function Rem(a: int, b: int): int
    requires b > 0
  {
    if a >= 0 then a % b else -((-a) % b)
  }

  /** `getUTCDay`: the epoch was a Thursday. */
  function UtcWeekday(t: Instant): int {
    (t / 86_400_000 + 4) % 7
  }

  predicate ValidTime(t: Time) {
    0 <= t.hour <= 23 && 0 <= t.minute <= 59
  }

  predicate Valid(s: Schedule) {
    match s
    case Once(runAt) => runAt.Some?
    case Weekly(weekdays, time) =>
      (exists d :: d in weekdays) && (forall d :: d in weekdays ==> 0 <= d <= 6) && time.Some? && ValidTime(time.value)
  }

  // ---- what an occurrence is -----------------------------------------------

  function OfDay(t: Time): int {
    Minutes(t.hour * 60 + t.minute)
  }

  /** The instant of a time of day on a day of Brasilia, counted from the epoch's. */
  function At(day: int, time: Time): Instant {
    Days(day) + OfDay(time) + 10_800_000
  }

  /** Day 0 was a Thursday. */
  function Weekday(day: int): int {
    (day + 4) % 7
  }

  ghost predicate OnDay(s: Schedule, day: int, t: Instant)
    requires s.Weekly? && s.time.Some?
  {
    t == At(day, s.time.value) && Weekday(day) in s.weekdays
  }

  /** The schedule falls on instant `t`: on a chosen weekday of Brasilia, at the chosen
      time of Brasilia. */
  ghost predicate Occurs(s: Schedule, t: Instant) {
    match s
    case Once(runAt) => runAt == Some(t)
    case Weekly(_, time) => time.Some? && exists day :: OnDay(s, day, t)
  }

  /** `t` is the first occurrence strictly after `after`. */
  ghost predicate IsNext(s: Schedule, after: Instant, t: Option<Instant>) {
    match t
    case Some(u) => Occurs(s, u) && u > after && forall w :: after < w < u ==> !Occurs(s, w)
    case None => forall w :: w > after ==> !Occurs(s, w)
  }

  // ---- the search ----------------------------------------------------------

  /** `inicioDoDia`: midnight of today in Brasilia, as an instant. */
  function StartOfDay(after: Instant): Instant {
    Local(after) - Rem(Local(after), 86_400_000) + 10_800_000
  }

  function Candidate(after: Instant, time: Time, d: int): Instant {
    StartOfDay(after) + Days(d) + OfDay(time)
  }

  predicate Chosen(after: Instant, weekdays: set<int>, time: Time, d: int) {
    && UtcWeekday(StartOfDay(after) + Days(d) + 10_800_000) in weekdays
    && Candidate(after, time, d) > after
  }

  function Search(after: Instant, weekdays: set<int>, time: Time, d: nat): Option<Instant>
    decreases 8 - d
  {
    if d > 7 then None
    else if Chosen(after, weekdays, time, d) then Some(Candidate(after, time, d))
    else Search(after, weekdays, time, d + 1)
  }

  /** `proximaExecucao` */
  function Next(s: Schedule, after: Instant): Option<Instant> {
    match s
    case Once(runAt) => if runAt.Some? && runAt.value > after then runAt else None
    case Weekly(weekdays, time) => if time.None? then None else Search(after, weekdays, time.value, 0)
  }

  method NextRun(s: Schedule, after: Instant) returns (r: Option<Instant>)
    ensures r == Next(s, after)
  {
    match s
    case Once(runAt) =>
      return if runAt.Some? && runAt.value > after then runAt else None;
    case Weekly(weekdays, time) =>
      if time.None? {
        return None;
      }
      var local := Local(after);
      var start := local - Rem(local, 86_400_000) + 10_800_000;
      for d := 0 to 8
        invariant Next(s, after) == Search(after, weekdays, time.value, d)
      {
        var day := start + Days(d);
        var candidate := day + Minutes(time.value.hour * 60 + time.value.minute);
        var weekday := UtcWeekday(day + 10_800_000);
        if weekday in weekdays && candidate > after {
          return Some(candidate);
        }
      }
      return None;
  }

  // ---- days ----------------------------------------------------------------

  lemma DivideDays(day: int, rest: int)
    requires 0 <= rest < 86_400_000
    ensures (Days(day) + rest) / 86_400_000 == day
  {
  }

  /** The day of Brasilia an instant falls on. */
  function DayOf(t: Instant): int {
    Local(t) / 86_400_000
  }

  lemma DayBounds(t: Instant)
    ensures Days(DayOf(t)) <= Local(t) < Days(DayOf(t) + 1)
  {
  }

  /** The start of the search is midnight of a day of Brasilia: today's, but before the
      epoch, where the remainder is negative, tomorrow's. */
  lemma StartDay(after: Instant) returns (day: int)
    ensures StartOfDay(after) == Days(day) + 10_800_000
    ensures Local(after) >= 0 ==> day == DayOf(after)
    ensures Local(after) < 0 ==> Days(day - 1) < Local(after) <= Days(day)
  {
    if Local(after) >= 0 {
      day := Local(after) / 86_400_000;
    } else {
      day := -((-Local(after)) / 86_400_000);
    }
  }

  /** The weekday is read six hours into the shifted day, which is still that day. */
  lemma WeekdayRead(after: Instant, day: int, d: int)
    requires StartOfDay(after) == Days(day) + 10_800_000
    ensures UtcWeekday(StartOfDay(after) + Days(d) + 10_800_000) == Weekday(day + d)
  {
    DivideDays(day + d, 21_600_000);
  }

  /** So the search chooses exactly the days the schedule falls on. */
  lemma ChosenDay(after: Instant, weekdays: set<int>, time: Time, day: int, d: int)
    requires StartOfDay(after) == Days(day) + 10_800_000
    ensures Candidate(after, time, d) == At(day + d, time)
    ensures Chosen(after, weekdays, time, d) <==> Weekday(day + d) in weekdays && At(day + d, time) > after
  {
    WeekdayRead(after, day, d);
  }

  // ---- the search finds the first occurrence -------------------------------

  lemma {:induction false} SearchFinds(after: Instant, weekdays: set<int>, time: Time, d: nat) returns (k: nat)
    requires d <= 8
    ensures d <= k <= 8 && forall j :: d <= j < k ==> !Chosen(after, weekdays, time, j)
    ensures if k == 8 then Search(after, weekdays, time, d).None?
            else Chosen(after, weekdays, time, k) && Search(after, weekdays, time, d) == Some(Candidate(after, time, k))
    decreases 8 - d
  {
    if d == 8 || Chosen(after, weekdays, time, d) {
      k := d;
    } else {
      k := SearchFinds(after, weekdays, time, d + 1);
    }
  }

  /** The first day from `day` on that falls on weekday `w`. */
  lemma NextWeekday(day: int, w: int) returns (k: nat)
    requires 0 <= w <= 6
    ensures k <= 6 && Weekday(day + k) == w && Weekday(day + k + 7) == w
  {
    k := (w - Weekday(day)) % 7;
  }

  /** Some day of the eight is chosen, so the search never comes back empty. */
  lemma SomeDayChosen(after: Instant, weekdays: set<int>, time: Time) returns (k: nat)
    requires Valid(Weekly(weekdays, Some(time)))
    ensures k <= 7 && Chosen(after, weekdays, time, k)
  {
    var w :| w in weekdays;
    var day := StartDay(after);
    DayBounds(after);
    k := NextWeekday(day, w);
    ChosenDay(after, weekdays, time, day, k);
    if !Chosen(after, weekdays, time, k) {
      ChosenDay(after, weekdays, time, day, k + 7);
      k := k + 7;
    }
  }

  /** The search answers with the first occurrence on the days from its start on. */
  lemma SearchIsFirst(after: Instant, weekdays: set<int>, time: Time, start: int) returns (t: Instant)
    requires Valid(Weekly(weekdays, Some(time))) && StartOfDay(after) == Days(start) + 10_800_000
    ensures Search(after, weekdays, time, 0) == Some(t)
    ensures Occurs(Weekly(weekdays, Some(time)), t) && t > after
    ensures At(start, time) <= t
    ensures forall day :: start <= day && Weekday(day) in weekdays && At(day, time) > after ==> t <= At(day, time)
  {
    var k := SearchFinds(after, weekdays, time, 0);
    var some := SomeDayChosen(after, weekdays, time);
    t := At(start + k, time);
    ChosenDay(after, weekdays, time, start, k);
    assert OnDay(Weekly(weekdays, Some(time)), start + k, t);
    forall day | start <= day && Weekday(day) in weekdays && At(day, time) > after
      ensures t <= At(day, time)
    {
      ChosenDay(after, weekdays, time, start, day - start);
      assert day - start < k ==> !Chosen(after, weekdays, time, day - start);
    }
  }

  /** Before the epoch the day is rounded towards it, and the rest of today is lost. */
  predicate SkipsToday(s: Schedule, after: Instant) {
    && Local(after) < 0
    && s.Weekly? && s.time.Some?
    && Weekday(DayOf(after)) in s.weekdays
    && Days(DayOf(after)) < Local(after)
    && At(DayOf(after), s.time.value) > after
  }

  /** `proximaExecucao` answers with the first occurrence strictly after `after`, for
      every valid schedule and every instant, exactly when it does not skip today: that
      is, always from 1970 on. */
  lemma NextIsFirst(s: Schedule, after: Instant)
    requires Valid(s)
    ensures IsNext(s, after, Next(s, after)) <==> !SkipsToday(s, after)
  {
    if s.Weekly? {
      var start := StartDay(after);
      var t := SearchIsFirst(after, s.weekdays, s.time.value, start);
      DayBounds(after);
      if SkipsToday(s, after) {
        var today := At(DayOf(after), s.time.value);
        assert OnDay(s, DayOf(after), today) && Occurs(s, today);
        assert start == DayOf(after) + 1;
        assert after < today < t;
      } else {
        forall w | after < w && Occurs(s, w)
          ensures t <= w
        {
          var day :| OnDay(s, day, w);
          if day < start {
            OnlyTodayIsBefore(s, after, start, day);
          }
        }
      }
    }
  }

  /** An occurrence after `after` on a day before the first one looked at is today's. */
  lemma OnlyTodayIsBefore(s: Schedule, after: Instant, start: int, day: int)
    requires s.Weekly? && s.time.Some? && ValidTime(s.time.value)
    requires OnDay(s, day, At(day, s.time.value)) && At(day, s.time.value) > after && day < start
    requires Local(after) >= 0 ==> start == DayOf(after)
    requires Local(after) < 0 ==> Days(start - 1) < Local(after) <= Days(start)
    ensures SkipsToday(s, after)
  {
    DayBounds(after);
    assert 0 <= OfDay(s.time.value) < 86_400_000;
    assert day == DayOf(after);
  }

  /** A valid weekly schedule falls at least once in every seven days. */
  lemma OccursWithinAWeek(s: Schedule, after: Instant) returns (t: Instant)
    requires Valid(s) && s.Weekly?
    ensures after < t <= after + Days(7) && Occurs(s, t)
  {
    var w :| w in s.weekdays;
    var today := DayOf(after);
    DayBounds(after);
    var k := NextWeekday(today, w);
    var day := if At(today + k, s.time.value) > after then today + k else today + k + 7;
    t := At(day, s.time.value);
    assert OnDay(s, day, t);
  }

  lemma NextWithinAWeek(s: Schedule, after: Instant)
    requires Valid(s) && s.Weekly? && !SkipsToday(s, after)
    ensures Next(s, after).Some? && after < Next(s, after).value <= after + Days(7)
  {
    NextIsFirst(s, after);
    var t := OccursWithinAWeek(s, after);
  }

  /** The skipping does happen: at three in the afternoon of Brasilia on the last day of
      1969, a schedule for eleven at night of that day is answered with the next week's. */
  lemma SkipsTodayHappens()
    ensures exists s, after :: Valid(s) && !IsNext(s, after, Next(s, after))
  {
    var s := Weekly({3}, Some(Time(23, 0)));
    var after := -Minutes(6 * 60);
    DivideDays(-1, Minutes(15 * 60));
    assert DayOf(after) == -1;
    assert Weekday(-1) == 3;
    NextIsFirst(s, after);
  }

  // ---- the form ------------------------------------------------------------

  datatype Form =
    | OnceForm(runAt: Option<Instant>)
    | WeeklyForm(weekdays: seq<int>, time: Option<Time>)

  datatype Problem = NoDate | PastDate | NoWeekday | NoTime

  datatype Ready = Ready(schedule: Schedule, nextRunAt: Option<Instant>)

  function Unrepeated(weekdays: seq<int>): (r: set<int>)
    ensures forall d :: d in r <==> d in weekdays
  {
    set d | d in weekdays
  }

  /** `validarAgendamento` */
  function Validate(form: Form, now: Instant): Result<Ready, Problem> {
    match form
    case OnceForm(runAt) =>
      if runAt.None? then Failure(NoDate)
      else if runAt.value <= now then Failure(PastDate)
      else Success(Ready(Once(runAt), runAt))
    case WeeklyForm(weekdays, time) =>
      if weekdays == [] || exists d :: d in weekdays && !(0 <= d <= 6) then Failure(NoWeekday)
      else if time.None? || !ValidTime(time.value) then Failure(NoTime)
      else
        var s := Weekly(Unrepeated(weekdays), time);
        Success(Ready(s, Next(s, now)))
  }

  lemma ValidatedIsValid(form: Form, now: Instant)
    requires Validate(form, now).Success?
    ensures Valid(Validate(form, now).value.schedule)
  {
    if form.WeeklyForm? {
      var weekdays := Unrepeated(form.weekdays);
      var w := form.weekdays[0];
      assert w in form.weekdays && w in weekdays;
      assert Valid(Weekly(weekdays, form.time));
    }
  }

  /** What is saved is a valid schedule with its first occurrence after now. */
  lemma ValidatedIsNext(form: Form, now: Instant)
    requires Local(now) >= 0 && Validate(form, now).Success?
    ensures var ready := Validate(form, now).value;
      Valid(ready.schedule) && ready.nextRunAt.Some? && IsNext(ready.schedule, now, ready.nextRunAt)
  {
    var ready := Validate(form, now).value;
    ValidatedIsValid(form, now);
    if ready.schedule.Weekly? {
      NextWithinAWeek(ready.schedule, now);
    }
    NextIsFirst(ready.schedule, now);
  }

  // ---- the calendar --------------------------------------------------------

  /** `PERIODO_MAXIMO_DO_CALENDARIO_MS` */
  const LONGEST_PERIOD: int := 62 * 86_400_000
  const CAP: nat := 100

  lemma DaysApart(s: Schedule, t: Instant, u: Instant)
    requires Occurs(s, t) && Occurs(s, u) && t < u
    ensures u - t >= Days(1)
  {
    if s.Weekly? {
      var day :| OnDay(s, day, t);
      var day' :| OnDay(s, day', u);
      assert u - t == Days(day' - day);
    }
  }

  /** `times` are the occurrences of the period from `next` on that come before `at`. */
  ghost predicate Listed(s: Schedule, next: Instant, from: Instant, to: Instant, at: Option<Instant>,
                         times: seq<Instant>) {
    forall t :: t in times <==> next <= t && from <= t < to && Occurs(s, t) && (at.Some? ==> t < at.value)
  }

  predicate Spaced(from: Instant, to: Instant, times: seq<Instant>) {
    && (forall i :: 0 <= i < |times| ==> from + Days(i) <= times[i] < to)
    && (forall i, j :: 0 <= i < j < |times| ==> times[i] < times[j])
  }

  lemma ListedGrows(s: Schedule, next: Instant, from: Instant, to: Instant, t: Instant, at: Option<Instant>,
                    times: seq<Instant>)
    requires Listed(s, next, from, to, Some(t), times)
    requires next <= t < to && Occurs(s, t) && IsNext(s, t, at)
    ensures Listed(s, next, from, to, at, if t >= from then times + [t] else times)
  {
    var times' := if t >= from then times + [t] else times;
    forall u
      ensures u in times' <==> next <= u && from <= u < to && Occurs(s, u) && (at.Some? ==> u < at.value)
    {
      assert u in times' <==> u in times || (t >= from && u == t);
    }
  }

  lemma SpacedGrows(s: Schedule, from: Instant, to: Instant, t: Instant, times: seq<Instant>)
    requires Spaced(from, to, times) && from <= t < to && Occurs(s, t)
    requires forall u :: u in times ==> u < t && Occurs(s, u)
    ensures Spaced(from, to, times + [t])
  {
    if times != [] {
      DaysApart(s, times[|times| - 1], t);
    }
  }

  /** The unfolding in `calendar`: every occurrence of the period from `next` on, each
      once and in order. The cap never cuts a period the calendar accepts. */
  method Unfold(s: Schedule, next: Option<Instant>, from: Instant, to: Instant) returns (times: seq<Instant>)
    requires Valid(s) && (next.Some? ==> Local(next.value) >= 0 && Occurs(s, next.value))
    requires from < to <= from + LONGEST_PERIOD
    ensures forall i, j :: 0 <= i < j < |times| ==> times[i] < times[j]
    ensures forall t :: t in times <==> next.Some? && next.value <= t && from <= t < to && Occurs(s, t)
    ensures |times| <= 62
  {
    times := [];
    var at := next;
    while at.Some? && at.value < to && |times| < CAP
      invariant at.Some? ==> next.Some? && next.value <= at.value && Occurs(s, at.value)
      invariant next.None? ==> times == []
      invariant next.Some? ==> Listed(s, next.value, from, to, at, times)
      invariant Spaced(from, to, times)
      decreases at.Some?, if at.Some? then to - at.value else 0
    {
      var t := at.value;
      ghost var before := times;
      if t >= from {
        SpacedGrows(s, from, to, t, times);
        times := times + [t];
      }
      NextIsFirst(s, t);
      at := NextRun(s, t);
      ListedGrows(s, next.value, from, to, t, at, before);
    }
    assert times != [] ==> from + Days(|times| - 1) < to;
  }
}
