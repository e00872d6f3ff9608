/** The minute clock of scheduled news, with rounds that may overlap. A round reads the
    schedules that are due and then, one by one, swaps the `nextRunAt` it read for the
    next one; only the round whose swap succeeds may dispatch. Every read and every
    swap is one atomic step, in any interleaving of any number of rounds. */
module NewsClock {
  import opened Wrappers
  import opened Schedule

  type Id = nat

  /** `TOLERANCIA_DE_ATRASO_MS` */
  const LATE_AFTER: int := 3_600_000

  datatype Row = Row(news: Id, schedule: Schedule, nextRunAt: Option<Instant>, lastRunAt: Option<Instant>)
  type Rows = map<Id, Row>

  /** A schedule as a round read it; `publishable` is what it read of the news: it is
      published, and its church has the module. */
  datatype Due = Due(id: Id, news: Id, schedule: Schedule, marked: Instant, publishable: bool)

  datatype Round = Round(now: Instant, due: seq<Due>, fired: set<Id>)

  /** A successful swap, by a round that read its clock at `now`. */
  datatype Win = Win(round: Id, id: Id, news: Id, marked: Instant, now: Instant, dispatched: bool)

  /** Ids below `born` have been given out; they are never given again. */
  datatype World = World(rows: Rows, born: Id, rounds: map<Id, Round>, log: seq<Win>)

  // ---- the steps -----------------------------------------------------------

  predicate IsDue(rows: Rows, now: Instant, id: Id) {
    id in rows && rows[id].nextRunAt.Some? && rows[id].nextRunAt.value <= now
  }

  /** `found` is the database's answer, in some order: the schedules due at `now`. */
  ghost predicate Finds(rows: Rows, now: Instant, found: seq<Id>) {
    && (forall j, k :: 0 <= j < k < |found| ==> found[j] != found[k])
    && forall id :: id in found <==> IsDue(rows, now, id)
  }

  function DueOf(rows: Rows, now: Instant, id: Id, publishable: set<Id>): Due
    requires IsDue(rows, now, id)
  {
    Due(id, rows[id].news, rows[id].schedule, rows[id].nextRunAt.value, rows[id].news in publishable)
  }

  function Read(rows: Rows, now: Instant, found: seq<Id>, publishable: set<Id>): Round
    requires forall k :: 0 <= k < |found| ==> IsDue(rows, now, found[k])
  {
    Round(
      now,
      seq(|found|, k requires 0 <= k < |found| && IsDue(rows, now, found[k]) =>
        DueOf(rows, now, found[k], publishable)),
      {})
  }

  predicate IsLate(d: Due, now: Instant) {
    now - d.marked > LATE_AFTER
  }

  /** The swap wins: nobody changed the `nextRunAt` that was read. */
  predicate Wins(rows: Rows, d: Due) {
    d.id in rows && rows[d.id].nextRunAt == Some(d.marked)
  }

  predicate Dispatches(round: Round, d: Due) {
    !IsLate(d, round.now) && d.publishable && d.news !in round.fired
  }

  function Swapped(row: Row, d: Due, now: Instant): Row {
    row.(nextRunAt := Next(d.schedule, now), lastRunAt := if IsLate(d, now) then row.lastRunAt else Some(now))
  }

  /** One turn of the loop of `dispararVencidos`. */
  function Swap(w: World, r: Id): World
    requires r in w.rounds && w.rounds[r].due != []
  {
    var round := w.rounds[r];
    var d := round.due[0];
    if !Wins(w.rows, d) then w.(rounds := w.rounds[r := round.(due := round.due[1..])])
    else
      var fires := Dispatches(round, d);
      World(
        w.rows[d.id := Swapped(w.rows[d.id], d, round.now)],
        w.born,
        w.rounds[r := Round(round.now, round.due[1..], if fires then round.fired + {d.news} else round.fired)],
        w.log + [Win(r, d.id, d.news, d.marked, round.now, fires)])
  }

  /** A schedule that was its only once and has run stays as history. */
  predicate IsHistory(row: Row) {
    row.schedule.Once? && row.nextRunAt.None?
  }

  function WithNew(rows: Rows, born: Id, news: Id, ready: seq<Ready>): Rows {
    if ready == [] then rows
    else
      var n := |ready| - 1;
      WithNew(rows, born, news, ready[..n])[born + n := Row(news, ready[n].schedule, ready[n].nextRunAt, None)]
  }

  /** `saveSchedules`: the pending schedules of the news give way to the new ones. */
  function Save(w: World, news: Id, ready: seq<Ready>): World {
    var kept := map id | id in w.rows && !(w.rows[id].news == news && !IsHistory(w.rows[id])) :: w.rows[id];
    w.(rows := WithNew(kept, w.born, news, ready), born := w.born + |ready|)
  }

  datatype Step =
    | Reading(r: Id, now: Instant, found: seq<Id>, publishable: set<Id>)
    | Swapping(r: Id)
    | Saving(news: Id, forms: seq<Form>, now: Instant)

  /** Every form is validated before anything is written. */
  function ValidateAll(forms: seq<Form>, now: Instant): Option<seq<Ready>> {
    if forms == [] then Some([])
    else
      var before := ValidateAll(forms[..|forms| - 1], now);
      var last := Validate(forms[|forms| - 1], now);
      if before.Some? && last.Success? then Some(before.value + [last.value]) else None
  }

  /** `MAXIMO_DE_AGENDAMENTOS` */
  const MAX_SCHEDULES: nat := 20

  ghost function Apply(w: World, op: Step): World {
    match op
    case Reading(r, now, found, publishable) =>
      if r !in w.rounds && Finds(w.rows, now, found)
      then
        assert forall k :: 0 <= k < |found| ==> found[k] in found;
        w.(rounds := w.rounds[r := Read(w.rows, now, found, publishable)]) else w
    case Swapping(r) => if r in w.rounds && w.rounds[r].due != [] then Swap(w, r) else w
    case Saving(news, forms, now) =>
      var ready := ValidateAll(forms, now);
      if |forms| <= MAX_SCHEDULES && ready.Some? then Save(w, news, ready.value) else w
  }

  ghost function Run(w: World, ops: seq<Step>): World {
    if ops == [] then w else Apply(Run(w, ops[..|ops| - 1]), ops[|ops| - 1])
  }

  // ---- what every interleaving keeps ---------------------------------------

  /** `nextRunAt` only grows, or ends. */
  predicate NotBefore(at: Option<Instant>, t: Instant) {
    at.None? || at.value >= t
  }

  ghost predicate GoodRow(row: Row) {
    Valid(row.schedule) && (row.nextRunAt.Some? ==> Occurs(row.schedule, row.nextRunAt.value))
  }

  ghost predicate GoodDue(w: World, now: Instant, d: Due) {
    && d.id < w.born && Valid(d.schedule) && Occurs(d.schedule, d.marked) && d.marked <= now
    && (d.id in w.rows ==>
      && w.rows[d.id].schedule == d.schedule && w.rows[d.id].news == d.news
      && NotBefore(w.rows[d.id].nextRunAt, d.marked))
  }

  ghost predicate GoodWin(w: World, win: Win) {
    && win.id < w.born
    && (win.id in w.rows ==> NotBefore(w.rows[win.id].nextRunAt, win.marked + 1))
    && win.marked <= win.now
    && (win.dispatched ==>
      && win.now <= win.marked + LATE_AFTER
      && win.round in w.rounds && win.news in w.rounds[win.round].fired)
  }

  ghost predicate Inv(w: World) {
    && (forall id :: id in w.rows ==> id < w.born && GoodRow(w.rows[id]))
    && (forall r, k :: r in w.rounds && 0 <= k < |w.rounds[r].due| ==> GoodDue(w, w.rounds[r].now, w.rounds[r].due[k]))
    && (forall k :: 0 <= k < |w.log| ==> GoodWin(w, w.log[k]))
    && (forall j, k :: 0 <= j < k < |w.log| ==> Apart(w.log[j], w.log[k]))
  }

  /** Of one schedule a later win is of a later instant, and one round dispatches a
      news once. */
  predicate Apart(earlier: Win, later: Win) {
    && (earlier.id == later.id ==> earlier.marked < later.marked)
    && (earlier.round == later.round && earlier.dispatched && later.dispatched ==> earlier.news != later.news)
  }

  /** A row of the table after a step: the same schedule, no earlier. */
  predicate RowFollows(before: Row, after: Row) {
    && after.schedule == before.schedule && after.news == before.news
    && (before.nextRunAt.None? ==> after.nextRunAt.None?)
    && (before.nextRunAt.Some? ==> NotBefore(after.nextRunAt, before.nextRunAt.value))
  }

  ghost predicate Follow(w: World, w': World) {
    && w.born <= w'.born
    && (forall r :: r in w.rounds ==> r in w'.rounds && w.rounds[r].fired <= w'.rounds[r].fired)
    && forall id :: id in w'.rows ==> if id in w.rows then RowFollows(w.rows[id], w'.rows[id]) else id >= w.born
  }

  lemma DueFollows(w: World, w': World, now: Instant, d: Due)
    requires GoodDue(w, now, d) && Follow(w, w')
    ensures GoodDue(w', now, d)
  {
  }

  lemma WinFollows(w: World, w': World, win: Win)
    requires GoodWin(w, win) && Follow(w, w')
    ensures GoodWin(w', win)
  {
  }

  /** The next occurrence after the clock is an occurrence, and later than the marked. */
  lemma NextIsLater(s: Schedule, now: Instant)
    requires Valid(s)
    ensures Next(s, now).Some? ==> Occurs(s, Next(s, now).value) && Next(s, now).value > now
  {
    if s.Weekly? {
      var start := StartDay(now);
      var t := SearchIsFirst(now, s.weekdays, s.time.value, start);
    }
  }

  lemma SwapFollows(w: World, r: Id)
    requires Inv(w) && r in w.rounds && w.rounds[r].due != []
    ensures Follow(w, Swap(w, r))
    ensures forall id :: id in Swap(w, r).rows ==> id < w.born && GoodRow(Swap(w, r).rows[id])
  {
    var d := w.rounds[r].due[0];
    assert GoodDue(w, w.rounds[r].now, d);
    NextIsLater(d.schedule, w.rounds[r].now);
  }

  lemma SwapKeeps(w: World, r: Id)
    requires Inv(w) && r in w.rounds && w.rounds[r].due != []
    ensures Inv(Swap(w, r))
  {
    var w' := Swap(w, r);
    var round := w.rounds[r];
    var d := round.due[0];
    SwapFollows(w, r);
    assert GoodDue(w, round.now, d);
    forall q, k | q in w'.rounds && 0 <= k < |w'.rounds[q].due|
      ensures GoodDue(w', w'.rounds[q].now, w'.rounds[q].due[k])
    {
      var k0 := if q == r then k + 1 else k;
      assert w'.rounds[q].due[k] == w.rounds[q].due[k0];
      DueFollows(w, w', w.rounds[q].now, w.rounds[q].due[k0]);
    }
    forall k | 0 <= k < |w'.log|
      ensures GoodWin(w', w'.log[k])
    {
      if k < |w.log| {
        WinFollows(w, w', w.log[k]);
      } else {
        NextIsLater(d.schedule, round.now);
      }
    }
    forall j, k | 0 <= j < k < |w'.log|
      ensures Apart(w'.log[j], w'.log[k])
    {
      assert w'.log[j] == w.log[j] && GoodWin(w, w.log[j]);
      assert k < |w.log| ==> Apart(w.log[j], w.log[k]);
    }
  }

  lemma ReadKeeps(w: World, r: Id, now: Instant, found: seq<Id>, publishable: set<Id>)
    requires Inv(w) && r !in w.rounds && forall k :: 0 <= k < |found| ==> IsDue(w.rows, now, found[k])
    ensures Inv(w.(rounds := w.rounds[r := Read(w.rows, now, found, publishable)]))
  {
    var round := Read(w.rows, now, found, publishable);
    var w' := w.(rounds := w.rounds[r := round]);
    forall q, k | q in w'.rounds && 0 <= k < |w'.rounds[q].due|
      ensures GoodDue(w', w'.rounds[q].now, w'.rounds[q].due[k])
    {
      if q == r {
        assert IsDue(w.rows, now, found[k]);
      } else {
        DueFollows(w, w', w.rounds[q].now, w.rounds[q].due[k]);
      }
    }
    forall k | 0 <= k < |w'.log|
      ensures GoodWin(w', w'.log[k])
    {
      WinFollows(w, w', w.log[k]);
    }
  }

  lemma {:induction false} ValidatedAll(forms: seq<Form>, now: Instant)
    requires ValidateAll(forms, now).Some?
    ensures forall k :: 0 <= k < |ValidateAll(forms, now).value| ==>
      var ready := ValidateAll(forms, now).value[k];
      Valid(ready.schedule) && (ready.nextRunAt.Some? ==> Occurs(ready.schedule, ready.nextRunAt.value))
  {
    if forms == [] {
    } else {
      var n := |forms| - 1;
      ValidatedAll(forms[..n], now);
      ValidatedIsValid(forms[n], now);
      NextIsLater(Validate(forms[n], now).value.schedule, now);
    }
  }

  lemma {:induction false} WithNewAdds(rows: Rows, born: Id, news: Id, ready: seq<Ready>, id: Id)
    ensures id in WithNew(rows, born, news, ready) <==> id in rows || born <= id < born + |ready|
    ensures born <= id < born + |ready| ==>
      WithNew(rows, born, news, ready)[id] == Row(news, ready[id - born].schedule, ready[id - born].nextRunAt, None)
    ensures id in rows && !(born <= id < born + |ready|) ==> WithNew(rows, born, news, ready)[id] == rows[id]
  {
    if ready == [] {
    } else {
      WithNewAdds(rows, born, news, ready[..|ready| - 1], id);
    }
  }

  lemma SaveKeeps(w: World, news: Id, ready: seq<Ready>)
    requires Inv(w)
    requires forall k :: 0 <= k < |ready| ==>
      Valid(ready[k].schedule) && (ready[k].nextRunAt.Some? ==> Occurs(ready[k].schedule, ready[k].nextRunAt.value))
    ensures Inv(Save(w, news, ready)) && Follow(w, Save(w, news, ready))
  {
    var w' := Save(w, news, ready);
    var kept := map id | id in w.rows && !(w.rows[id].news == news && !IsHistory(w.rows[id])) :: w.rows[id];
    forall id | id in w'.rows
      ensures id < w'.born && GoodRow(w'.rows[id])
      ensures if id in w.rows then RowFollows(w.rows[id], w'.rows[id]) else id >= w.born
    {
      WithNewAdds(kept, w.born, news, ready, id);
    }
    assert Follow(w, w');
    forall q, k | q in w'.rounds && 0 <= k < |w'.rounds[q].due|
      ensures GoodDue(w', w'.rounds[q].now, w'.rounds[q].due[k])
    {
      DueFollows(w, w', w.rounds[q].now, w.rounds[q].due[k]);
    }
    forall k | 0 <= k < |w'.log|
      ensures GoodWin(w', w'.log[k])
    {
      WinFollows(w, w', w.log[k]);
    }
  }

  lemma StepKeeps(w: World, op: Step)
    requires Inv(w)
    ensures Inv(Apply(w, op)) && Follow(w, Apply(w, op)) && w.log <= Apply(w, op).log
  {
    match op
    case Reading(r, now, found, publishable) =>
      if r !in w.rounds && Finds(w.rows, now, found) {
        assert forall k :: 0 <= k < |found| ==> found[k] in found;
        ReadKeeps(w, r, now, found, publishable);
      }
    case Swapping(r) =>
      if r in w.rounds && w.rounds[r].due != [] {
        SwapKeeps(w, r);
        SwapFollows(w, r);
      }
    case Saving(news, forms, now) =>
      if |forms| <= MAX_SCHEDULES && ValidateAll(forms, now).Some? {
        ValidatedAll(forms, now);
        SaveKeeps(w, news, ValidateAll(forms, now).value);
      }
  }

  // ---- every run -----------------------------------------------------------

  lemma {:induction false} RunKeeps(w: World, ops: seq<Step>)
    requires Inv(w)
    ensures Inv(Run(w, ops)) && Follow(w, Run(w, ops))
  {
    if ops == [] {
    } else {
      var n := |ops| - 1;
      RunKeeps(w, ops[..n]);
      StepKeeps(Run(w, ops[..n]), ops[n]);
      FollowChain(w, Run(w, ops[..n]), Run(w, ops));
    }
  }

  /** A deleted schedule never comes back, so following is transitive. */
  lemma FollowChain(w: World, w': World, w'': World)
    requires Follow(w, w') && Follow(w', w'') && forall id :: id in w.rows ==> id < w.born
    ensures Follow(w, w'')
  {
    forall id | id in w''.rows
      ensures if id in w.rows then RowFollows(w.rows[id], w''.rows[id]) else id >= w.born
    {
      if id in w'.rows {
        assert if id in w.rows then RowFollows(w.rows[id], w'.rows[id]) else id >= w.born;
      }
    }
  }

  /** Under any interleaving of any number of rounds, each scheduled instant is won by
      at most one round, every dispatch happens at most an hour after its instant, and
      a round dispatches a news once. */
  lemma EachInstantOnce(w: World, ops: seq<Step>, j: nat, k: nat)
    requires Inv(w) && j < |Run(w, ops).log| && k < |Run(w, ops).log|
    ensures var log := Run(w, ops).log;
      && (log[j].id == log[k].id && log[j].marked == log[k].marked ==> j == k)
      && (log[j].round == log[k].round && log[j].news == log[k].news ==>
        log[j].dispatched && log[k].dispatched ==> j == k)
      && (log[k].dispatched ==> log[k].marked <= log[k].now <= log[k].marked + LATE_AFTER)
  {
    RunKeeps(w, ops);
    var log := Run(w, ops).log;
    assert GoodWin(Run(w, ops), log[k]);
    if j < k {
      assert Apart(log[j], log[k]);
    } else if k < j {
      assert Apart(log[k], log[j]);
    }
  }

  // ---- a news once per instant ---------------------------------------------

  /** No news went out twice for one instant. */
  predicate OnceEach(log: seq<Win>) {
    forall j, k :: 0 <= j < k < |log| && log[j].dispatched && log[k].dispatched && log[j].news == log[k].news ==>
      log[j].marked != log[k].marked
  }

  predicate OutAlready(win: Win, r: Id, d: Due) {
    win.dispatched && win.round != r && win.news == d.news && win.marked == d.marked
  }

  /** The round is to dispatch what another round dispatched for that instant, by another
      schedule of the news. */
  predicate Repeats(w: World, r: Id)
    requires r in w.rounds && w.rounds[r].due != []
  {
    var d := w.rounds[r].due[0];
    && Wins(w.rows, d) && Dispatches(w.rounds[r], d)
    && exists j :: 0 <= j < |w.log| && OutAlready(w.log[j], r, d)
  }

  lemma SwapOnce(w: World, r: Id)
    requires Inv(w) && r in w.rounds && w.rounds[r].due != []
    ensures OnceEach(Swap(w, r).log) <==> OnceEach(w.log) && !Repeats(w, r)
  {
    var d := w.rounds[r].due[0];
    var log := Swap(w, r).log;
    if OnceEach(log) {
      forall j, k | 0 <= j < k < |w.log| && w.log[j].dispatched && w.log[k].dispatched && w.log[j].news == w.log[k].news
        ensures w.log[j].marked != w.log[k].marked
      {
        assert log[j] == w.log[j] && log[k] == w.log[k];
      }
    }
    if Repeats(w, r) {
      var j :| 0 <= j < |w.log| && OutAlready(w.log[j], r, d);
      assert log[j] == w.log[j];
      assert log[|w.log|] == Win(r, d.id, d.news, d.marked, w.rounds[r].now, true);
      assert !OnceEach(log);
    }
    if Wins(w.rows, d) && Dispatches(w.rounds[r], d) && OnceEach(w.log) && !Repeats(w, r) {
      forall j | 0 <= j < |w.log| && w.log[j].dispatched && w.log[j].news == d.news
        ensures w.log[j].marked != d.marked
      {
        assert GoodWin(w, w.log[j]);
        assert !OutAlready(w.log[j], r, d);
      }
    }
  }

  ghost predicate NeverRepeats(w: World, ops: seq<Step>) {
    ops != [] ==>
      var n := |ops| - 1;
      var before := Run(w, ops[..n]);
      && NeverRepeats(w, ops[..n])
      && (ops[n].Swapping? && ops[n].r in before.rounds && before.rounds[ops[n].r].due != [] ==>
        !Repeats(before, ops[n].r))
  }

  /** Over every interleaving a news goes out once per instant exactly when no round dispatches
      what another round dispatched for that instant by another schedule of the news. */
  lemma {:induction false} OnceExactly(w: World, ops: seq<Step>)
    requires Inv(w) && OnceEach(w.log)
    ensures OnceEach(Run(w, ops).log) <==> NeverRepeats(w, ops)
  {
    if ops == [] {
    } else {
      var n := |ops| - 1;
      OnceExactly(w, ops[..n]);
      RunKeeps(w, ops[..n]);
      var before := Run(w, ops[..n]);
      if ops[n].Swapping? && ops[n].r in before.rounds && before.rounds[ops[n].r].due != [] {
        SwapOnce(before, ops[n].r);
      }
    }
  }

  /** A repetition needs two rounds and two schedules. */
  lemma RepeatsApart(w: World, r: Id, j: nat)
    requires Inv(w) && r in w.rounds && w.rounds[r].due != [] && Wins(w.rows, w.rounds[r].due[0])
    requires j < |w.log| && OutAlready(w.log[j], r, w.rounds[r].due[0])
    ensures w.log[j].id != w.rounds[r].due[0].id && w.log[j].round != r
  {
    assert GoodWin(w, w.log[j]);
  }

  const AT_1000: Row := Row(5, Once(Some(1000)), Some(1000), None)
  const RAN_1000: Row := Row(5, Once(Some(1000)), None, Some(1000))
  const TWO_DUE: World := World(map[0 := AT_1000, 1 := AT_1000], 2, map[], [])

  function TwoDue(due: seq<Due>, fired: set<Id>): Round {
    Round(1000, due, fired)
  }

  function DueAt(id: Id): Due {
    Due(id, 5, Once(Some(1000)), 1000, true)
  }

  /** Two schedules of one news are due when two rounds read; each round wins one of them, and
      the news goes out twice for one instant. */
  lemma OutTwice()
    ensures Inv(TWO_DUE)
    ensures var w := Run(TWO_DUE, [] + [Reading(0, 1000, [0, 1], {5})] + [Reading(1, 1000, [0, 1], {5})]
                                  + [Swapping(0)] + [Swapping(1)] + [Swapping(1)]);
            && w.log == [Win(0, 0, 5, 1000, 1000, true), Win(1, 1, 5, 1000, 1000, true)]
            && !OnceEach(w.log)
  {
    TwoRead();
    TwoSwap();
    var es := [] + [Reading(0, 1000, [0, 1], {5})] + [Reading(1, 1000, [0, 1], {5})];
    NextStep(TWO_DUE, es, Swapping(0));
    NextStep(TWO_DUE, es + [Swapping(0)], Swapping(1));
    NextStep(TWO_DUE, es + [Swapping(0)] + [Swapping(1)], Swapping(1));
    var log := [Win(0, 0, 5, 1000, 1000, true), Win(1, 1, 5, 1000, 1000, true)];
    assert log[0].marked == log[1].marked;
  }

  lemma NextStep(w: World, ops: seq<Step>, op: Step)
    ensures Run(w, ops + [op]) == Apply(Run(w, ops), op)
  {
    assert (ops + [op])[..|ops|] == ops;
  }

  function Found(): Round {
    TwoDue([DueAt(0), DueAt(1)], {})
  }

  lemma TwoRead()
    ensures Inv(TWO_DUE)
    ensures Run(TWO_DUE, [] + [Reading(0, 1000, [0, 1], {5})] + [Reading(1, 1000, [0, 1], {5})]) ==
            TWO_DUE.(rounds := map[0 := Found(), 1 := Found()])
  {
    assert Finds(TWO_DUE.rows, 1000, [0, 1]);
    assert Read(TWO_DUE.rows, 1000, [0, 1], {5}) == Found();
    NextStep(TWO_DUE, [], Reading(0, 1000, [0, 1], {5}));
    NextStep(TWO_DUE, [] + [Reading(0, 1000, [0, 1], {5})], Reading(1, 1000, [0, 1], {5}));
  }

  lemma TwoSwap()
    ensures var w := TWO_DUE.(rounds := map[0 := Found(), 1 := Found()]);
            Apply(Apply(Apply(w, Swapping(0)), Swapping(1)), Swapping(1)).log ==
            [Win(0, 0, 5, 1000, 1000, true), Win(1, 1, 5, 1000, 1000, true)]
  {
    var w := TWO_DUE.(rounds := map[0 := Found(), 1 := Found()]);
    var first := TwoDue([DueAt(1)], {5});
    assert Found().due[1..] == [DueAt(1)] && [DueAt(1)][1..] == [];
    var w1 := Apply(w, Swapping(0));
    assert w.rounds[0] == Found() && Wins(w.rows, DueAt(0)) && Dispatches(Found(), DueAt(0));
    assert Swapped(AT_1000, DueAt(0), 1000) == RAN_1000;
    assert Found().fired + {5} == {5};
    assert w1.rounds[0] == first;
    assert w1 == World(map[0 := RAN_1000, 1 := AT_1000], 2, map[0 := first, 1 := Found()],
                       [Win(0, 0, 5, 1000, 1000, true)]);
    var w2 := Apply(w1, Swapping(1));
    assert w2 == w1.(rounds := map[0 := first, 1 := TwoDue([DueAt(1)], {})]);
  }

  // ---- what a win passes over ----------------------------------------------

  /** From any moment of a run to any later one, the `nextRunAt` of a schedule that is
      still there only grew, or ended. */
  lemma OnlyGrows(w: World, ops: seq<Step>, more: seq<Step>, id: Id)
    requires Inv(w) && id in Run(w, ops).rows && id in Run(Run(w, ops), more).rows
    ensures RowFollows(Run(w, ops).rows[id], Run(Run(w, ops), more).rows[id])
  {
    RunKeeps(w, ops);
    RunKeeps(Run(w, ops), more);
  }

  /** Nothing that was still to come when the round read its clock lies between the instant
      won and the next one marked. */
  ghost predicate PassesNothing(d: Due, now: Instant, next: Option<Instant>) {
    forall t :: Occurs(d.schedule, t) && d.marked < t && (next.Some? ==> t < next.value) ==> t <= now
  }

  /** A win passes over nothing exactly when the next occurrence does not skip today, so
      always for a clock from 1970 on. A win that does not dispatch a publishable news that
      its round has not dispatched yet is more than an hour late. */
  lemma PassesOnlyThePast(w: World, r: Id)
    requires Inv(w) && r in w.rounds && w.rounds[r].due != [] && Wins(w.rows, w.rounds[r].due[0])
    ensures var d := w.rounds[r].due[0];
      PassesNothing(d, w.rounds[r].now, Swap(w, r).rows[d.id].nextRunAt) <==> !SkipsToday(d.schedule, w.rounds[r].now)
    ensures var d := w.rounds[r].due[0];
      var win := Swap(w, r).log[|w.log|];
      d.publishable && d.news !in w.rounds[r].fired && !win.dispatched ==> win.now > win.marked + LATE_AFTER
  {
    var d := w.rounds[r].due[0];
    var now := w.rounds[r].now;
    var next := Swap(w, r).rows[d.id].nextRunAt;
    assert GoodDue(w, now, d);
    assert next == Next(d.schedule, now);
    NextIsFirst(d.schedule, now);
    NextIsLater(d.schedule, now);
    if PassesNothing(d, now, next) {
      forall t | now < t && Occurs(d.schedule, t)
        ensures next.Some? && next.value <= t
      {
        assert d.marked < t;
      }
    }
  }

  // ---- one round by itself -------------------------------------------------

  /** The loop of one round, with nobody else in between. */
  function Finish(w: World, r: Id): World
    requires r in w.rounds
    decreases |w.rounds[r].due|
  {
    if w.rounds[r].due == [] then w else Finish(Swap(w, r), r)
  }

  function Alone(rows: Rows, born: Id, log: seq<Win>, r: Id, round: Round): World {
    World(rows, born, map[r := round], log)
  }

  lemma FinishStep(rows: Rows, born: Id, log: seq<Win>, r: Id, round: Round)
    requires round.due != []
    ensures var d := round.due[0];
      var rest := round.due[1..];
      Finish(Alone(rows, born, log, r, round), r) ==
        if !Wins(rows, d) then Finish(Alone(rows, born, log, r, round.(due := rest)), r)
        else
          var fires := Dispatches(round, d);
          Finish(Alone(
            rows[d.id := Swapped(rows[d.id], d, round.now)],
            born,
            log + [Win(r, d.id, d.news, d.marked, round.now, fires)],
            r,
            Round(round.now, rest, if fires then round.fired + {d.news} else round.fired)), r)
  {
    var d := round.due[0];
    var w := Alone(rows, born, log, r, round);
    assert Swap(w, r).rounds == map[r := Swap(w, r).rounds[r]];
  }

  /** Left alone, a round leaves nothing it found still due. */
  lemma {:induction false} FinishClears(w: World, r: Id, k: nat)
    requires Inv(w) && r in w.rounds && k < |w.rounds[r].due|
    requires forall i, j :: 0 <= i < j < |w.rounds[r].due| ==> w.rounds[r].due[i].id != w.rounds[r].due[j].id
    requires Wins(w.rows, w.rounds[r].due[k])
    ensures var id := w.rounds[r].due[k].id;
      id in Finish(w, r).rows && NotBefore(Finish(w, r).rows[id].nextRunAt, w.rounds[r].now + 1)
    decreases |w.rounds[r].due|
  {
    var id := w.rounds[r].due[k].id;
    SwapKeeps(w, r);
    if k > 0 {
      FinishClears(Swap(w, r), r, k - 1);
    } else {
      assert GoodDue(w, w.rounds[r].now, w.rounds[r].due[0]);
      NextIsLater(w.rounds[r].due[0].schedule, w.rounds[r].now);
      FinishLeaves(Swap(w, r), r, id);
    }
  }

  lemma {:induction false} FinishLeaves(w: World, r: Id, id: Id)
    requires r in w.rounds && id in w.rows && forall k :: 0 <= k < |w.rounds[r].due| ==> w.rounds[r].due[k].id != id
    ensures id in Finish(w, r).rows && Finish(w, r).rows[id] == w.rows[id]
    decreases |w.rounds[r].due|
  {
    if w.rounds[r].due == [] {
    } else {
      assert w.rounds[r].due[0].id != id;
      FinishLeaves(Swap(w, r), r, id);
    }
  }

  class NewsService {
    var rows: Rows
    var log: seq<Win>

    /** `dispararVencidos`: by itself, a round does what its steps do. */
    method FireDue(r: Id, now: Instant, found: seq<Id>, publishable: set<Id>, ghost born: Id)
      requires forall k :: 0 <= k < |found| ==> IsDue(rows, now, found[k])
      modifies this
      ensures var w := Finish(Alone(old(rows), born, old(log), r, Read(old(rows), now, found, publishable)), r);
        rows == w.rows && log == w.log
    {
      var overdue := Read(rows, now, found, publishable).due;
      var fired: set<Id> := {};
      ghost var end := Finish(Alone(rows, born, log, r, Round(now, overdue, fired)), r);
      var k := 0;
      assert overdue[0..] == overdue;
      while k < |overdue|
        invariant k <= |overdue|
        invariant end == Finish(Alone(rows, born, log, r, Round(now, overdue[k..], fired)), r)
      {
        FinishStep(rows, born, log, r, Round(now, overdue[k..], fired));
        var d := overdue[k];
        var late := now - d.marked > LATE_AFTER;
        assert overdue[k..][1..] == overdue[k + 1..];
        k := k + 1;
        if !(d.id in rows && rows[d.id].nextRunAt == Some(d.marked)) {
          continue;
        }
        var next := NextRun(d.schedule, now);
        var row := rows[d.id];
        rows := rows[d.id := row.(nextRunAt := next, lastRunAt := if late then row.lastRunAt else Some(now))];
        var dispatch := !late && d.publishable && d.news !in fired;
        if dispatch {
          fired := fired + {d.news};
        }
        log := log + [Win(r, d.id, d.news, d.marked, now, dispatch)];
      }
    }
  }
}
