/** What the clock and the form of scheduled news write and send, field by field. */
module NewsOutcomes {
  import opened Wrappers
  import opened Schedule
  import opened NewsClock

  // ---- what a save leaves --------------------------------------------------

  /** Of the old schedules those of other news stay, and those of this news that were once and
      have run; they stay as they were. The new ones are the given ones, under new ids, and no
      round and no win is touched. */
  lemma SaveLeaves(w: World, news: Id, ready: seq<Ready>, id: Id)
    requires forall i :: i in w.rows ==> i < w.born
    ensures var w' := Save(w, news, ready);
      && w'.born == w.born + |ready| && w'.rounds == w.rounds && w'.log == w.log
      && (id < w.born ==>
        (id in w'.rows <==>
          && id in w.rows
          && (w.rows[id].news != news || (w.rows[id].schedule.Once? && w.rows[id].nextRunAt.None?))))
      && (id < w.born && id in w'.rows ==> w'.rows[id] == w.rows[id])
      && (id >= w.born ==> (id in w'.rows <==> id < w.born + |ready|))
      && (w.born <= id < w.born + |ready| ==>
        w'.rows[id] == Row(news, ready[id - w.born].schedule, ready[id - w.born].nextRunAt, None))
  {
    var kept := map i | i in w.rows && !(w.rows[i].news == news && !IsHistory(w.rows[i])) :: w.rows[i];
    WithNewAdds(kept, w.born, news, ready, id);
  }

  lemma {:induction false} AllValidated(forms: seq<Form>, now: Instant)
    ensures ValidateAll(forms, now).Some? <==> forall k :: 0 <= k < |forms| ==> Validate(forms[k], now).Success?
    ensures ValidateAll(forms, now).Some? ==> |ValidateAll(forms, now).value| == |forms|
    ensures ValidateAll(forms, now).Some? ==>
      forall k :: 0 <= k < |forms| ==> ValidateAll(forms, now).value[k] == Validate(forms[k], now).value
  {
    if forms == [] {
    } else {
      var n := |forms| - 1;
      AllValidated(forms[..n], now);
      assert forall k :: 0 <= k < n ==> forms[..n][k] == forms[k];
    }
  }

  /** The form is saved whole, when it has at most twenty schedules and all are accepted, or not
      at all. */
  lemma SavingAnswers(w: World, news: Id, forms: seq<Form>, now: Instant)
    ensures (|forms| <= 20 && forall k :: 0 <= k < |forms| ==> Validate(forms[k], now).Success?) ==>
      exists ready: seq<Ready> :: |ready| == |forms| && Apply(w, Saving(news, forms, now)) == Save(w, news, ready)
        && forall k :: 0 <= k < |forms| ==> ready[k] == Validate(forms[k], now).value
    ensures !(|forms| <= 20 && forall k :: 0 <= k < |forms| ==> Validate(forms[k], now).Success?) ==>
      Apply(w, Saving(news, forms, now)) == w
  {
    AllValidated(forms, now);
    if ValidateAll(forms, now).Some? && |forms| <= 20 {
      var ready := ValidateAll(forms, now).value;
      assert |ready| == |forms| && Apply(w, Saving(news, forms, now)) == Save(w, news, ready);
    }
  }

  /** A form is accepted exactly when it has a date still to come, or weekdays of the week and a
      time of the day; what is accepted is that schedule. */
  lemma ValidateAnswers(form: Form, now: Instant)
    ensures Validate(form, now).Success? <==>
      match form
      case OnceForm(runAt) => runAt.Some? && runAt.value > now
      case WeeklyForm(weekdays, time) =>
        && weekdays != [] && (forall d :: d in weekdays ==> 0 <= d <= 6)
        && time.Some? && 0 <= time.value.hour < 24 && 0 <= time.value.minute < 60
    ensures Validate(form, now).Success? ==>
      match Validate(form, now).value.schedule
      case Once(runAt) => form == OnceForm(runAt) && Validate(form, now).value.nextRunAt == runAt
      case Weekly(weekdays, time) =>
        form.WeeklyForm? && form.time == time && forall d :: d in weekdays <==> d in form.weekdays
    ensures Validate(form, now) == Failure(NoDate) <==> form == OnceForm(None)
    ensures Validate(form, now) == Failure(PastDate) <==>
      form.OnceForm? && form.runAt.Some? && form.runAt.value <= now
    ensures Validate(form, now) == Failure(NoWeekday) <==>
      form.WeeklyForm? && (form.weekdays == [] || exists d :: d in form.weekdays && (d < 0 || d > 6))
    ensures Validate(form, now) == Failure(NoTime) <==>
      && form.WeeklyForm? && form.weekdays != [] && (forall d :: d in form.weekdays ==> 0 <= d <= 6)
      && !(form.time.Some? && 0 <= form.time.value.hour < 24 && 0 <= form.time.value.minute < 60)
  {
  }

  // ---- some dates ----------------------------------------------------------

  const TUESDAY := 2
  const THURSDAY := 4
  const NOON := Time(12, 0)

  /** 2026-10-06 is a Tuesday. At nine in the morning the next Tuesday at noon is today's. */
  lemma TuesdayMorning()
    ensures Next(Weekly({TUESDAY}, Some(NOON)), 1_791_288_000_000) == Some(1_791_298_800_000)
  {
    assert Chosen(1_791_288_000_000, {TUESDAY}, NOON, 0);
  }

  /** At noon it is the one a week later. */
  lemma TuesdayNoon()
    ensures Next(Weekly({TUESDAY}, Some(NOON)), 1_791_298_800_000) == Some(1_791_903_600_000)
  {
    var now := 1_791_298_800_000;
    var days := {TUESDAY};
    assert Search(now, days, NOON, 0) == Search(now, days, NOON, 1) == Search(now, days, NOON, 2);
    assert Search(now, days, NOON, 2) == Search(now, days, NOON, 3) == Search(now, days, NOON, 4);
    assert Search(now, days, NOON, 4) == Search(now, days, NOON, 5) == Search(now, days, NOON, 6);
    assert Search(now, days, NOON, 6) == Search(now, days, NOON, 7);
  }

  /** Ten on a Monday evening in Brasilia is Tuesday in UTC, and the Tuesday of Brasilia is still to
      come. */
  lemma MondayEvening()
    ensures Next(Weekly({TUESDAY}, Some(Time(0, 30))), 1_791_248_400_000) == Some(1_791_257_400_000)
  {
    var now := 1_791_248_400_000;
    assert Search(now, {TUESDAY}, Time(0, 30), 0) == Search(now, {TUESDAY}, Time(0, 30), 1);
  }

  /** On a Tuesday afternoon the next of Tuesday and Thursday at noon is Thursday's. */
  lemma TuesdayAfternoon()
    ensures Next(Weekly({TUESDAY, THURSDAY}, Some(NOON)), 1_791_302_400_000) == Some(1_791_471_600_000)
  {
    var now := 1_791_302_400_000;
    var days := {TUESDAY, THURSDAY};
    assert Search(now, days, NOON, 0) == Search(now, days, NOON, 1) == Search(now, days, NOON, 2);
  }

  // ---- what a round sends --------------------------------------------------

  /** In step `m` of the run the round read its clock and found this one due. */
  ghost predicate ReadIn(w: World, ops: seq<Step>, m: nat, r: Id, now: Instant, d: Due) {
    && m < |ops| && ops[m].Reading? && ops[m].r == r && ops[m].now == now
    && var rows := Run(w, ops[..m]).rows;
       && d.id in rows && rows[d.id].news == d.news && rows[d.id].schedule == d.schedule
       && rows[d.id].nextRunAt == Some(d.marked) && d.marked <= now
       && (d.publishable <==> d.news in ops[m].publishable)
  }

  ghost predicate WasRead(w: World, ops: seq<Step>, r: Id, now: Instant, d: Due) {
    exists m :: ReadIn(w, ops, m, r, now, d)
  }

  /** A round remembers what it read, and which news it dispatched. */
  ghost predicate Remembers(w: World, ops: seq<Step>, r: Id) {
    var end := Run(w, ops);
    r in end.rounds ==>
      && (forall k :: 0 <= k < |end.rounds[r].due| ==>
        WasRead(w, ops, r, end.rounds[r].now, end.rounds[r].due[k]))
      && (forall n: Id :: n in end.rounds[r].fired <==> Sent(end.log, r, n))
  }

  /** The round dispatched the news. */
  predicate Sent(log: seq<Win>, r: Id, n: Id) {
    exists j :: 0 <= j < |log| && log[j].round == r && log[j].news == n && log[j].dispatched
  }

  lemma ReadStays(w: World, ops: seq<Step>, op: Step, m: nat, r: Id, now: Instant, d: Due)
    requires ReadIn(w, ops, m, r, now, d)
    ensures ReadIn(w, ops + [op], m, r, now, d)
  {
    assert (ops + [op])[..m] == ops[..m];
  }

  lemma ReadHere(w: World, ops: seq<Step>, r: Id, now: Instant, found: seq<Id>, publishable: set<Id>, k: nat)
    requires var before := Run(w, ops);
      && r !in before.rounds && Finds(before.rows, now, found) && k < |found|
    ensures var op := Reading(r, now, found, publishable);
      var after := Run(w, ops + [op]);
      && r in after.rounds && k < |after.rounds[r].due|
      && ReadIn(w, ops + [op], |ops|, r, after.rounds[r].now, after.rounds[r].due[k])
  {
    var op := Reading(r, now, found, publishable);
    NextStep(w, ops, op);
    assert (ops + [op])[..|ops|] == ops;
    assert found[k] in found;
  }

  lemma SentGrows(log: seq<Win>, win: Win, r: Id, n: Id)
    ensures Sent(log + [win], r, n) <==> Sent(log, r, n) || (win.round == r && win.news == n && win.dispatched)
  {
    if j: nat :| j < |log| && log[j].round == r && log[j].news == n && log[j].dispatched {
      assert (log + [win])[j] == log[j];
    }
    if win.round == r && win.news == n && win.dispatched {
      assert (log + [win])[|log|] == win;
    }
  }

  /** One swap: the round's memory of the news sent stays right. */
  lemma SwapSends(w: World, r: Id, q: Id)
    requires r in w.rounds && w.rounds[r].due != [] && q in w.rounds
    requires forall n: Id :: n in w.rounds[q].fired <==> Sent(w.log, q, n)
    ensures forall n: Id :: n in Swap(w, r).rounds[q].fired <==> Sent(Swap(w, r).log, q, n)
  {
    var d := w.rounds[r].due[0];
    if Wins(w.rows, d) {
      var win := Swap(w, r).log[|w.log|];
      assert Swap(w, r).log == w.log + [win];
      forall n: Id
        ensures n in Swap(w, r).rounds[q].fired <==> Sent(Swap(w, r).log, q, n)
      {
        SentGrows(w.log, win, q, n);
      }
    }
  }

  lemma StepRemembers(w: World, ops: seq<Step>, op: Step, r: Id)
    requires Remembers(w, ops, r) && (r !in Run(w, ops).rounds ==> forall n: Id :: !Sent(Run(w, ops).log, r, n))
    ensures Remembers(w, ops + [op], r)
    ensures r !in Run(w, ops + [op]).rounds ==> forall n: Id :: !Sent(Run(w, ops + [op]).log, r, n)
  {
    var before, after := Run(w, ops), Run(w, ops + [op]);
    NextStep(w, ops, op);
    if r in after.rounds {
      forall k | 0 <= k < |after.rounds[r].due|
        ensures WasRead(w, ops + [op], r, after.rounds[r].now, after.rounds[r].due[k])
      {
        if r in before.rounds {
          var k0 := if op.Swapping? && op.r == r && before.rounds[r].due != [] then k + 1 else k;
          assert after.rounds[r].due[k] == before.rounds[r].due[k0];
          assert WasRead(w, ops, r, before.rounds[r].now, before.rounds[r].due[k0]);
          var m :| ReadIn(w, ops, m, r, before.rounds[r].now, before.rounds[r].due[k0]);
          ReadStays(w, ops, op, m, r, before.rounds[r].now, before.rounds[r].due[k0]);
        } else {
          ReadHere(w, ops, r, op.now, op.found, op.publishable, k);
        }
      }
    }
    StepSends(before, op, r);
    assert after == Apply(before, op);
    assert r in after.rounds ==> forall n: Id :: n in after.rounds[r].fired <==> Sent(after.log, r, n);
  }

  lemma StepSends(w: World, op: Step, r: Id)
    requires r in w.rounds ==> forall n: Id :: n in w.rounds[r].fired <==> Sent(w.log, r, n)
    requires r !in w.rounds ==> forall n: Id :: !Sent(w.log, r, n)
    ensures var w' := Apply(w, op);
      && (r in w'.rounds ==> forall n: Id :: n in w'.rounds[r].fired <==> Sent(w'.log, r, n))
      && (r !in w'.rounds ==> forall n: Id :: !Sent(w'.log, r, n))
  {
    if op.Swapping? && op.r in w.rounds && w.rounds[op.r].due != [] {
      if r in w.rounds {
        SwapSends(w, op.r, r);
      } else {
        OthersSend(w, op.r, r);
      }
    }
  }

  lemma OthersSend(w: World, r: Id, q: Id)
    requires r in w.rounds && w.rounds[r].due != [] && q != r && forall n: Id :: !Sent(w.log, q, n)
    ensures forall n: Id :: !Sent(Swap(w, r).log, q, n)
  {
    if Wins(w.rows, w.rounds[r].due[0]) {
      var win := Swap(w, r).log[|w.log|];
      forall n: Id
        ensures !Sent(Swap(w, r).log, q, n)
      {
        SentGrows(w.log, win, q, n);
      }
    }
  }

  lemma {:induction false} RunRemembers(w: World, ops: seq<Step>, r: Id)
    requires w.rounds == map[] && w.log == []
    ensures Remembers(w, ops, r)
    ensures r !in Run(w, ops).rounds ==> forall n: Id :: !Sent(Run(w, ops).log, r, n)
  {
    if ops == [] {
    } else {
      var n := |ops| - 1;
      RunRemembers(w, ops[..n], r);
      StepRemembers(w, ops[..n], ops[n], r);
      assert ops == ops[..n] + [ops[n]];
    }
  }

  /** Over every run from the start of the service: a swap that wins sends the news exactly when
      the round read it as publishable, read its clock at most an hour after the marked instant,
      and has not sent it yet. */
  lemma SentExactly(w: World, ops: seq<Step>, r: Id) returns (m: nat)
    requires w.rounds == map[] && w.log == []
    requires var now := Run(w, ops);
      && r in now.rounds && now.rounds[r].due != []
      && var d := now.rounds[r].due[0]; d.id in now.rows && now.rows[d.id].nextRunAt == Some(d.marked)
    ensures var before, after := Run(w, ops), Run(w, ops + [Swapping(r)]);
      var d := before.rounds[r].due[0];
      && ReadIn(w, ops, m, r, before.rounds[r].now, d)
      && |after.log| == |before.log| + 1 && after.log[..|before.log|] == before.log
      && var win := after.log[|before.log|];
         && win.round == r && win.id == d.id && win.news == d.news && win.marked == d.marked && win.now == ops[m].now
         && (win.dispatched <==>
           && d.news in ops[m].publishable
           && ops[m].now <= d.marked + 3_600_000
           && forall j :: 0 <= j < |before.log| && before.log[j].round == r && before.log[j].news == d.news ==>
                !before.log[j].dispatched)
  {
    RunRemembers(w, ops, r);
    NextStep(w, ops, Swapping(r));
    var before := Run(w, ops);
    var d := before.rounds[r].due[0];
    assert WasRead(w, ops, r, before.rounds[r].now, d);
    m :| ReadIn(w, ops, m, r, before.rounds[r].now, d);
    assert d.news in before.rounds[r].fired <==> Sent(before.log, r, d.news);
  }

  /** Over every run from the start of the service, for every win there has been: its round read
      that schedule due at that instant in a step of the run, and the news went out exactly when
      it was publishable in that step, the clock of the round was at most an hour past the instant,
      and no earlier win of the round had sent it. */
  lemma {:induction false} WinsExactly(w: World, ops: seq<Step>, j: nat) returns (m: nat, d: Due)
    requires w.rounds == map[] && w.log == [] && j < |Run(w, ops).log|
    ensures var log := Run(w, ops).log;
      var win := log[j];
      && ReadIn(w, ops, m, win.round, win.now, d)
      && win.id == d.id && win.news == d.news && win.marked == d.marked
      && (win.dispatched <==>
        && win.news in ops[m].publishable
        && win.now <= win.marked + 3_600_000
        && forall i :: 0 <= i < j && log[i].round == win.round && log[i].news == win.news ==> !log[i].dispatched)
  {
    if ops == [] {
      assert false;
    } else {
      var n := |ops| - 1;
      var before, op := Run(w, ops[..n]), ops[n];
      assert ops == ops[..n] + [op];
      if j < |before.log| {
        m, d := WinsExactly(w, ops[..n], j);
        ReadStays(w, ops[..n], op, m, before.log[j].round, before.log[j].now, d);
        assert before.log <= Run(w, ops).log;
      } else {
        assert op.Swapping? && op.r in before.rounds && before.rounds[op.r].due != [];
        d := before.rounds[op.r].due[0];
        m := SentExactly(w, ops[..n], op.r);
        ReadStays(w, ops[..n], op, m, op.r, before.rounds[op.r].now, d);
        assert Run(w, ops).log[..j] == before.log;
      }
    }
  }

  /** A swap that wins moves the schedule on to its next instant, and remembers when it ran unless
      it ran more than an hour late; one that loses writes nothing. No other schedule is touched. */
  lemma SwapWrites(w: World, r: Id, id: Id)
    requires r in w.rounds && w.rounds[r].due != []
    ensures var d := w.rounds[r].due[0];
      var now := w.rounds[r].now;
      var w' := Swap(w, r);
      && w'.born == w.born && w'.rows.Keys == w.rows.Keys
      && w'.rounds.Keys == w.rounds.Keys && w'.rounds[r].due == w.rounds[r].due[1..] && w'.rounds[r].now == now
      && (d.id in w.rows && w.rows[d.id].nextRunAt == Some(d.marked) ==>
        w'.rows[d.id] == Row(w.rows[d.id].news, w.rows[d.id].schedule, Next(d.schedule, now),
                             if now > d.marked + 3_600_000 then w.rows[d.id].lastRunAt else Some(now)))
      && (id in w.rows && (id != d.id || w.rows[id].nextRunAt != Some(d.marked)) ==> w'.rows[id] == w.rows[id])
      && (!(d.id in w.rows && w.rows[d.id].nextRunAt == Some(d.marked)) ==> w'.log == w.log)
  {
  }

  /** Whatever the table and the clock, the query has an answer. */
  lemma SomeFinding(rows: Rows, now: Instant) returns (found: seq<Id>)
    ensures Finds(rows, now, found)
  {
    found := InSomeOrder(set id | id in rows.Keys && IsDue(rows, now, id));
  }

  /** A round finds everything that is due at its clock, as it is in the table, and has sent nothing
      yet. */
  lemma ReadsDue(w: World, r: Id, now: Instant, found: seq<Id>, publishable: set<Id>, id: Id)
    requires r !in w.rounds && Finds(w.rows, now, found)
    ensures var w' := Apply(w, Reading(r, now, found, publishable));
      && w'.rows == w.rows && w'.log == w.log && w'.born == w.born
      && r in w'.rounds && w'.rounds[r].now == now && w'.rounds[r].fired == {}
      && ((exists k :: 0 <= k < |w'.rounds[r].due| && w'.rounds[r].due[k].id == id) <==>
        id in w.rows && w.rows[id].nextRunAt.Some? && w.rows[id].nextRunAt.value <= now)
  {
    var due := Apply(w, Reading(r, now, found, publishable)).rounds[r].due;
    if id in found {
      var k :| 0 <= k < |found| && found[k] == id;
      assert due[k].id == id;
    }
    if k: nat :| k < |due| && due[k].id == id {
      assert found[k] == id;
    }
  }
}
