/** Calling the next one, by several operators at the same time: each reads the five longest
    waiting and then tries them one filtered update at a time, while other operators write. */
module CallRaces {
  import opened Wrappers
  import Bedrooms
  import opened Checkin
  import Sorting

  type User = Bedrooms.User
  type Operator = Bedrooms.Operator

  /** `NEXT_CANDIDATES` */
  const CANDIDATES: nat := 5

  /** `since` is the turn in which the operator read the queue, and `at` has the turns of the
      updates so far: `at[i]` tried `asked[i]`. */
  datatype Caller =
    | Trying(asked: seq<User>, at: seq<nat>, since: nat)
    | Answered(asked: seq<User>, at: seq<nat>, since: nat, got: Option<User>)

  datatype Booth = Booth(rows: map<User, Row>, callers: map<Operator, Caller>, clock: nat)

  /** `Other` is any other update of a row: a delivery, a call by name, a completion, an undo. */
  datatype Turn =
    | Ask(op: Operator, listing: seq<User>)
    | CallNow(op: Operator, st: Stamp)
    | Other(u: User, write: Write)

  function FirstFive(queue: seq<User>): seq<User> {
    if |queue| > CANDIDATES then queue[..CANDIDATES] else queue
  }

  predicate IsQueued(rows: map<User, Row>, u: User) {
    RowOf(rows, u).status == Queued
  }

  function Update(rows: map<User, Row>, u: User, write: Write): map<User, Row> {
    rows[u := Written(RowOf(rows, u), write)]
  }

  /** The next update finds the person still queued, or loses the race. */
  function After(rows: map<User, Row>, c: Caller, clock: nat): Caller
    requires c.Trying?
  {
    var k := |c.at|;
    if k >= |c.asked| then Answered(c.asked, c.at, c.since, None)
    else if IsQueued(rows, c.asked[k]) then Answered(c.asked, c.at + [clock], c.since, Some(c.asked[k]))
    else Trying(c.asked, c.at + [clock], c.since)
  }

  function Tried(b: Booth, op: Operator, c: Caller, st: Stamp): Booth
    requires c.Trying?
  {
    var after := After(b.rows, c, b.clock);
    Booth(
      if after.Answered? && after.got.Some? then Update(b.rows, after.got.value, ToProgress(st)) else b.rows,
      b.callers[op := after],
      b.clock)
  }

  predicate Tries(b: Booth, op: Operator) {
    op in b.callers && b.callers[op].Trying?
  }

  function Took(b: Booth, t: Turn): Booth {
    var next :=
      match t
      case Ask(op, listing) => b.(callers := b.callers[op := Trying(FirstFive(Waiting(b.rows, listing)), [], b.clock)])
      case CallNow(op, st) => if Tries(b, op) then Tried(b, op, b.callers[op], st) else b
      case Other(u, write) => b.(rows := Update(b.rows, u, write));
    next.(clock := b.clock + 1)
  }

  function RunBooth(b: Booth, ts: seq<Turn>): Booth {
    if ts == [] then b else Took(RunBooth(b, ts[..|ts| - 1]), ts[|ts| - 1])
  }

  // ---- nobody is called twice ----------------------------------------------

  /** The turn calls `u` by the queue. */
  predicate Calls(b: Booth, t: Turn, u: User) {
    && t.CallNow? && Tries(b, t.op)
    && |b.callers[t.op].at| < |b.callers[t.op].asked|
    && b.callers[t.op].asked[|b.callers[t.op].at|] == u
    && IsQueued(b.rows, u)
  }

  /** The turn puts `u` in the queue. */
  predicate Enters(b: Booth, t: Turn, u: User) {
    !IsQueued(b.rows, u) && IsQueued(Took(b, t).rows, u)
  }

  function TimesCalled(b: Booth, ts: seq<Turn>, u: User): nat {
    if ts == [] then 0
    else
      var n := |ts| - 1;
      TimesCalled(b, ts[..n], u) + if Calls(RunBooth(b, ts[..n]), ts[n], u) then 1 else 0
  }

  function TimesEntered(b: Booth, ts: seq<Turn>, u: User): nat {
    if ts == [] then 0
    else
      var n := |ts| - 1;
      TimesEntered(b, ts[..n], u) + if Enters(RunBooth(b, ts[..n]), ts[n], u) then 1 else 0
  }

  function Here(rows: map<User, Row>, u: User): nat {
    if IsQueued(rows, u) then 1 else 0
  }

  lemma CallLeaves(b: Booth, t: Turn, u: User)
    ensures Calls(b, t, u) ==> IsQueued(b.rows, u) && !IsQueued(Took(b, t).rows, u)
  {
  }

  /** Each entry in the queue is called at most once, whoever competes for it: the calls of a
      person never exceed the times that person was queued. */
  lemma {:induction false} CallsAreEntries(b: Booth, ts: seq<Turn>, u: User)
    ensures TimesCalled(b, ts, u) + Here(RunBooth(b, ts).rows, u) <= TimesEntered(b, ts, u) + Here(b.rows, u)
  {
    if ts == [] {
    } else {
      var n := |ts| - 1;
      CallsAreEntries(b, ts[..n], u);
      CallLeaves(RunBooth(b, ts[..n]), ts[n], u);
    }
  }

  /** So two operators never call the same person, unless somebody put that person back. */
  lemma NobodyTwice(b: Booth, ts: seq<Turn>, u: User)
    requires TimesEntered(b, ts, u) == 0
    ensures TimesCalled(b, ts, u) <= 1
  {
    CallsAreEntries(b, ts, u);
  }

  // ---- who is told that nobody waits ---------------------------------------

  /** In the `k`-th turn the person was no longer queued. */
  predicate LostAt(b: Booth, ts: seq<Turn>, k: nat, u: User)
    requires k <= |ts|
  {
    !IsQueued(RunBooth(b, ts[..k]).rows, u)
  }

  /** The operator read these five, in this turn. */
  predicate Began(b: Booth, ts: seq<Turn>, op: Operator, asked: seq<User>, since: nat) {
    && since < |ts| && ts[since].Ask? && ts[since].op == op
    && asked == FirstFive(Waiting(RunBooth(b, ts[..since]).rows, ts[since].listing))
  }

  /** The updates are turns of the operator, one after the other, since the queue was read. */
  predicate Turns(ts: seq<Turn>, op: Operator, since: nat, at: seq<nat>) {
    && (forall i :: 0 <= i < |at| ==> since < at[i] < |ts| && ts[at[i]].CallNow? && ts[at[i]].op == op)
    && (forall i, j :: 0 <= i < j < |at| ==> at[i] < at[j])
  }

  /** The first `n` that were tried had all been lost in their turns. */
  predicate LostUpTo(b: Booth, ts: seq<Turn>, asked: seq<User>, at: seq<nat>, n: nat)
    requires n <= |at| && n <= |asked| && forall i :: 0 <= i < |at| ==> at[i] < |ts|
  {
    forall i :: 0 <= i < n ==> LostAt(b, ts, at[i], asked[i])
  }

  /** How an operator stands: everybody tried was lost, but for the one called. */
  predicate Outcome(b: Booth, ts: seq<Turn>, c: Caller)
    requires |c.at| <= |c.asked| && forall i :: 0 <= i < |c.at| ==> c.at[i] < |ts|
  {
    match c
    case Trying(asked, at, _) => LostUpTo(b, ts, asked, at, |at|)
    case Answered(asked, at, _, got) =>
      if got.None? then |at| == |asked| && LostUpTo(b, ts, asked, at, |at|)
      else
        && 0 < |at| && got.value == asked[|at| - 1]
        && LostUpTo(b, ts, asked, at, |at| - 1) && !LostAt(b, ts, at[|at| - 1], got.value)
  }

  predicate CallerInv(b: Booth, ts: seq<Turn>, op: Operator, c: Caller) {
    && Began(b, ts, op, c.asked, c.since) && Turns(ts, op, c.since, c.at)
    && |c.at| <= |c.asked| && Outcome(b, ts, c)
  }

  lemma Earlier(b: Booth, ts: seq<Turn>, t: Turn, k: nat)
    requires k <= |ts|
    ensures (ts + [t])[..k] == ts[..k]
  {
  }

  lemma CallerStays(b: Booth, ts: seq<Turn>, t: Turn, op: Operator, c: Caller)
    requires CallerInv(b, ts, op, c)
    ensures CallerInv(b, ts + [t], op, c)
  {
    Earlier(b, ts, t, c.since);
    forall i | 0 <= i < |c.at|
      ensures LostAt(b, ts + [t], c.at[i], c.asked[i]) == LostAt(b, ts, c.at[i], c.asked[i])
    {
      Earlier(b, ts, t, c.at[i]);
    }
  }

  lemma TookAfter(now: Booth, op: Operator, st: Stamp)
    requires Tries(now, op)
    ensures op in Took(now, CallNow(op, st)).callers
    ensures Took(now, CallNow(op, st)).callers[op] == After(now.rows, now.callers[op], now.clock)
  {
  }

  /** One more try, in the turn that comes next. */
  lemma TryKnows(b: Booth, ts: seq<Turn>, op: Operator, st: Stamp, c: Caller)
    requires c.Trying? && CallerInv(b, ts, op, c) && |c.at| < |c.asked|
    ensures var more := ts + [CallNow(op, st)];
            && Began(b, more, op, c.asked, c.since) && Turns(more, op, c.since, c.at + [|ts|])
            && LostUpTo(b, more, c.asked, c.at + [|ts|], |c.at|)
            && (LostAt(b, more, |ts|, c.asked[|c.at|]) <==> !IsQueued(RunBooth(b, ts).rows, c.asked[|c.at|]))
  {
    var more := ts + [CallNow(op, st)];
    CallerStays(b, ts, CallNow(op, st), op, c);
    assert more[..|ts|] == ts;
    forall i | 0 <= i < |c.at|
      ensures LostAt(b, more, (c.at + [|ts|])[i], c.asked[i])
    {
      assert LostAt(b, more, c.at[i], c.asked[i]);
    }
  }

  lemma OutcomeOfTry(b: Booth, more: seq<Turn>, c: Caller, k: nat, queued: bool)
    requires |c.at| < |c.asked| && k < |more| && forall i :: 0 <= i < |c.at| ==> c.at[i] < |more|
    requires LostUpTo(b, more, c.asked, c.at + [k], |c.at|) && (LostAt(b, more, k, c.asked[|c.at|]) <==> !queued)
    ensures queued ==> Outcome(b, more, Answered(c.asked, c.at + [k], c.since, Some(c.asked[|c.at|])))
    ensures !queued ==> Outcome(b, more, Trying(c.asked, c.at + [k], c.since))
  {
    var at := c.at + [k];
    assert at[|at| - 1] == k;
    if !queued {
      forall i | 0 <= i < |at|
        ensures LostAt(b, more, at[i], c.asked[i])
      {
        assert i < |c.at| || i == |c.at|;
      }
    }
  }

  lemma TriedKnows(b: Booth, ts: seq<Turn>, op: Operator, st: Stamp, c: Caller)
    requires c.Trying? && CallerInv(b, ts, op, c)
    ensures CallerInv(b, ts + [CallNow(op, st)], op, After(RunBooth(b, ts).rows, c, |ts|))
  {
    if |c.at| < |c.asked| {
      TryKnows(b, ts, op, st, c);
      OutcomeOfTry(b, ts + [CallNow(op, st)], c, |ts|, IsQueued(RunBooth(b, ts).rows, c.asked[|c.at|]));
    } else {
      CallerStays(b, ts, CallNow(op, st), op, c);
    }
  }

  lemma AskedKnows(b: Booth, ts: seq<Turn>, op: Operator, listing: seq<User>)
    ensures CallerInv(b, ts + [Ask(op, listing)], op,
                      Trying(FirstFive(Waiting(RunBooth(b, ts).rows, listing)), [], |ts|))
  {
    assert (ts + [Ask(op, listing)])[..|ts|] == ts;
  }

  ghost predicate BoothInv(b: Booth, ts: seq<Turn>) {
    && RunBooth(b, ts).clock == |ts|
    && forall op :: op in RunBooth(b, ts).callers ==> CallerInv(b, ts, op, RunBooth(b, ts).callers[op])
  }

  /** Over every run every operator has read the longest waiting of its turn, and has tried them
      in that order, losing all before the last. */
  lemma {:induction false} CallersKnow(rows: map<User, Row>, ts: seq<Turn>)
    ensures BoothInv(Booth(rows, map[], 0), ts)
  {
    var b := Booth(rows, map[], 0);
    if ts == [] {
    } else {
      var n := |ts| - 1;
      CallersKnow(rows, ts[..n]);
      assert ts == ts[..n] + [ts[n]];
      var now := RunBooth(b, ts[..n]);
      forall op | op in RunBooth(b, ts).callers
        ensures CallerInv(b, ts, op, RunBooth(b, ts).callers[op])
      {
        if ts[n].Ask? && ts[n].op == op {
          AskedKnows(b, ts[..n], op, ts[n].listing);
        } else if ts[n].CallNow? && ts[n].op == op && Tries(now, op) {
          TookAfter(now, op, ts[n].st);
          TriedKnows(b, ts[..n], op, ts[n].st, now.callers[op]);
        } else {
          assert op in now.callers && RunBooth(b, ts).callers[op] == now.callers[op];
          CallerStays(b, ts[..n], ts[n], op, now.callers[op]);
        }
      }
    }
  }

  /** Everybody asked was tried, and was no longer queued in the turn of that try. */
  predicate AllLost(b: Booth, ts: seq<Turn>, c: Caller) {
    && |c.at| == |c.asked|
    && forall i :: 0 <= i < |c.at| ==> c.at[i] < |ts| && LostAt(b, ts, c.at[i], c.asked[i])
  }

  lemma AnswerExact(b: Booth, ts: seq<Turn>, op: Operator, c: Caller)
    requires c.Answered? && CallerInv(b, ts, op, c)
    ensures c.got.None? <==> AllLost(b, ts, c)
    ensures c.got.Some? ==> CalledLast(b, ts, c)
  {
    if c.got.Some? {
      assert c.asked[|c.at| - 1] == c.got.value;
      assert !LostAt(b, ts, c.at[|c.at| - 1], c.asked[|c.at| - 1]);
    }
  }

  /** Whoever was called was the last one tried, and was queued in that turn. */
  predicate CalledLast(b: Booth, ts: seq<Turn>, c: Caller)
    requires c.Answered? && c.got.Some?
  {
    && 0 < |c.at| <= |c.asked| && c.got.value == c.asked[|c.at| - 1]
    && c.at[|c.at| - 1] < |ts| && !LostAt(b, ts, c.at[|c.at| - 1], c.got.value)
  }

  /** Over every run, whatever the other operators do: an operator is told that nobody waits
      exactly when each of the five read from the queue was no longer queued in the turn that
      tried them. */
  lemma ToldNobodyExactly(rows: map<User, Row>, ts: seq<Turn>, op: Operator)
    requires var end := RunBooth(Booth(rows, map[], 0), ts); op in end.callers && end.callers[op].Answered?
    ensures var b := Booth(rows, map[], 0);
            var c := RunBooth(b, ts).callers[op];
            && Began(b, ts, op, c.asked, c.since) && Turns(ts, op, c.since, c.at)
            && (c.got.None? <==> AllLost(b, ts, c))
            && (c.got.Some? ==> CalledLast(b, ts, c))
  {
    var b := Booth(rows, map[], 0);
    CallersKnow(rows, ts);
    var c := RunBooth(b, ts).callers[op];
    assert CallerInv(b, ts, op, c);
    AnswerExact(b, ts, op, c);
  }

  /** Of at most five in the queue everybody had left it, each at some turn after the reading. */
  lemma NobodyStayed(rows: map<User, Row>, ts: seq<Turn>, op: Operator, u: User) returns (k: nat)
    requires var end := RunBooth(Booth(rows, map[], 0), ts);
             op in end.callers && end.callers[op].Answered? && end.callers[op].got.None?
    requires var b := Booth(rows, map[], 0);
             var since := RunBooth(b, ts).callers[op].since;
             && since < |ts| && ts[since].Ask?
             && |Waiting(RunBooth(b, ts[..since]).rows, ts[since].listing)| <= CANDIDATES
             && u in ts[since].listing && IsQueued(RunBooth(b, ts[..since]).rows, u)
    ensures var b := Booth(rows, map[], 0);
            RunBooth(b, ts).callers[op].since < k < |ts| && LostAt(b, ts, k, u)
  {
    var b := Booth(rows, map[], 0);
    CallersKnow(rows, ts);
    var c := RunBooth(b, ts).callers[op];
    WaitingAre(RunBooth(b, ts[..c.since]).rows, ts[c.since].listing, u);
    var i :| 0 <= i < |c.asked| && c.asked[i] == u;
    k := c.at[i];
  }

  // ---- told so while somebody waits ----------------------------------------

  lemma Next(b: Booth, ts: seq<Turn>, t: Turn)
    ensures RunBooth(b, ts + [t]) == Took(RunBooth(b, ts), t)
  {
    assert (ts + [t])[..|ts|] == ts;
  }

  /** The first `n` of a queue are called by name. */
  function CalledByName(queue: seq<User>, st: Stamp, n: nat): seq<Turn>
    requires n <= |queue|
  {
    if n == 0 then [] else CalledByName(queue, st, n - 1) + [Other(queue[n - 1], ToProgress(st))]
  }

  predicate Once(us: seq<User>) {
    forall i, j :: 0 <= i < j < |us| ==> us[i] != us[j]
  }

  lemma {:induction false} CountsOnce(us: seq<User>, u: User)
    requires Once(us)
    ensures multiset(us)[u] <= 1
  {
    if us == [] {
    } else {
      var n := |us| - 1;
      assert us == us[..n] + [us[n]];
      CountsOnce(us[..n], u);
    }
  }

  lemma TwicePlaced(us: seq<User>, i: nat, j: nat)
    requires i < j < |us| && us[i] == us[j]
    ensures multiset(us)[us[i]] >= 2
  {
    assert us == us[..j] + us[j..];
    assert us[..j][i] == us[i] && us[j..][0] == us[i];
  }

  /** A reordering of people that come once has each once. */
  lemma OnceKept(us: seq<User>, vs: seq<User>)
    requires Once(us) && multiset(us) == multiset(vs)
    ensures Once(vs) && |vs| == |us|
  {
    assert |multiset(us)| == |us| && |multiset(vs)| == |vs|;
    forall i, j | 0 <= i < j < |vs|
      ensures vs[i] != vs[j]
    {
      CountsOnce(us, vs[i]);
      if vs[i] == vs[j] {
        TwicePlaced(vs, i, j);
      }
    }
  }

  lemma {:induction false} InQueueOnce(rows: map<User, Row>, listing: seq<User>)
    requires Once(listing)
    ensures Once(InQueue(rows, listing))
  {
    if listing == [] {
    } else {
      var n := |listing| - 1;
      InQueueOnce(rows, listing[..n]);
      InQueueAre(rows, listing[..n], listing[n]);
    }
  }

  lemma WaitingOnce(rows: map<User, Row>, listing: seq<User>)
    requires Once(listing)
    ensures Once(Waiting(rows, listing)) && |Waiting(rows, listing)| == |InQueue(rows, listing)|
  {
    InQueueOnce(rows, listing);
    Sorting.SortKeeps(InQueue(rows, listing), BadgeAt(rows));
    OnceKept(InQueue(rows, listing), Waiting(rows, listing));
  }

  /** The first `n` have gone, and nobody else has. */
  predicate GoneUpTo(was: Booth, now: Booth, queue: seq<User>, n: nat)
    requires n <= |queue|
  {
    && now.callers == was.callers
    && (forall i :: 0 <= i < n ==> !IsQueued(now.rows, queue[i]))
    && (forall i :: n <= i < |queue| ==> RowOf(now.rows, queue[i]) == RowOf(was.rows, queue[i]))
  }

  lemma OneGoes(was: Booth, now: Booth, queue: seq<User>, n: nat, st: Stamp)
    requires n < |queue| && Once(queue) && GoneUpTo(was, now, queue, n)
    ensures GoneUpTo(was, Took(now, Other(queue[n], ToProgress(st))), queue, n + 1)
  {
  }

  lemma {:induction false} NamesGo(b: Booth, ts: seq<Turn>, queue: seq<User>, st: Stamp, n: nat)
    requires n <= |queue| && Once(queue)
    ensures GoneUpTo(RunBooth(b, ts), RunBooth(b, ts + CalledByName(queue, st, n)), queue, n)
  {
    if n == 0 {
      assert ts + CalledByName(queue, st, 0) == ts;
    } else {
      NamesGo(b, ts, queue, st, n - 1);
      var before := ts + CalledByName(queue, st, n - 1);
      OneGoes(RunBooth(b, ts), RunBooth(b, before), queue, n - 1, st);
      Next(b, before, Other(queue[n - 1], ToProgress(st)));
      assert ts + CalledByName(queue, st, n) == before + [Other(queue[n - 1], ToProgress(st))];
    }
  }

  function Attempts(op: Operator, st: Stamp, n: nat): seq<Turn> {
    if n == 0 then [] else Attempts(op, st, n - 1) + [CallNow(op, st)]
  }

  /** The operator has lost `n` of them, and nothing else changed. */
  predicate Losing(was: Booth, now: Booth, op: Operator, n: nat) {
    && Tries(was, op) && Tries(now, op) && now.rows == was.rows
    && now.callers[op].asked == was.callers[op].asked && |now.callers[op].at| == n
  }

  lemma LosesOne(was: Booth, now: Booth, op: Operator, st: Stamp, n: nat)
    requires Losing(was, now, op, n) && n < |was.callers[op].asked| && !IsQueued(was.rows, was.callers[op].asked[n])
    ensures Losing(was, Took(now, CallNow(op, st)), op, n + 1)
  {
  }

  /** Trying people who have all gone changes nothing but the count of the tries. */
  lemma {:induction false} LosesThem(b: Booth, ts: seq<Turn>, op: Operator, st: Stamp, n: nat)
    requires var was := RunBooth(b, ts);
             && Losing(was, was, op, 0) && n <= |was.callers[op].asked|
             && forall i :: 0 <= i < n ==> !IsQueued(was.rows, was.callers[op].asked[i])
    ensures Losing(RunBooth(b, ts), RunBooth(b, ts + Attempts(op, st, n)), op, n)
  {
    if n == 0 {
      assert ts + Attempts(op, st, 0) == ts;
    } else {
      LosesThem(b, ts, op, st, n - 1);
      var before := ts + Attempts(op, st, n - 1);
      LosesOne(RunBooth(b, ts), RunBooth(b, before), op, st, n - 1);
      Next(b, before, CallNow(op, st));
      assert ts + Attempts(op, st, n) == before + [CallNow(op, st)];
    }
  }

  /** The operator reads the queue, the five read are called by others, and the operator tries
      all of them. */
  function FiveTaken(op: Operator, listing: seq<User>, queue: seq<User>, st: Stamp): seq<Turn>
    requires |queue| > CANDIDATES
  {
    [Ask(op, listing)] + CalledByName(queue, st, CANDIDATES) + Attempts(op, st, CANDIDATES) + [CallNow(op, st)]
  }

  lemma Reads(b: Booth, op: Operator, listing: seq<User>)
    ensures RunBooth(b, [Ask(op, listing)]) ==
            Booth(b.rows, b.callers[op := Trying(FirstFive(Waiting(b.rows, listing)), [], b.clock)], b.clock + 1)
  {
    assert [Ask(op, listing)][..0] == [];
  }

  /** Whenever more than five wait, an operator can be told that nobody does: the sixth is still
      in the queue. */
  lemma ToldNobodyWhileOneWaits(rows: map<User, Row>, op: Operator, listing: seq<User>, st: Stamp)
    requires Once(listing) && |Waiting(rows, listing)| > CANDIDATES
    ensures var queue := Waiting(rows, listing);
            var end := RunBooth(Booth(rows, map[], 0), FiveTaken(op, listing, queue, st));
            && op in end.callers && end.callers[op].Answered? && end.callers[op].got.None?
            && IsQueued(end.rows, queue[CANDIDATES])
  {
    var b := Booth(rows, map[], 0);
    WaitingOnce(rows, listing);
    var queue := Waiting(rows, listing);
    var asked := [Ask(op, listing)];
    Reads(b, op, listing);
    WaitingAre(rows, listing, queue[CANDIDATES]);
    NamesGo(b, asked, queue, st, CANDIDATES);
    var gone := asked + CalledByName(queue, st, CANDIDATES);
    LosesThem(b, gone, op, st, CANDIDATES);
    Next(b, gone + Attempts(op, st, CANDIDATES), CallNow(op, st));
  }

  const SIX: seq<User> := [0, 1, 2, 3, 4, 5]

  /** Badges handed out at the same time. */
  function AllQueued(us: seq<User>, st: Stamp): map<User, Row> {
    map u | u in us :: Row(Queued, Some(st), None, None, None)
  }

  lemma {:induction false} QueuedAll(rows: map<User, Row>, listing: seq<User>)
    requires forall i :: 0 <= i < |listing| ==> IsQueued(rows, listing[i])
    ensures InQueue(rows, listing) == listing
  {
    if listing == [] {
    } else {
      QueuedAll(rows, listing[..|listing| - 1]);
    }
  }

  /** It does happen, with six in the queue. */
  lemma SixQueuedFiveTaken(op: Operator, st: Stamp)
    ensures var rows := AllQueued(SIX, st);
            var queue := Waiting(rows, SIX);
            |queue| == 6 &&
            var end := RunBooth(Booth(rows, map[], 0), FiveTaken(op, SIX, queue, st));
            && op in end.callers && end.callers[op].Answered? && end.callers[op].got.None?
            && IsQueued(end.rows, queue[5])
  {
    QueuedAll(AllQueued(SIX, st), SIX);
    WaitingOnce(AllQueued(SIX, st), SIX);
    ToldNobodyWhileOneWaits(AllQueued(SIX, st), op, SIX, st);
  }

  /** Alone, the operator never loses: the first try calls the longest waiting. */
  lemma AloneIsFirst(b: Booth, op: Operator, listing: seq<User>, st: Stamp)
    ensures var end := Took(Took(b, Ask(op, listing)), CallNow(op, st));
            var whole := CallNext(World(b.rows, {}), listing, st);
            && end.rows == whole.0.rows
            && (whole.1.Called? ==> end.callers[op].Answered? && end.callers[op].got == Some(whole.1.user))
            && (whole.1.NotFound? ==> end.callers[op].Answered? && end.callers[op].got.None?)
  {
    var queue := Waiting(b.rows, listing);
    if queue != [] {
      WaitingAre(b.rows, listing, queue[0]);
    }
  }

  // ---- the service ---------------------------------------------------------

  /** Other requests write, one after the other. */
  function OthersWrite(b: Booth, writes: seq<(User, Write)>): Booth {
    if writes == [] then b
    else
      var n := |writes| - 1;
      Took(OthersWrite(b, writes[..n]), Other(writes[n].0, writes[n].1))
  }

  /** The first `n` tries of one operator; `others[i]` are the updates of other requests that
      come just before the `i`-th try. */
  function Disturbed(b: Booth, op: Operator, st: Stamp, others: seq<seq<(User, Write)>>, n: nat): Booth
    requires n <= |others|
  {
    if n == 0 then b
    else Took(OthersWrite(Disturbed(b, op, st, others, n - 1), others[n - 1]), CallNow(op, st))
  }

  lemma {:induction false} WritesAreTurns(b: Booth, ts: seq<Turn>, writes: seq<(User, Write)>) returns (more: seq<Turn>)
    ensures RunBooth(b, more) == OthersWrite(RunBooth(b, ts), writes)
    ensures ts <= more && forall k :: |ts| <= k < |more| ==> more[k].Other?
    decreases |writes|
  {
    if writes == [] {
      more := ts;
    } else {
      var n := |writes| - 1;
      var before := WritesAreTurns(b, ts, writes[..n]);
      Next(b, before, Other(writes[n].0, writes[n].1));
      more := before + [Other(writes[n].0, writes[n].1)];
    }
  }

  /** The operator's own turns are the reading, which comes first, and the tries. */
  predicate OnesRun(ts: seq<Turn>, op: Operator, listing: seq<User>, st: Stamp) {
    && ts != [] && ts[0] == Ask(op, listing)
    && forall k :: 1 <= k < |ts| ==> ts[k].Other? || ts[k] == CallNow(op, st)
  }

  lemma OnesGoOn(before: seq<Turn>, more: seq<Turn>, op: Operator, listing: seq<User>, st: Stamp)
    requires OnesRun(before, op, listing, st) && before <= more
    requires forall k :: |before| <= k < |more| ==> more[k].Other?
    ensures OnesRun(more + [CallNow(op, st)], op, listing, st)
  {
    forall k | 1 <= k < |more|
      ensures more[k].Other? || more[k] == CallNow(op, st)
    {
      assert k < |before| ==> more[k] == before[k];
    }
  }

  /** A disturbed loop is a run in which the operator's own turns are the reading and the tries. */
  lemma {:induction false} DisturbedIsRun(b: Booth, op: Operator, listing: seq<User>, st: Stamp,
                                          others: seq<seq<(User, Write)>>, n: nat)
    returns (ts: seq<Turn>)
    requires n <= |others|
    ensures RunBooth(b, ts) == Disturbed(Took(b, Ask(op, listing)), op, st, others, n)
    ensures OnesRun(ts, op, listing, st)
  {
    if n == 0 {
      ts := [Ask(op, listing)];
      assert ts[..0] == [];
    } else {
      var before := DisturbedIsRun(b, op, listing, st, others, n - 1);
      var more := WritesAreTurns(b, before, others[n - 1]);
      Next(b, more, CallNow(op, st));
      OnesGoOn(before, more, op, listing, st);
      ts := more + [CallNow(op, st)];
    }
  }

  /** The operator stands at the next try, having lost `i`. */
  predicate Stands(b: Booth, op: Operator, rows: map<User, Row>, asked: seq<User>, i: nat) {
    b.rows == rows && Tries(b, op) && b.callers[op].asked == asked && |b.callers[op].at| == i
  }

  predicate Told(b: Booth, op: Operator, rows: map<User, Row>, got: Option<User>) {
    b.rows == rows && op in b.callers && b.callers[op].Answered? && b.callers[op].got == got
  }

  lemma StandsThen(b: Booth, op: Operator, rows: map<User, Row>, asked: seq<User>, i: nat, st: Stamp)
    requires Stands(b, op, rows, asked, i)
    ensures i >= |asked| ==> Told(Took(b, CallNow(op, st)), op, rows, None)
    ensures i < |asked| && IsQueued(rows, asked[i]) ==>
              Told(Took(b, CallNow(op, st)), op, Update(rows, asked[i], ToProgress(st)), Some(asked[i]))
    ensures i < |asked| && !IsQueued(rows, asked[i]) ==> Stands(Took(b, CallNow(op, st)), op, rows, asked, i + 1)
  {
  }

  class CallDesk {
    var rows: map<User, Row>

    constructor (rows: map<User, Row>)
      ensures this.rows == rows
    {
      this.rows := rows;
    }

    /** What other requests write meanwhile. */
    method Meanwhile(writes: seq<(User, Write)>, ghost b: Booth, ghost op: Operator, ghost asked: seq<User>,
                     ghost i: nat)
      requires Stands(b, op, rows, asked, i)
      modifies this
      ensures Stands(OthersWrite(b, writes), op, rows, asked, i)
    {
      var k := 0;
      while k < |writes|
        invariant k <= |writes| && Stands(OthersWrite(b, writes[..k]), op, rows, asked, i)
      {
        rows := Update(rows, writes[k].0, writes[k].1);
        assert writes[..k + 1][..k] == writes[..k];
        k := k + 1;
      }
      assert writes[..k] == writes;
    }

    /** `callNext`: the loop over the five candidates, with the updates of others in between. It
        does what a run does in which the operator reads the queue and tries `n` times. */
    method CallTheNext(ghost op: Operator, listing: seq<User>, st: Stamp, others: seq<seq<(User, Write)>>)
      returns (got: Option<User>, ghost n: nat)
      requires |others| == CANDIDATES
      modifies this
      ensures n <= |others|
      ensures var tried := Disturbed(Took(Booth(old(rows), map[], 0), Ask(op, listing)), op, st, others, n);
              Told(if got.None? then Took(tried, CallNow(op, st)) else tried, op, rows, got)
    {
      var candidates := FirstFive(Waiting(rows, listing));
      ghost var b := Took(Booth(rows, map[], 0), Ask(op, listing));
      var i := 0;
      while i < |candidates|
        invariant i <= |candidates|
        invariant Stands(Disturbed(b, op, st, others, i), op, rows, candidates, i)
      {
        ghost var now := Disturbed(b, op, st, others, i);
        Meanwhile(others[i], now, op, candidates, i);
        StandsThen(OthersWrite(now, others[i]), op, rows, candidates, i, st);
        if IsQueued(rows, candidates[i]) {
          rows := Update(rows, candidates[i], ToProgress(st));
          return Some(candidates[i]), i + 1;
        }
        i := i + 1;
      }
      StandsThen(Disturbed(b, op, st, others, i), op, rows, candidates, i, st);
      return None, i;
    }
  }
}
