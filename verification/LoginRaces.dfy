/** Login attempts at the same time: each is judged on the history it finds and recorded later,
    while others are recorded in between. */
module LoginRaces {
  import opened Wrappers
  import opened LoginBrake

  type Request = nat

  /** An attempt that was let through: what it will record, when it was judged, and how much of
      the history it saw. */
  datatype Judged = Judged(kind: Kind, now: Instant, seen: nat)

  datatype Booth = Booth(history: History, judged: map<Request, Judged>)

  datatype Move =
    | Arrive(q: Request, t: Try)
    | Record(q: Request, at: Instant)
    | Change(at: Instant)

  function Stepped(b: Booth, m: Move): Booth {
    match m
    case Arrive(q, t) =>
      var kind := Recorded(b.history, t);
      if q in b.judged || t.now <= Clock(b.history) || kind.None? then b
      else b.(judged := b.judged[q := Judged(kind.value, t.now, |b.history|)])
    case Record(q, at) =>
      if Records(b, q, at) then Booth(b.history + [Event(at, b.judged[q].kind)], b.judged - {q}) else b
    case Change(at) =>
      if at > Clock(b.history) then b.(history := b.history + [Event(at, PasswordChange)]) else b
  }

  /** Time does not go back. */
  predicate Records(b: Booth, q: Request, at: Instant) {
    q in b.judged && at > Clock(b.history) && at >= b.judged[q].now
  }

  function RunBooth(b: Booth, ms: seq<Move>): Booth {
    if ms == [] then b else Stepped(RunBooth(b, ms[..|ms| - 1]), ms[|ms| - 1])
  }

  // ---- when the bound holds ------------------------------------------------

  /** A wrong password is recorded while fewer than five count. */
  predicate Safe(b: Booth, m: Move) {
    m.Record? && Records(b, m.q, m.at) && b.judged[m.q].kind == WrongPassword ==> Recent(b.history, m.at) < LOCK_AT
  }

  predicate SafeAlong(b: Booth, ms: seq<Move>) {
    ms != [] ==> SafeAlong(b, ms[..|ms| - 1]) && Safe(RunBooth(b, ms[..|ms| - 1]), ms[|ms| - 1])
  }

  lemma Grows(h: History, e: Event)
    requires InOrder(h) && e.at > Clock(h)
    ensures InOrder(h + [e])
    ensures Spaced(h + [e]) <==> Spaced(h) && (e.kind == WrongPassword ==> Recent(h, e.at) < LOCK_AT)
  {
    ResetBounds(h, 0);
    GrowExact(h, e);
  }

  lemma StepExact(b: Booth, m: Move)
    requires InOrder(b.history)
    ensures InOrder(Stepped(b, m).history)
    ensures Spaced(Stepped(b, m).history) <==> Spaced(b.history) && Safe(b, m)
  {
    if m.Record? && Records(b, m.q, m.at) {
      Grows(b.history, Event(m.at, b.judged[m.q].kind));
    } else if m.Change? && m.at > Clock(b.history) {
      Grows(b.history, Event(m.at, PasswordChange));
    } else {
      assert Stepped(b, m).history == b.history;
    }
  }

  /** However any number of attempts interleave: no window holds more than five wrong passwords
      exactly when each was recorded while fewer than five counted. */
  lemma {:induction false} RunExact(b: Booth, ms: seq<Move>)
    requires InOrder(b.history) && Spaced(b.history)
    ensures InOrder(RunBooth(b, ms).history)
    ensures Spaced(RunBooth(b, ms).history) <==> SafeAlong(b, ms)
  {
    if ms == [] {
    } else {
      var n := |ms| - 1;
      RunExact(b, ms[..n]);
      StepExact(RunBooth(b, ms[..n]), ms[n]);
    }
  }

  // ---- who breaks it -------------------------------------------------------

  /** The attempt was let through on the part of the history that it saw. */
  predicate GoodJudged(h: History, j: Judged) {
    && j.seen <= |h| && Clock(h[..j.seen]) < j.now
    && Decide(h[..j.seen], j.now).lockedUntil.None?
  }

  predicate Good(b: Booth) {
    InOrder(b.history) && forall q :: q in b.judged ==> GoodJudged(b.history, b.judged[q])
  }

  lemma SeenStays(h: History, e: Event, j: Judged)
    requires GoodJudged(h, j)
    ensures GoodJudged(h + [e], j)
  {
    assert (h + [e])[..j.seen] == h[..j.seen];
  }

  lemma StepGood(b: Booth, m: Move)
    requires Good(b)
    ensures Good(Stepped(b, m))
  {
    var b' := Stepped(b, m);
    StepExact(b, m);
    forall q | q in b'.judged
      ensures GoodJudged(b'.history, b'.judged[q])
    {
      if q in b.judged {
        assert GoodJudged(b.history, b.judged[q]);
        if b'.history != b.history {
          SeenStays(b.history, b'.history[|b.history|], b.judged[q]);
        }
      } else {
        assert b.history[..|b.history|] == b.history;
      }
    }
  }

  lemma {:induction false} RunGood(b: Booth, ms: seq<Move>)
    requires Good(b)
    ensures Good(RunBooth(b, ms))
  {
    if ms == [] {
    } else {
      RunGood(b, ms[..|ms| - 1]);
      StepGood(RunBooth(b, ms[..|ms| - 1]), ms[|ms| - 1]);
    }
  }

  /** With no wrong password from `seen` on, all that count from `j` on were seen. */
  lemma {:induction false} AllSeen(h: History, seen: nat, j: nat)
    requires seen <= |h| && forall k :: seen <= k < |h| ==> h[k].kind != WrongPassword
    ensures WrongFrom(h[..seen], j) == WrongFrom(h, j)
  {
    if seen == |h| {
      assert h[..seen] == h;
    } else {
      var n := |h| - 1;
      AllSeen(h[..n], seen, j);
      assert h[..n][..seen] == h[..seen];
    }
  }

  /** The bound is broken only by an attempt that another wrong password overtook: one was
      recorded after this attempt was judged and before it was recorded. */
  lemma OnlyOvertaken(b: Booth, ms: seq<Move>, q: Request, at: Instant) returns (k: nat)
    requires Good(b) && !Safe(RunBooth(b, ms), Record(q, at))
    ensures q in RunBooth(b, ms).judged
    ensures RunBooth(b, ms).judged[q].seen <= k < |RunBooth(b, ms).history|
    ensures RunBooth(b, ms).history[k].kind == WrongPassword
  {
    RunGood(b, ms);
    var h := RunBooth(b, ms).history;
    var seen, now := RunBooth(b, ms).judged[q].seen, RunBooth(b, ms).judged[q].now;
    if forall i :: seen <= i < |h| ==> h[i].kind != WrongPassword {
      Crowded(h, seen, now, at);
    }
    k :| seen <= k < |h| && h[k].kind == WrongPassword;
  }

  /** Five that count now and were all seen would have locked the attempt out. */
  lemma Crowded(h: History, seen: nat, now: Instant, at: Instant)
    requires InOrder(h) && seen <= |h| && Clock(h[..seen]) < now <= at
    requires forall i :: seen <= i < |h| ==> h[i].kind != WrongPassword
    requires Recent(h, at) >= LOCK_AT && at > Clock(h)
    ensures Decide(h[..seen], now).lockedUntil.Some?
  {
    MarkIs(h, at);
    var j := NthLast(h, Mark(h, at), at - WINDOW, LOCK_AT);
    AfterReset(h, j);
    AllSeen(h, seen, j);
    assert j < seen;
    assert InOrder(h[..seen]) && Unbroken(h[..seen], j);
    FiveLock(h[..seen], j, now);
  }

  // ---- undisturbed ---------------------------------------------------------

  /** An attempt recorded at the instant it was judged is the whole login, and is safe. */
  lemma WholeLogin(b: Booth, q: Request, t: Try)
    requires q !in b.judged && InOrder(b.history)
    ensures Stepped(Stepped(b, Arrive(q, t)), Record(q, t.now)) == b.(history := Apply(b.history, Login(t)))
    ensures Safe(Stepped(b, Arrive(q, t)), Record(q, t.now))
  {
    var mid := Stepped(b, Arrive(q, t));
    if mid != b {
      assert b.judged[q := mid.judged[q]] - {q} == b.judged;
      ResetBounds(b.history, 0);
      UnlockedIsFew(b.history, t.now);
    }
  }

  /** A password change is one step, and opens the lock. */
  lemma WholeChange(b: Booth, at: Instant)
    requires InOrder(b.history)
    ensures Stepped(b, Change(at)) == b.(history := Apply(b.history, ChangePassword(at)))
    ensures at > Clock(b.history) ==> Decide(Stepped(b, Change(at)).history, at) == Situation(None, false)
  {
    if at > Clock(b.history) {
      Grows(b.history, Event(at, PasswordChange));
      ResetUnlocks(b.history, Event(at, PasswordChange), at);
    }
  }

  // ---- many at once --------------------------------------------------------

  const EMPTY: Booth := Booth([], map[])

  /** A wrong password for an account that exists. */
  const GUESS: Try := Try(1, false, true, false, false)

  function Arrivals(n: nat): seq<Move> {
    if n == 0 then [] else Arrivals(n - 1) + [Arrive(n, GUESS)]
  }

  function Recordings(n: nat): seq<Move> {
    if n == 0 then [] else Recordings(n - 1) + [Record(n, n)]
  }

  /** `k` wrong passwords, one a millisecond. */
  function Guesses(k: nat): History {
    seq(k, i requires 0 <= i < k => Event(i + 1, WrongPassword))
  }

  /** Of `n` attempts judged on the empty history the first `k` have been recorded. */
  ghost predicate Halfway(b: Booth, k: nat, n: nat) {
    && b.history == Guesses(k)
    && (forall q :: q in b.judged <==> k < q <= n)
    && (forall q :: q in b.judged ==> b.judged[q] == Judged(WrongPassword, 1, 0))
  }

  lemma OneArrives(b: Booth, n: nat)
    requires Halfway(b, 0, n)
    ensures Halfway(Stepped(b, Arrive(n + 1, GUESS)), 0, n + 1)
  {
    assert b.history == [];
    assert Decide(b.history, 1) == Situation(None, false);
  }

  lemma OneRecorded(b: Booth, k: nat, n: nat)
    requires Halfway(b, k, n) && k < n
    ensures Halfway(Stepped(b, Record(k + 1, k + 1)), k + 1, n)
  {
    assert Clock(Guesses(k)) == k;
    assert Guesses(k) + [Event(k + 1, WrongPassword)] == Guesses(k + 1);
  }

  lemma Next(b: Booth, ms: seq<Move>, m: Move)
    ensures RunBooth(b, ms + [m]) == Stepped(RunBooth(b, ms), m)
  {
    assert (ms + [m])[..|ms|] == ms;
  }

  lemma {:induction false} AllArrive(n: nat)
    ensures Halfway(RunBooth(EMPTY, Arrivals(n)), 0, n)
  {
    if n == 0 {
    } else {
      AllArrive(n - 1);
      Next(EMPTY, Arrivals(n - 1), Arrive(n, GUESS));
      OneArrives(RunBooth(EMPTY, Arrivals(n - 1)), n - 1);
    }
  }

  lemma {:induction false} AllRecorded(k: nat, n: nat)
    requires k <= n
    ensures Halfway(RunBooth(EMPTY, Arrivals(n) + Recordings(k)), k, n)
  {
    if k == 0 {
      assert Arrivals(n) + Recordings(0) == Arrivals(n);
      AllArrive(n);
    } else {
      AllRecorded(k - 1, n);
      var before := Arrivals(n) + Recordings(k - 1);
      Next(EMPTY, before, Record(k, k));
      assert Arrivals(n) + Recordings(k) == before + [Record(k, k)];
      OneRecorded(RunBooth(EMPTY, before), k - 1, n);
    }
  }

  lemma {:induction false} AllWrong(n: nat)
    ensures WrongFrom(Guesses(n), 0) == n
  {
    if n == 0 {
    } else {
      assert Guesses(n)[..n - 1] == Guesses(n - 1);
      AllWrong(n - 1);
    }
  }

  /** Any number of attempts judged together pass the lock: all are recorded within as many
      milliseconds, and six are already one too many. */
  lemma TogetherTheyPass(n: nat)
    requires LOCK_AT < n < WINDOW
    ensures var end := RunBooth(EMPTY, Arrivals(n) + Recordings(n));
            end.history == Guesses(n) && WrongFrom(end.history, 0) == n && !Spaced(end.history)
  {
    AllRecorded(n, n);
    AllWrong(n);
    var h := Guesses(n);
    assert h[..n] == h;
    assert h[0] == Event(1, WrongPassword) && h[n - 1] == Event(n, WrongPassword);
    assert Unbroken(h, 0);
    assert SixthAt(h, 0, n - 1);
    assert !SpacedAt(h, 0, n - 1);
  }
}
