/** The brake on the current password with many checks at the same time: each reads the table,
    compares the password, which takes a while, and then writes what it read plus one. */
module CurrentPasswordRaces {
  import opened Wrappers
  import opened CurrentPassword

  type Request = nat

  /** A check on its way: `read` is the entry it found. */
  datatype Comparing = Comparing(c: Check, read: Option<Entry>)

  /** `log` has the checks that were compared, in the order they wrote. */
  datatype Booth = Booth(table: Table, comparing: map<Request, Comparing>, log: seq<Check>)

  const EMPTY: Booth := Booth(map[], map[], [])

  datatype Move = Read(q: Request, c: Check) | Write(q: Request)

  function Stepped(b: Booth, m: Move): Booth {
    match m
    case Read(q, c) =>
      if q in b.comparing || Locked(b.table, c) then b
      else b.(comparing := b.comparing[q := Comparing(c, EntryOf(b.table, c.user))])
    case Write(q) =>
      if q !in b.comparing then b
      else
        var c := b.comparing[q].c;
        Booth(Late(b.table, b.comparing[q].read, c), b.comparing - {q}, b.log + [c])
  }

  function RunBooth(b: Booth, ms: seq<Move>): Booth {
    if ms == [] then b else Stepped(RunBooth(b, ms[..|ms| - 1]), ms[|ms| - 1])
  }

  // ---- when the table counts right -----------------------------------------

  predicate Counts(b: Booth, u: User) {
    Agrees(State(b.table, b.log), u)
  }

  /** The table counts the errors of everybody, and no error was compared inside a lock. */
  ghost predicate Good(b: Booth) {
    (forall u: User :: Counts(b, u)) && ErrorsOutside(b.log)
  }

  /** A write is of the right password, or finds the count that was read, and no lock. */
  predicate Safe(b: Booth, m: Move) {
    m.Write? && m.q in b.comparing ==>
      var c := b.comparing[m.q].c;
      c.right || (!Locked(b.table, c) && Counted(b.comparing[m.q].read) == Before(b.table, c.user))
  }

  lemma OthersCount(b: Booth, q: Request, u: User)
    requires Counts(b, u) && q in b.comparing && b.comparing[q].c.user != u
    ensures Counts(Stepped(b, Write(q)), u)
  {
    assert (b.log + [b.comparing[q].c])[..|b.log|] == b.log;
  }

  lemma OwnCounts(b: Booth, q: Request)
    requires q in b.comparing && Counts(b, b.comparing[q].c.user)
    ensures var c := b.comparing[q].c;
            Counts(Stepped(b, Write(q)), c.user) <==>
            c.right || Counted(b.comparing[q].read) == Before(b.table, c.user)
  {
    assert (b.log + [b.comparing[q].c])[..|b.log|] == b.log;
  }

  lemma OutsideExact(b: Booth, c: Check)
    requires Counts(b, c.user) && ErrorsOutside(b.log)
    ensures ErrorsOutside(b.log + [c]) <==> c.right || !Locked(b.table, c)
  {
    var log := b.log + [c];
    assert log[..|b.log|] == b.log;
    forall k | 0 <= k < |b.log| && !log[k].right
      ensures OutsideLock(log, k)
    {
      assert OutsideLock(b.log, k);
      assert log[..k] == b.log[..k];
    }
    assert ErrorsOutside(log) ==> c.right || OutsideLock(log, |b.log|);
  }

  lemma StepExact(b: Booth, m: Move)
    requires Good(b)
    ensures Good(Stepped(b, m)) <==> Safe(b, m)
  {
    match m
    case Read(_, _) =>
      forall u: User
        ensures Counts(Stepped(b, m), u)
      {
        assert Counts(b, u);
      }
    case Write(q) =>
      if q in b.comparing {
        assert Counts(b, b.comparing[q].c.user);
        forall u: User | u != b.comparing[q].c.user
          ensures Counts(Stepped(b, m), u)
        {
          assert Counts(b, u);
          OthersCount(b, q, u);
        }
        OwnCounts(b, q);
        OutsideExact(b, b.comparing[q].c);
      }
  }

  // ---- every interleaving --------------------------------------------------

  ghost predicate GoodAlong(b: Booth, ms: seq<Move>) {
    Good(RunBooth(b, ms)) && (ms != [] ==> GoodAlong(b, ms[..|ms| - 1]))
  }

  predicate SafeAlong(b: Booth, ms: seq<Move>) {
    ms != [] ==> SafeAlong(b, ms[..|ms| - 1]) && Safe(RunBooth(b, ms[..|ms| - 1]), ms[|ms| - 1])
  }

  /** However any number of checks interleave, the table counts right and no error is compared
      inside a lock all along exactly when each write is of the right password, or finds the
      count that its check read, and no lock. */
  lemma {:induction false} RunExact(b: Booth, ms: seq<Move>)
    requires Good(b)
    ensures GoodAlong(b, ms) <==> SafeAlong(b, ms)
  {
    if ms == [] {
    } else {
      var n := |ms| - 1;
      RunExact(b, ms[..n]);
      if GoodAlong(b, ms[..n]) {
        StepExact(RunBooth(b, ms[..n]), ms[n]);
      }
    }
  }

  lemma EmptyGood()
    ensures Good(EMPTY)
  {
    forall u: User
      ensures Counts(EMPTY, u)
    {
    }
  }

  /** Then five is the bound, too, wherever checks wrote in the order they read. */
  lemma SafeIsAtMostFive(ms: seq<Move>, u: User, j: nat, k: nat)
    requires SafeAlong(EMPTY, ms)
    requires j < k < |RunBooth(EMPTY, ms).log| && RunBooth(EMPTY, ms).log[j].user == u
    requires Dated(RunBooth(EMPTY, ms).log[..k + 1], u, j) && Unbroken(RunBooth(EMPTY, ms).log[..k + 1], u, j)
    requires RunBooth(EMPTY, ms).log[k].user == u
    requires RunBooth(EMPTY, ms).log[k].now - RunBooth(EMPTY, ms).log[j].now < LOCK
    ensures WrongFrom(RunBooth(EMPTY, ms).log[..k + 1], u, j) <= TOLERATED
  {
    EmptyGood();
    RunExact(EMPTY, ms);
    var log := RunBooth(EMPTY, ms).log;
    var part := log[..k + 1];
    forall i | j <= i <= k && log[i].user == u
      ensures log[i].now <= log[k].now
    {
      assert part[i] == log[i] && part[k] == log[k];
    }
    WindowHolds(log, u, j, k);
  }

  // ---- undisturbed ---------------------------------------------------------

  lemma TwoMoves(b: Booth, m: Move, n: Move)
    ensures RunBooth(b, [m, n]) == Stepped(Stepped(b, m), n)
  {
    assert [m, n][..1] == [m];
    assert [m][..0] == [];
    assert RunBooth(b, [m]) == Stepped(b, m);
  }

  lemma CheckedAlone(b: Booth, q: Request, c: Check)
    requires q !in b.comparing
    ensures Stepped(Stepped(b, Read(q, c)), Write(q)) ==
            if Locked(b.table, c) then b else Booth(After(b.table, c), b.comparing, b.log + [c])
    ensures Safe(Stepped(b, Read(q, c)), Write(q))
  {
    var read := EntryOf(b.table, c.user);
    assert Counted(read) == Before(b.table, c.user);
    if !Locked(b.table, c) {
      assert b.comparing[q := Comparing(c, read)] - {q} == b.comparing;
      LateExact(b.table, read, c);
    }
  }

  /** A check that nobody disturbs is the whole check, and is safe. */
  lemma WholeCheck(b: Booth, q: Request, c: Check)
    requires q !in b.comparing && c.now >= Clock(b.log)
    ensures var end := RunBooth(b, [Read(q, c), Write(q)]);
            && State(end.table, end.log) == Apply(State(b.table, b.log), c)
            && end.comparing == b.comparing
    ensures Safe(Stepped(b, Read(q, c)), Write(q))
  {
    TwoMoves(b, Read(q, c), Write(q));
    CheckedAlone(b, q, c);
  }

  // ---- a lock lifted by a late write ---------------------------------------

  /** `n` wrong passwords of user 1, each read and written, dated from `first` on. */
  function InARow(first: nat, n: nat): seq<Move> {
    if n == 0 then []
    else
      var i := first + n - 1;
      InARow(first, n - 1) + [Read(i, Check(1, i, false))] + [Write(i)]
  }

  function Errors(first: nat, n: nat): seq<Check> {
    seq(n, i requires 0 <= i < n => Check(1, first + i, false))
  }

  lemma {:induction false} RunsOn(b: Booth, first: seq<Move>, more: seq<Move>)
    ensures RunBooth(b, first + more) == RunBooth(RunBooth(b, first), more)
  {
    if more == [] {
      assert first + more == first;
    } else {
      var n := |more| - 1;
      assert (first + more)[..|first + more| - 1] == first + more[..n];
      RunsOn(b, first, more[..n]);
    }
  }

  function OneEntry(e: Entry): Table {
    map[1 := e]
  }

  /** The table when `count` errors of user 1 are counted, the last read at `at`. */
  function Counting(count: nat, at: Instant): Table {
    if count == 0 then map[] else OneEntry(Entry(count, if count >= TOLERATED then Some(at + LOCK) else None))
  }

  lemma Next(b: Booth, ms: seq<Move>, m: Move)
    ensures RunBooth(b, ms + [m]) == Stepped(RunBooth(b, ms), m)
  {
    assert (ms + [m])[..|ms|] == ms;
  }

  lemma OneMore(b: Booth, before: nat, at: Instant, i: nat)
    requires before < TOLERATED && i !in b.comparing && b.table == Counting(before, at)
    ensures var c := Check(1, i, false);
            Stepped(Stepped(b, Read(i, c)), Write(i)) ==
            Booth(Counting(before + 1, i), b.comparing, b.log + [c])
  {
    var c := Check(1, i, false);
    CheckedAlone(b, i, c);
    assert After(Counting(before, at), c) == Counting(before + 1, i);
  }

  lemma RowSplits(b: Booth, first: nat, n: nat)
    requires n > 0
    ensures var i := first + n - 1;
            RunBooth(b, InARow(first, n)) ==
            Stepped(Stepped(RunBooth(b, InARow(first, n - 1)), Read(i, Check(1, i, false))), Write(i))
  {
    var i := first + n - 1;
    var ms := InARow(first, n - 1);
    Next(b, ms, Read(i, Check(1, i, false)));
    Next(b, ms + [Read(i, Check(1, i, false))], Write(i));
  }

  /** `mid` is where `n` in a row lead from `b`. */
  predicate Leads(b: Booth, before: nat, first: nat, n: nat, mid: Booth) {
    mid == Booth(Counting(before + n, first + n - 1), b.comparing, b.log + Errors(first, n))
  }

  lemma RowGrows(b: Booth, before: nat, first: nat, n: nat, mid: Booth)
    requires before + n < TOLERATED && Leads(b, before, first, n, mid) && first + n !in b.comparing
    ensures var c := Check(1, first + n, false);
            Leads(b, before, first, n + 1, Stepped(Stepped(mid, Read(first + n, c)), Write(first + n)))
  {
    OneMore(mid, before + n, first + n - 1, first + n);
    ErrorsGrow(b.log, first, n + 1);
  }

  /** Up to five in a row are counted, and the fifth locks. */
  lemma {:induction false} RowCounts(b: Booth, before: nat, first: nat, n: nat)
    requires before < TOLERATED && before + n <= TOLERATED && b.table == Counting(before, first - 1)
    requires forall i :: first <= i < first + n ==> i !in b.comparing
    ensures Leads(b, before, first, n, RunBooth(b, InARow(first, n)))
  {
    if n == 0 {
      assert b.log + Errors(first, 0) == b.log;
    } else {
      RowCounts(b, before, first, n - 1);
      RowGrows(b, before, first, n - 1, RunBooth(b, InARow(first, n - 1)));
      RowSplits(b, first, n);
    }
  }

  lemma ErrorsGrow(log: seq<Check>, first: nat, n: nat)
    requires n > 0
    ensures log + Errors(first, n) == log + Errors(first, n - 1) + [Check(1, first + n - 1, false)]
  {
  }

  const LATE: Check := Check(1, 0, false)
  const UP_TO_LOCK: seq<Move> := [Read(0, LATE)] + InARow(1, 5)

  /** One check reads before five errors lock the user, and its late error lifts the lock: ten
      errors are compared within ten milliseconds. */
  lemma LockLifted()
    ensures RunBooth(EMPTY, UP_TO_LOCK).table == map[1 := Entry(5, Some(5 + LOCK))]
    ensures RunBooth(EMPTY, UP_TO_LOCK + [Write(0)]).table == map[1 := Entry(1, None)]
    ensures !Safe(RunBooth(EMPTY, UP_TO_LOCK), Write(0))
    ensures var log := RunBooth(EMPTY, UP_TO_LOCK + [Write(0)] + InARow(6, 4)).log;
            && |log| == 10 && WrongFrom(log, 1, 0) == 10
            && forall k :: 0 <= k < 10 ==> 0 <= log[k].now < 10
  {
    LocksFirst();
    LiftsThen();
    AllWrong(Errors(1, 5) + [LATE] + Errors(6, 4));
  }

  lemma LiftsThen()
    requires RunBooth(EMPTY, UP_TO_LOCK) ==
             Booth(OneEntry(Entry(5, Some(5 + LOCK))), map[0 := Comparing(LATE, None)], Errors(1, 5))
    ensures RunBooth(EMPTY, UP_TO_LOCK + [Write(0)]).table == Counting(1, 5)
    ensures RunBooth(EMPTY, UP_TO_LOCK + [Write(0)] + InARow(6, 4)).log == Errors(1, 5) + [LATE] + Errors(6, 4)
  {
    var lifted := UP_TO_LOCK + [Write(0)];
    assert lifted[..|UP_TO_LOCK|] == UP_TO_LOCK;
    assert map[0 := Comparing(LATE, None)] - {0} == map[];
    assert RunBooth(EMPTY, lifted) == Booth(Counting(1, 5), map[], Errors(1, 5) + [LATE]);
    RunsOn(EMPTY, lifted, InARow(6, 4));
    RowCounts(RunBooth(EMPTY, lifted), 1, 6, 4);
  }

  lemma LocksFirst()
    ensures RunBooth(EMPTY, UP_TO_LOCK) ==
            Booth(OneEntry(Entry(5, Some(5 + LOCK))), map[0 := Comparing(LATE, None)], Errors(1, 5))
  {
    var b := Booth(Counting(0, 0), map[0 := Comparing(LATE, None)], []);
    assert [Read(0, LATE)][..0] == [];
    assert RunBooth(EMPTY, [Read(0, LATE)]) == b;
    RunsOn(EMPTY, [Read(0, LATE)], InARow(1, 5));
    RowCounts(b, 0, 1, 5);
    assert [] + Errors(1, 5) == Errors(1, 5);
  }

  lemma {:induction false} AllWrong(log: seq<Check>)
    requires forall k :: 0 <= k < |log| ==> log[k].user == 1 && !log[k].right
    ensures WrongFrom(log, 1, 0) == |log|
  {
    if log == [] {
    } else {
      AllWrong(log[..|log| - 1]);
    }
  }
}
