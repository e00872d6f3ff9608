/** The second brake: asking for the current password of somebody already logged in.
    One table in memory counts the errors of every user; five lock that user out for
    fifteen minutes. Here checks come one after the other; `CurrentPasswordRaces` takes the
    reading and the writing of many checks apart. */
module CurrentPassword {
  import opened Wrappers

  type User = nat
  type Instant = int

  /** `ERROS_TOLERADOS`, `TRAVA_MS` */
  const TOLERATED: nat := 5
  const LOCK: int := 900_000

  datatype Entry = Entry(count: nat, lockedUntil: Option<Instant>)
  type Table = map<User, Entry>

  datatype Answer = TooMany | Accepted | Wrong

  /** A check of the current password; `right` is what the comparison says. */
  datatype Check = Check(user: User, now: Instant, right: bool)

  predicate Locked(t: Table, c: Check) {
    c.user in t && t[c.user].lockedUntil.Some? && t[c.user].lockedUntil.value > c.now
  }

  function Answered(t: Table, c: Check): Answer {
    if Locked(t, c) then TooMany else if c.right then Accepted else Wrong
  }

  /** An expired lock starts the count over. */
  function Before(t: Table, u: User): nat {
    if u in t && t[u].lockedUntil.None? then t[u].count else 0
  }

  function After(t: Table, c: Check): Table {
    if Locked(t, c) then t
    else if c.right then t - {c.user}
    else
      var count := Before(t, c.user) + 1;
      t[c.user := Entry(count, if count >= TOLERATED then Some(c.now + LOCK) else None)]
  }

  // ---- runs ----------------------------------------------------------------

  /** The table, and the checks that were compared (not refused), oldest first. */
  datatype State = State(table: Table, log: seq<Check>)

  function Clock(log: seq<Check>): Instant {
    if log == [] then 0 else log[|log| - 1].now
  }

  /** Time does not go back; a check dated before the last one is not a step. */
  function Apply(s: State, c: Check): State {
    if c.now < Clock(s.log) || Answered(s.table, c).TooMany? then s
    else State(After(s.table, c), s.log + [c])
  }

  function Run(checks: seq<Check>): State {
    if checks == [] then State(map[], []) else Apply(Run(checks[..|checks| - 1]), checks[|checks| - 1])
  }

  // ---- what the log says ---------------------------------------------------

  /** The errors of `u` since the last success, five at a time. */
  function Streak(log: seq<Check>, u: User): (n: nat)
    ensures n <= TOLERATED
  {
    if log == [] then 0
    else
      var last := log[|log| - 1];
      var before := Streak(log[..|log| - 1], u);
      if last.user != u then before
      else if last.right then 0
      else if before == TOLERATED then 1
      else before + 1
  }

  /** When `u` was last compared. */
  function LastAt(log: seq<Check>, u: User): Instant {
    if log == [] then 0
    else if log[|log| - 1].user == u then log[|log| - 1].now
    else LastAt(log[..|log| - 1], u)
  }

  /** The errors of `u` at or after position `j`. */
  function WrongFrom(log: seq<Check>, u: User, j: nat): nat {
    if |log| <= j then 0
    else WrongFrom(log[..|log| - 1], u, j) + if log[|log| - 1].user == u && !log[|log| - 1].right then 1 else 0
  }

  predicate Unbroken(log: seq<Check>, u: User, j: nat) {
    forall k :: j <= k < |log| ==> !(log[k].user == u && log[k].right)
  }

  predicate InOrder(log: seq<Check>) {
    forall j, k :: 0 <= j < k < |log| ==> log[j].now <= log[k].now
  }

  /** The entry the log of `u` calls for. */
  predicate Agrees(s: State, u: User) {
    var n := Streak(s.log, u);
    if n == 0 then u !in s.table
    else u in s.table && s.table[u] == Entry(n, if n == TOLERATED then Some(LastAt(s.log, u) + LOCK) else None)
  }

  /** The comparison at `k` did not happen inside a lock. */
  predicate OutsideLock(log: seq<Check>, k: nat)
    requires k < |log|
  {
    Streak(log[..k], log[k].user) == TOLERATED ==> log[k].now >= LastAt(log[..k], log[k].user) + LOCK
  }

  ghost predicate Inv(s: State) {
    && InOrder(s.log)
    && (forall u: User :: Agrees(s, u))
    && (forall k :: 0 <= k < |s.log| ==> OutsideLock(s.log, k))
  }

  lemma StepAgrees(s: State, c: Check, u: User)
    requires Agrees(s, u) && Agrees(s, c.user)
    ensures Agrees(Apply(s, c), u)
  {
    if Apply(s, c) != s {
      assert (s.log + [c])[..|s.log|] == s.log;
    }
  }

  lemma StepOutside(s: State, c: Check, k: nat)
    requires Inv(s) && k < |Apply(s, c).log|
    ensures OutsideLock(Apply(s, c).log, k)
  {
    var log := Apply(s, c).log;
    if k < |s.log| {
      assert OutsideLock(s.log, k);
      assert log[..k] == s.log[..k];
    } else {
      assert log[..k] == s.log;
      assert Agrees(s, c.user);
    }
  }

  lemma StepKeeps(s: State, c: Check)
    requires Inv(s)
    ensures Inv(Apply(s, c))
  {
    forall u: User
      ensures Agrees(Apply(s, c), u)
    {
      StepAgrees(s, c, u);
    }
    forall k | 0 <= k < |Apply(s, c).log|
      ensures OutsideLock(Apply(s, c).log, k)
    {
      StepOutside(s, c, k);
    }
  }

  lemma {:induction false} RunKeeps(checks: seq<Check>)
    ensures Inv(Run(checks))
  {
    if checks == [] {
      assert forall u: User :: Agrees(State(map[], []), u);
    } else {
      RunKeeps(checks[..|checks| - 1]);
      StepKeeps(Run(checks[..|checks| - 1]), checks[|checks| - 1]);
    }
  }

  // ---- no more than five in a window ---------------------------------------

  /** The checks of `u` from position `j` on are dated in the order of the log. */
  predicate Dated(log: seq<Check>, u: User, j: nat) {
    forall i, k :: j <= i < k < |log| && log[i].user == u && log[k].user == u ==> log[i].now <= log[k].now
  }

  /** No error was compared inside a lock. */
  predicate ErrorsOutside(log: seq<Check>) {
    forall k :: 0 <= k < |log| && !log[k].right ==> OutsideLock(log, k)
  }

  lemma {:induction false} LastAtLeast(log: seq<Check>, u: User, j: nat)
    requires j < |log| && log[j].user == u && Dated(log, u, j)
    ensures log[j].now <= LastAt(log, u)
  {
    if log[|log| - 1].user != u {
      LastAtLeast(log[..|log| - 1], u, j);
    }
  }

  lemma ErrorsOutsideShorter(log: seq<Check>)
    requires log != [] && ErrorsOutside(log)
    ensures ErrorsOutside(log[..|log| - 1])
  {
    var before := log[..|log| - 1];
    forall k | 0 <= k < |before| && !before[k].right
      ensures OutsideLock(before, k)
    {
      assert OutsideLock(log, k);
      assert before[..k] == log[..k];
    }
  }

  /** As long as the window that opened at `j` is open, no lock ran out in it, so the
      streak counts every error from `j` on. */
  lemma {:induction false} StreakCounts(log: seq<Check>, u: User, j: nat)
    requires Dated(log, u, j) && Unbroken(log, u, j) && ErrorsOutside(log)
    requires j < |log| ==> log[j].user == u
    requires forall k :: j <= k < |log| && log[k].user == u ==> log[k].now - log[j].now < LOCK
    ensures Streak(log, u) >= WrongFrom(log, u, j)
  {
    if j < |log| {
      var before := log[..|log| - 1];
      ErrorsOutsideShorter(log);
      StreakCounts(before, u, j);
      if log[|log| - 1].user == u && j < |before| {
        LastAtLeast(before, u, j);
        assert OutsideLock(log, |log| - 1);
      }
    }
  }

  /** With no error inside a lock, no half-open window of fifteen minutes between two
      successes holds more than five. */
  lemma WindowHolds(log: seq<Check>, u: User, j: nat, k: nat)
    requires ErrorsOutside(log) && j < k < |log| && log[j].user == u
    requires Dated(log[..k + 1], u, j) && Unbroken(log[..k + 1], u, j)
    requires forall i :: j <= i <= k && log[i].user == u ==> log[i].now - log[j].now < LOCK
    ensures WrongFrom(log[..k + 1], u, j) <= TOLERATED
  {
    var part := log[..k + 1];
    forall i | 0 <= i < |part| && !part[i].right
      ensures OutsideLock(part, i)
    {
      assert OutsideLock(log, i);
      assert part[..i] == log[..i];
    }
    StreakCounts(part, u, j);
  }

  /** Over every run, between two successes no half-open window of fifteen minutes holds
      more than five errors of the same user. */
  lemma AtMostFive(checks: seq<Check>, u: User, j: nat, k: nat)
    requires j < k < |Run(checks).log| && Run(checks).log[j].user == u
    requires Unbroken(Run(checks).log[..k + 1], u, j)
    requires Run(checks).log[k].now - Run(checks).log[j].now < LOCK
    ensures WrongFrom(Run(checks).log[..k + 1], u, j) <= TOLERATED
  {
    RunKeeps(checks);
    WindowHolds(Run(checks).log, u, j, k);
  }

  // ---- the lock, and nobody else's -----------------------------------------

  /** A check is refused exactly within fifteen minutes of the fifth error in a row. */
  lemma RefusedWhen(checks: seq<Check>, c: Check)
    ensures Answered(Run(checks).table, c).TooMany? <==>
            Streak(Run(checks).log, c.user) == TOLERATED && c.now < LastAt(Run(checks).log, c.user) + LOCK
  {
    RunKeeps(checks);
    assert Agrees(Run(checks), c.user);
  }

  /** Any other check is answered by the password. */
  lemma AnsweredExactly(checks: seq<Check>, c: Check)
    ensures var locked := Streak(Run(checks).log, c.user) == 5 && c.now < LastAt(Run(checks).log, c.user) + 900_000;
            && (Answered(Run(checks).table, c) == TooMany <==> locked)
            && (Answered(Run(checks).table, c) == Accepted <==> !locked && c.right)
            && (Answered(Run(checks).table, c) == Wrong <==> !locked && !c.right)
  {
    RefusedWhen(checks, c);
  }

  // ---- checks at the same time ---------------------------------------------

  function EntryOf(t: Table, u: User): Option<Entry> {
    if u in t then Some(t[u]) else None
  }

  /** The errors an entry that was read still counts: an expired lock starts over. */
  function Counted(read: Option<Entry>): nat {
    if read.Some? && read.value.lockedUntil.None? then read.value.count else 0
  }

  /** The entry after one more error. */
  function Erred(before: nat, now: Instant): Entry {
    Entry(before + 1, if before + 1 >= TOLERATED then Some(now + LOCK) else None)
  }

  /** The write of a check that read the entry before comparing the password. */
  function Late(t: Table, read: Option<Entry>, c: Check): Table {
    if c.right then t - {c.user} else t[c.user := Erred(Counted(read), c.now)]
  }

  /** The table may have changed while the password was compared. The late write is the one
      an undisturbed check would make exactly when the user is not locked meanwhile, and the
      password was right or the count to go on from is still the one that was read; of a user
      locked meanwhile only the very entry that is there changes nothing. */
  lemma LateExact(t: Table, read: Option<Entry>, c: Check)
    ensures Late(t, read, c) == After(t, c) <==>
            if Locked(t, c) then EntryOf(t, c.user) == Some(Erred(Counted(read), c.now)) && !c.right
            else c.right || Counted(read) == Before(t, c.user)
  {
    var late := Late(t, read, c);
    if c.right {
      assert Locked(t, c) ==> c.user !in late && c.user in After(t, c);
    } else {
      assert late[c.user] == Erred(Counted(read), c.now);
      if Locked(t, c) {
        assert t[c.user] == late[c.user] ==> late == t;
      } else {
        assert After(t, c)[c.user] == Erred(Before(t, c.user), c.now);
      }
    }
  }

  function LateAll(t: Table, read: Option<Entry>, checks: seq<Check>): Table {
    if checks == [] then t else Late(LateAll(t, read, checks[..|checks| - 1]), read, checks[|checks| - 1])
  }

  /** However many errors are compared at once, they count as one. */
  lemma {:induction false} ParallelErrorsCountOnce(t: Table, u: User, checks: seq<Check>)
    requires u !in t && checks != [] && forall k :: 0 <= k < |checks| ==> checks[k].user == u && !checks[k].right
    ensures LateAll(t, None, checks) == t[u := Entry(1, None)]
  {
    var n := |checks| - 1;
    if n == 0 {
      assert checks[..0] == [];
    } else {
      ParallelErrorsCountOnce(t, u, checks[..n]);
    }
  }

  // ---- the service ---------------------------------------------------------

  class CurrentPasswordBrake {
    var errors: Table

    constructor ()
      ensures errors == map[]
    {
      errors := map[];
    }

    /** `conferirSenhaAtual` */
    method CheckCurrentPassword(c: Check) returns (answer: Answer)
      modifies this
      ensures errors == After(old(errors), c)
      ensures answer == Answered(old(errors), c)
    {
      var entry := if c.user in errors then Some(errors[c.user]) else None;
      if entry.Some? && entry.value.lockedUntil.Some? && entry.value.lockedUntil.value > c.now {
        return TooMany;
      }
      if c.right {
        errors := errors - {c.user};
        return Accepted;
      }
      var before := if entry.None? || entry.value.lockedUntil.Some? then 0 else entry.value.count;
      var count := before + 1;
      errors := errors[c.user := Entry(count, if count >= TOLERATED then Some(c.now + LOCK) else None)];
      return Wrong;
    }
  }
}
