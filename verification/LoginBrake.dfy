/** The brake on repeated wrong passwords, per document. The attempts and the password
    changes of one document are kept in one history, oldest first; times strictly grow. Here
    an attempt is judged and recorded at the same instant; `LoginRaces` takes the two apart. */
module LoginBrake {
  import opened Wrappers

  type Instant = int

  /** `FALHAS_PARA_CAPTCHA`, `FALHAS_PARA_BLOQUEIO`, `JANELA_MS` */
  const CAPTCHA_AT: nat := 2
  const LOCK_AT: nat := 5
  const WINDOW: int := 900_000

  datatype Kind = WrongPassword | UserNotFound | AccountBlocked | LoggedIn | PasswordChange
  datatype Event = Event(at: Instant, kind: Kind)
  type History = seq<Event>

  datatype Situation = Situation(lockedUntil: Option<Instant>, captcha: bool)

  // ---- the decision --------------------------------------------------------

  /** How many of the failures are after `t`. */
  function CountAfter(failures: seq<Instant>, t: Instant): (n: nat)
    ensures n <= |failures|
  {
    if failures == [] then 0
    else CountAfter(failures[1..], t) + if failures[0] > t then 1 else 0
  }

  /** `situacaoDoLogin`: `failures` newest first. */
  function Judge(failures: seq<Instant>, now: Instant): Situation {
    if failures != [] && CountAfter(failures, failures[0] - WINDOW) >= LOCK_AT && now < failures[0] + WINDOW then
      Situation(Some(failures[0] + WINDOW), true)
    else Situation(None, CountAfter(failures, now - WINDOW) >= CAPTCHA_AT)
  }

  /** The wrong passwords after `since`, newest first. */
  function Failures(h: History, since: Instant): seq<Instant> {
    if h == [] then []
    else
      var last := h[|h| - 1];
      var before := Failures(h[..|h| - 1], since);
      if last.kind == WrongPassword && last.at > since then [last.at] + before else before
  }

  /** The last event of a kind at or after `from`; 0 when there is none. */
  function LastOf(h: History, kind: Kind, from: Instant): Instant {
    if h == [] then 0
    else
      var last := h[|h| - 1];
      if last.kind == kind && last.at >= from then last.at else LastOf(h[..|h| - 1], kind, from)
  }

  function Max(a: int, b: int): int {
    if a < b then b else a
  }

  /** `marco`: two windows back, or the last success in them, or the last password
      change, whichever is latest. */
  function Mark(h: History, now: Instant): Instant {
    Max(now - 2 * WINDOW, Max(LastOf(h, LoggedIn, now - 2 * WINDOW), LastOf(h, PasswordChange, 0)))
  }

  /** `situacao`: the decision, and the failures that count for the next one. */
  function Decide(h: History, now: Instant): Situation {
    Judge(Failures(h, Mark(h, now)), now)
  }

  function Recent(h: History, now: Instant): nat {
    CountAfter(Failures(h, Mark(h, now)), now - WINDOW)
  }

  // ---- a login -------------------------------------------------------------

  /** What `validateUser` finds out on the way. */
  datatype Try = Try(now: Instant, captchaOk: bool, userExists: bool, passwordOk: bool, accountBlocked: bool)

  datatype Answer =
    | Locked(until: Instant)
    | CaptchaFirst
    | NoSuchUser
    | Blocked
    | Entered
    | NowLocked(until: Instant)
    | Wrong(captcha: bool)

  /** What an attempt leaves in the history. */
  function Recorded(h: History, t: Try): Option<Kind> {
    var s := Decide(h, t.now);
    if s.lockedUntil.Some? || (s.captcha && !t.captchaOk) then None
    else if !t.userExists then Some(UserNotFound)
    else if t.passwordOk then Some(if t.accountBlocked then AccountBlocked else LoggedIn)
    else Some(WrongPassword)
  }

  function After(h: History, t: Try): History {
    var kind := Recorded(h, t);
    if kind.Some? then h + [Event(t.now, kind.value)] else h
  }

  /** `validateUser`: what the person is told. */
  function Told(h: History, t: Try): Answer {
    var s := Decide(h, t.now);
    if s.lockedUntil.Some? then Locked(s.lockedUntil.value)
    else if s.captcha && !t.captchaOk then CaptchaFirst
    else if !t.userExists then NoSuchUser
    else if t.passwordOk then if t.accountBlocked then Blocked else Entered
    else
      var failures := Recent(h, t.now) + 1;
      if failures >= LOCK_AT then NowLocked(t.now + WINDOW) else Wrong(failures >= CAPTCHA_AT)
  }

  datatype Step = Login(t: Try) | ChangePassword(now: Instant)

  function Clock(h: History): Instant {
    if h == [] then 0 else h[|h| - 1].at
  }

  /** Steps come one after the other; one that does not come later is not a step. */
  function Apply(h: History, op: Step): History {
    match op
    case Login(t) => if t.now > Clock(h) then After(h, t) else h
    case ChangePassword(now) => if now > Clock(h) then h + [Event(now, PasswordChange)] else h
  }

  function Run(h: History, ops: seq<Step>): History {
    if ops == [] then h else Apply(Run(h, ops[..|ops| - 1]), ops[|ops| - 1])
  }

  // ---- counting ------------------------------------------------------------

  predicate InOrder(h: History) {
    && (forall k :: 0 <= k < |h| ==> h[k].at > 0)
    && (forall j, k :: 0 <= j < k < |h| ==> h[j].at < h[k].at)
  }

  predicate Resets(e: Event) {
    e.kind == LoggedIn || e.kind == PasswordChange
  }

  /** When the failures last stopped counting; 0 when they never did. */
  function LastReset(h: History): Instant {
    if h == [] then 0 else if Resets(h[|h| - 1]) then h[|h| - 1].at else LastReset(h[..|h| - 1])
  }

  /** The wrong passwords at or after position `j`. */
  function WrongFrom(h: History, j: nat): nat {
    if |h| <= j then 0 else WrongFrom(h[..|h| - 1], j) + if h[|h| - 1].kind == WrongPassword then 1 else 0
  }

  /** Nothing resets the count at or after position `j`. */
  predicate Unbroken(h: History, j: nat) {
    forall k :: j <= k < |h| ==> !Resets(h[k])
  }

  lemma {:induction false} ResetBounds(h: History, from: Instant)
    requires InOrder(h)
    ensures 0 <= LastReset(h) <= Clock(h)
    ensures 0 <= LastOf(h, LoggedIn, from) <= LastReset(h) && 0 <= LastOf(h, PasswordChange, from) <= LastReset(h)
    ensures LastReset(h) >= from ==> LastReset(h) == Max(LastOf(h, LoggedIn, from), LastOf(h, PasswordChange, from))
  {
    if h == [] {
    } else {
      ResetBounds(h[..|h| - 1], from);
    }
  }

  lemma {:induction false} LastOfFrom(h: History, kind: Kind, from: Instant)
    requires InOrder(h)
    ensures LastOf(h, kind, 0) >= from ==> LastOf(h, kind, from) == LastOf(h, kind, 0) || from <= 0
    ensures LastOf(h, kind, 0) < from ==> LastOf(h, kind, from) == 0
  {
    if h == [] {
    } else {
      LastOfFrom(h[..|h| - 1], kind, from);
      LastBelow(h[..|h| - 1], kind, from);
    }
  }

  lemma {:induction false} LastBelow(h: History, kind: Kind, from: Instant)
    requires InOrder(h)
    ensures Clock(h) < from ==> LastOf(h, kind, from) == 0
  {
    if h == [] {
    } else {
      LastBelow(h[..|h| - 1], kind, from);
    }
  }

  /** The mark is the last reset, cut two windows back. */
  lemma MarkIs(h: History, now: Instant)
    requires InOrder(h)
    ensures now - 2 * WINDOW > 0 ==> Mark(h, now) == Max(now - 2 * WINDOW, LastReset(h))
    ensures now - 2 * WINDOW <= 0 ==> Mark(h, now) == LastReset(h)
  {
    var from := now - 2 * WINDOW;
    ResetBounds(h, from);
    ResetBounds(h, 0);
    LastOfFrom(h, LoggedIn, from);
    LastOfFrom(h, PasswordChange, from);
  }

  lemma {:induction false} FailuresOrdered(h: History, since: Instant)
    requires InOrder(h)
    ensures forall k :: 0 <= k < |Failures(h, since)| ==> since < Failures(h, since)[k] <= Clock(h)
    ensures forall j, k :: 0 <= j < k < |Failures(h, since)| ==> Failures(h, since)[j] > Failures(h, since)[k]
  {
    if h == [] {
    } else {
      FailuresOrdered(h[..|h| - 1], since);
    }
  }

  lemma {:induction false} NoneSince(h: History, since: Instant)
    requires InOrder(h) && Clock(h) <= since
    ensures Failures(h, since) == []
  {
    if h == [] {
    } else {
      NoneSince(h[..|h| - 1], since);
    }
  }

  // ---- the pruned history decides as the full one --------------------------

  /** A count that starts at or after `m` does not see what `m` cuts off. */
  lemma {:induction false} CutUnseen(h: History, since: Instant, m: Instant, t: Instant)
    requires InOrder(h) && since <= m <= t
    ensures CountAfter(Failures(h, m), t) == CountAfter(Failures(h, since), t)
  {
    if h == [] {
    } else {
      var rest := h[..|h| - 1];
      CutUnseen(rest, since, m, t);
      var last := h[|h| - 1];
      if last.kind == WrongPassword {
        assert ([last.at] + Failures(rest, m))[1..] == Failures(rest, m);
        assert ([last.at] + Failures(rest, since))[1..] == Failures(rest, since);
      }
    }
  }

  /** The newest failure survives the cut unless it is older than it. */
  lemma {:induction false} CutKeepsNewest(h: History, since: Instant, m: Instant)
    requires InOrder(h) && since <= m
    ensures Failures(h, m) != [] ==> Failures(h, since) != [] && Failures(h, since)[0] == Failures(h, m)[0]
    ensures Failures(h, m) == [] && Failures(h, since) != [] ==> Failures(h, since)[0] <= m
  {
    if h != [] && !(h[|h| - 1].kind == WrongPassword && h[|h| - 1].at > m) {
      var rest := h[..|h| - 1];
      CutKeepsNewest(rest, since, m);
      if h[|h| - 1].kind == WrongPassword {
        FailuresOrdered(h, m);
        FailuresOrdered(rest, m);
      }
    }
  }

  lemma JudgeCut(h: History, since: Instant, now: Instant)
    requires InOrder(h) && since <= now - 2 * WINDOW
    ensures Judge(Failures(h, now - 2 * WINDOW), now) == Judge(Failures(h, since), now)
  {
    var m := now - 2 * WINDOW;
    CutUnseen(h, since, m, now - WINDOW);
    CutKeepsNewest(h, since, m);
    var full := Failures(h, since);
    if full != [] && now < full[0] + WINDOW {
      CutUnseen(h, since, m, full[0] - WINDOW);
    }
  }

  /** Two windows are enough: looking only at them, and only after the last success seen
      in them, the decision is the one the whole history since the last reset gives. */
  lemma PrunedDecidesAsFull(h: History, now: Instant)
    requires InOrder(h)
    ensures Decide(h, now) == Judge(Failures(h, LastReset(h)), now)
  {
    MarkIs(h, now);
    ResetBounds(h, 0);
    if now - 2 * WINDOW > LastReset(h) {
      JudgeCut(h, LastReset(h), now);
    }
  }

  // ---- no more than five in a window ---------------------------------------

  lemma {:induction false} ResetBefore(h: History, j: nat)
    requires InOrder(h) && j < |h| && Unbroken(h, j)
    ensures LastReset(h) < h[j].at
  {
    var rest := h[..|h| - 1];
    assert !Resets(h[|h| - 1]);
    if j < |rest| {
      ResetBefore(rest, j);
    } else {
      ResetBounds(rest, 0);
    }
  }

  /** Every wrong password from `j` on is counted when `j` itself is late enough. */
  lemma {:induction false} CountsFrom(h: History, j: nat, since: Instant, t: Instant)
    requires InOrder(h)
    requires j < |h| ==> h[j].at > since && h[j].at > t
    ensures CountAfter(Failures(h, since), t) >= WrongFrom(h, j)
  {
    if j < |h| {
      var rest := h[..|h| - 1];
      CountsFrom(rest, j, since, t);
      var last := h[|h| - 1];
      assert last.at >= h[j].at;
      if last.kind == WrongPassword {
        assert ([last.at] + Failures(rest, since))[1..] == Failures(rest, since);
      }
    }
  }

  lemma {:induction false} NewestIs(h: History, j: nat, since: Instant)
    requires InOrder(h) && j < |h| && h[j].kind == WrongPassword && h[j].at > since
    ensures Failures(h, since) != [] && h[j].at <= Failures(h, since)[0] <= Clock(h)
  {
    FailuresOrdered(h, since);
    if j < |h| - 1 {
      NewestIs(h[..|h| - 1], j, since);
    }
  }

  /** Five wrong passwords inside the last window lock the next attempt out. */
  lemma FiveLock(h: History, j: nat, now: Instant)
    requires InOrder(h) && Clock(h) < now
    requires j < |h| && h[j].kind == WrongPassword && Unbroken(h, j) && WrongFrom(h, j) >= LOCK_AT
    requires now - h[j].at < WINDOW
    ensures Decide(h, now).lockedUntil.Some?
  {
    PrunedDecidesAsFull(h, now);
    ResetBefore(h, j);
    var since := LastReset(h);
    NewestIs(h, j, since);
    CountsFrom(h, j, since, Failures(h, since)[0] - WINDOW);
  }

  /** `k` is at least the sixth wrong password from `j` on, with nothing resetting the count. */
  predicate SixthAt(h: History, j: nat, k: nat)
    requires j < k < |h|
  {
    && h[j].kind == WrongPassword && h[k].kind == WrongPassword
    && Unbroken(h[..k + 1], j) && WrongFrom(h[..k + 1], j) > LOCK_AT
  }

  /** With nothing resetting the count from `j` to `k`, a sixth wrong password comes
      at least a window after the first of the six. */
  predicate SpacedAt(h: History, j: nat, k: nat)
    requires j < k < |h|
  {
    SixthAt(h, j, k) ==> h[k].at - h[j].at >= WINDOW
  }

  predicate Spaced(h: History) {
    forall j, k :: 0 <= j < k < |h| ==> SpacedAt(h, j, k)
  }

  /** The oldest of `n` failures that count after `t`. */
  lemma {:induction false} NthLast(h: History, since: Instant, t: Instant, n: nat) returns (j: nat)
    requires InOrder(h) && 1 <= n <= CountAfter(Failures(h, since), t)
    ensures j < |h| && h[j].kind == WrongPassword && h[j].at > since && h[j].at > t
    ensures WrongFrom(h, j) >= n
  {
    var rest := h[..|h| - 1];
    var last := h[|h| - 1];
    if last.kind == WrongPassword && last.at > since {
      assert ([last.at] + Failures(rest, since))[1..] == Failures(rest, since);
      if last.at > t && n == 1 {
        j := |h| - 1;
      } else {
        j := NthLast(rest, since, t, if last.at > t then n - 1 else n);
      }
    } else {
      j := NthLast(rest, since, t, n);
    }
  }

  lemma {:induction false} AfterReset(h: History, j: nat)
    requires InOrder(h) && j < |h| && h[j].at > LastReset(h)
    ensures Unbroken(h, j)
  {
    var n := |h| - 1;
    if j < n && !Resets(h[n]) {
      AfterReset(h[..n], j);
    }
  }

  /** Recording a wrong password keeps the bound exactly when fewer than five count at that
      moment, whenever the attempt was judged. */
  lemma RecordExact(h: History, now: Instant)
    requires InOrder(h) && Spaced(h) && now > Clock(h) && now > 0
    ensures InOrder(h + [Event(now, WrongPassword)])
    ensures Spaced(h + [Event(now, WrongPassword)]) <==> Recent(h, now) < LOCK_AT
  {
    var e := Event(now, WrongPassword);
    var after := h + [e];
    MarkIs(h, now);
    if Recent(h, now) < LOCK_AT {
      forall j, k | 0 <= j < k < |after|
        ensures SpacedAt(after, j, k)
      {
        if k < |h| {
          assert SpacedAt(h, j, k);
          assert after[..k + 1] == h[..k + 1];
        } else {
          FewKeepSpaced(h, now, j);
        }
      }
    } else {
      var j := NthLast(h, Mark(h, now), now - WINDOW, LOCK_AT);
      AfterReset(h, j);
      assert Unbroken(after, j);
      assert after[..|after| - 1] == h && after[..|h| + 1] == after;
      assert !SpacedAt(after, j, |h|);
    }
  }

  lemma FewKeepSpaced(h: History, now: Instant, j: nat)
    requires InOrder(h) && now > Clock(h) && now > 0 && j < |h| && Recent(h, now) < LOCK_AT
    ensures SpacedAt(h + [Event(now, WrongPassword)], j, |h|)
  {
    var e := Event(now, WrongPassword);
    var after := h + [e];
    assert after[..|h| + 1] == after && after[..|after| - 1] == h;
    if h[j].kind == WrongPassword && Unbroken(after, j) && now - h[j].at < WINDOW {
      UnbrokenShorter(h, e, j);
      ResetBefore(h, j);
      MarkIs(h, now);
      CountsFrom(h, j, Mark(h, now), now - WINDOW);
    }
  }

  /** An attempt that is not locked out finds fewer than five. */
  lemma UnlockedIsFew(h: History, now: Instant)
    requires InOrder(h) && now > Clock(h) && Decide(h, now).lockedUntil.None?
    ensures Recent(h, now) < LOCK_AT
  {
    var failures := Failures(h, Mark(h, now));
    FailuresOrdered(h, Mark(h, now));
    if failures != [] {
      CountsMore(failures, failures[0] - WINDOW, now - WINDOW);
      if now - WINDOW >= failures[0] {
        NoneAfter(failures, now - WINDOW);
      }
    }
  }

  lemma {:induction false} NoneAfter(failures: seq<Instant>, t: Instant)
    requires forall k :: 0 <= k < |failures| ==> failures[k] <= t
    ensures CountAfter(failures, t) == 0
  {
    if failures == [] {
    } else {
      NoneAfter(failures[1..], t);
    }
  }

  lemma {:induction false} CountsMore(failures: seq<Instant>, t: Instant, later: Instant)
    requires t <= later
    ensures CountAfter(failures, later) <= CountAfter(failures, t)
  {
    if failures == [] {
    } else {
      CountsMore(failures[1..], t, later);
    }
  }

  lemma AppendSpaces(h: History, e: Event)
    requires InOrder(h) && Spaced(h) && e.at > Clock(h) && e.at > 0
    requires e.kind == WrongPassword ==> Decide(h, e.at).lockedUntil.None?
    ensures InOrder(h + [e]) && Spaced(h + [e])
  {
    var after := h + [e];
    if e.kind == WrongPassword {
      UnlockedIsFew(h, e.at);
      RecordExact(h, e.at);
    } else {
      forall j, k | 0 <= j < k < |after|
        ensures SpacedAt(after, j, k)
      {
        if k < |h| {
          assert SpacedAt(h, j, k);
          assert after[..k + 1] == h[..k + 1];
        }
      }
    }
  }

  // ---- attempts at the same time -------------------------------------------

  /** A history grown one record at a time, however the attempts were judged. */
  predicate FewAlong(h: History) {
    h != [] ==>
      var n := |h| - 1;
      FewAlong(h[..n]) && (h[n].kind == WrongPassword ==> Recent(h[..n], h[n].at) < LOCK_AT)
  }

  lemma SpacedShorter(h: History, e: Event)
    ensures Spaced(h + [e]) ==> Spaced(h)
  {
    if Spaced(h + [e]) {
      forall j, k | 0 <= j < k < |h|
        ensures SpacedAt(h, j, k)
      {
        assert SpacedAt(h + [e], j, k);
        assert (h + [e])[..k + 1] == h[..k + 1];
      }
    }
  }

  lemma GrowExact(h: History, e: Event)
    requires InOrder(h) && e.at > Clock(h) && e.at > 0
    ensures Spaced(h + [e]) <==> Spaced(h) && (e.kind == WrongPassword ==> Recent(h, e.at) < LOCK_AT)
  {
    SpacedShorter(h, e);
    if Spaced(h) {
      if e.kind == WrongPassword {
        RecordExact(h, e.at);
      } else {
        AppendSpaces(h, e);
      }
    }
  }

  /** However the attempts of a history were judged, no window holds more than five exactly when
      each wrong password was recorded while fewer than five counted. */
  lemma {:induction false} SpacedExactly(h: History)
    requires InOrder(h)
    ensures Spaced(h) <==> FewAlong(h)
  {
    if h == [] {
    } else {
      var n := |h| - 1;
      assert InOrder(h[..n]);
      SpacedExactly(h[..n]);
      assert h == h[..n] + [h[n]];
      GrowExact(h[..n], h[n]);
    }
  }

  lemma UnbrokenShorter(h: History, e: Event, j: nat)
    requires Unbroken(h + [e], j)
    ensures Unbroken(h, j)
  {
    forall k | j <= k < |h|
      ensures !Resets(h[k])
    {
      assert (h + [e])[k] == h[k];
    }
  }

  lemma StepSpaces(h: History, op: Step)
    requires InOrder(h) && Spaced(h)
    ensures InOrder(Apply(h, op)) && Spaced(Apply(h, op))
  {
    ResetBounds(h, 0);
    match op {
      case Login(t) =>
        if t.now > Clock(h) && Recorded(h, t).Some? {
          AppendSpaces(h, Event(t.now, Recorded(h, t).value));
        }
      case ChangePassword(now) =>
        if now > Clock(h) {
          AppendSpaces(h, Event(now, PasswordChange));
        }
    }
  }

  lemma {:induction false} RunSpaces(h: History, ops: seq<Step>)
    requires InOrder(h) && Spaced(h)
    ensures InOrder(Run(h, ops)) && Spaced(Run(h, ops))
  {
    if ops == [] {
    } else {
      RunSpaces(h, ops[..|ops| - 1]);
      StepSpaces(Run(h, ops[..|ops| - 1]), ops[|ops| - 1]);
    }
  }

  /** Whatever happens to a document, between two resets no half-open window of fifteen
      minutes holds more than five recorded wrong passwords. */
  lemma AtMostFive(ops: seq<Step>, j: nat, k: nat)
    requires j < k < |Run([], ops)|
    requires Run([], ops)[j].kind == WrongPassword && Run([], ops)[k].kind == WrongPassword
    requires Unbroken(Run([], ops)[..k + 1], j)
    requires Run([], ops)[k].at - Run([], ops)[j].at < WINDOW
    ensures WrongFrom(Run([], ops)[..k + 1], j) <= LOCK_AT
  {
    RunSpaces([], ops);
    assert SpacedAt(Run([], ops), j, k);
  }

  // ---- how long a lock lasts -----------------------------------------------

  /** A lock ends a window after the failure that set it, neither sooner because old
      failures leave the window nor later. */
  lemma LockLastsExactly(h: History, locked: Instant, now: Instant)
    requires InOrder(h) && locked <= now && Decide(h, locked).lockedUntil.Some?
    ensures Failures(h, LastReset(h)) != []
    ensures Decide(h, locked).lockedUntil == Some(Failures(h, LastReset(h))[0] + WINDOW)
    ensures now < Failures(h, LastReset(h))[0] + WINDOW ==> Decide(h, now) == Decide(h, locked)
    ensures now >= Failures(h, LastReset(h))[0] + WINDOW ==> Decide(h, now).lockedUntil.None?
  {
    PrunedDecidesAsFull(h, locked);
    PrunedDecidesAsFull(h, now);
  }

  /** A login that comes while the lock holds. */
  predicate During(h: History, locked: Instant, op: Step) {
    && Decide(h, locked).lockedUntil.Some?
    && op.Login?
    && locked <= op.t.now < Decide(h, locked).lockedUntil.value
  }

  /** During the lock a login is turned away with the same end and leaves no trace. */
  lemma TurnedAway(h: History, locked: Instant, op: Step)
    requires InOrder(h) && During(h, locked, op)
    ensures Apply(h, op) == h
    ensures Told(h, op.t) == Locked(Decide(h, locked).lockedUntil.value)
  {
    LockLastsExactly(h, locked, op.t.now);
  }

  /** However many logins come during the lock, it is not prolonged. */
  lemma {:induction false} LockedOut(h: History, locked: Instant, tries: seq<Step>)
    requires InOrder(h)
    requires forall k :: 0 <= k < |tries| ==> During(h, locked, tries[k])
    ensures Run(h, tries) == h
  {
    if tries == [] {
    } else {
      LockedOut(h, locked, tries[..|tries| - 1]);
      TurnedAway(h, locked, tries[|tries| - 1]);
    }
  }

  /** A success or a password change opens the lock at once. */
  lemma ResetUnlocks(h: History, e: Event, now: Instant)
    requires InOrder(h + [e]) && Resets(e)
    ensures Decide(h + [e], now) == Situation(None, false)
  {
    var after := h + [e];
    PrunedDecidesAsFull(after, now);
    assert after[|after| - 1] == e;
    NoneSince(after, e.at);
  }

  // ---- the answer to a failed login ----------------------------------------

  lemma RecordedCounts(h: History, now: Instant)
    requires InOrder(h) && Clock(h) < now
    ensures var after := h + [Event(now, WrongPassword)];
            Failures(after, Mark(after, now)) == [now] + Failures(h, Mark(h, now))
  {
    var after := h + [Event(now, WrongPassword)];
    assert after[..|after| - 1] == h;
    ResetBounds(h, now - 2 * WINDOW);
    ResetBounds(h, 0);
    assert Mark(after, now) == Mark(h, now);
  }

  /** The answer to a wrong password says locked, or asks for the captcha, exactly when
      the history with that attempt in it decides so, and gives the same end. */
  lemma AnswerTellsTheNextDecision(h: History, t: Try)
    requires InOrder(h) && Clock(h) < t.now && Recorded(h, t) == Some(WrongPassword)
    ensures Told(h, t).NowLocked? || Told(h, t).Wrong?
    ensures Told(h, t).NowLocked? ==> Decide(After(h, t), t.now) == Situation(Some(Told(h, t).until), true)
    ensures Told(h, t).Wrong? ==> Decide(After(h, t), t.now) == Situation(None, Told(h, t).captcha)
  {
    RecordedCounts(h, t.now);
    var earlier := Failures(h, Mark(h, t.now));
    assert ([t.now] + earlier)[1..] == earlier;
  }

  // ---- the service ---------------------------------------------------------

  class AuthService {
    /** The attempts and password changes of one document. */
    var history: History

    constructor ()
      ensures history == []
    {
      history := [];
    }

    method Register(now: Instant, kind: Kind)
      modifies this
      ensures history == old(history) + [Event(now, kind)]
    {
      history := history + [Event(now, kind)];
    }

    method ValidateUser(t: Try) returns (answer: Answer)
      modifies this
      ensures history == After(old(history), t)
      ensures answer == Told(old(history), t)
    {
      var situation := Decide(history, t.now);
      var failures := Recent(history, t.now);
      if situation.lockedUntil.Some? {
        return Locked(situation.lockedUntil.value);
      }
      if situation.captcha && !t.captchaOk {
        return CaptchaFirst;
      }
      if !t.userExists {
        Register(t.now, UserNotFound);
        return NoSuchUser;
      }
      if t.passwordOk {
        if t.accountBlocked {
          Register(t.now, AccountBlocked);
          return Blocked;
        }
        Register(t.now, LoggedIn);
        return Entered;
      }
      Register(t.now, WrongPassword);
      failures := failures + 1;
      if failures >= LOCK_AT {
        return NowLocked(t.now + WINDOW);
      }
      return Wrong(failures >= CAPTCHA_AT);
    }
  }
}
