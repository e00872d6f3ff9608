/** What an attempt to log in is told and what it leaves, from the wrong passwords that count:
    those after the last success or password change. */
module LoginOutcomes {
  import opened Wrappers
  import opened LoginBrake

  // ---- the wrong passwords that count --------------------------------------

  /** How many wrong passwords since the last success or password change are after `t`. */
  function WrongsAfter(h: History, t: Instant): nat {
    if h == [] then 0
    else
      var last := h[|h| - 1];
      if last.kind == LoggedIn || last.kind == PasswordChange then 0
      else WrongsAfter(h[..|h| - 1], t) + if last.kind == WrongPassword && last.at > t then 1 else 0
  }

  /** When the last of them was. */
  function NewestWrong(h: History): Option<Instant> {
    if h == [] then None
    else
      var last := h[|h| - 1];
      if last.kind == LoggedIn || last.kind == PasswordChange then None
      else if last.kind == WrongPassword then Some(last.at)
      else NewestWrong(h[..|h| - 1])
  }

  /** Five in the fifteen minutes up to the last one, which is not fifteen minutes ago. */
  predicate IsLocked(h: History, now: Instant) {
    var newest := NewestWrong(h);
    newest.Some? && WrongsAfter(h, newest.value - 900_000) >= 5 && now < newest.value + 900_000
  }

  lemma {:induction false} CountsWrongs(h: History, t: Instant)
    requires InOrder(h)
    ensures var failures := Failures(h, LastReset(h));
      && CountAfter(failures, t) == WrongsAfter(h, t)
      && NewestWrong(h) == (if failures == [] then None else Some(failures[0]))
  {
    if h == [] {
    } else {
      var rest := h[..|h| - 1];
      var last := h[|h| - 1];
      CountsWrongs(rest, t);
      if Resets(last) {
        NoneSince(h, last.at);
      } else {
        ResetBounds(rest, 0);
        var before := Failures(rest, LastReset(rest));
        assert ([last.at] + before)[1..] == before;
      }
    }
  }

  lemma DecidesBy(h: History, now: Instant)
    requires InOrder(h)
    ensures Decide(h, now).lockedUntil.Some? <==> IsLocked(h, now)
    ensures IsLocked(h, now) ==> Decide(h, now) == Situation(Some(NewestWrong(h).value + 900_000), true)
    ensures !IsLocked(h, now) ==> (Decide(h, now).captcha <==> WrongsAfter(h, now - 900_000) >= 2)
  {
    PrunedDecidesAsFull(h, now);
    CountsWrongs(h, now - WINDOW);
    if NewestWrong(h).Some? {
      CountsWrongs(h, NewestWrong(h).value - WINDOW);
    }
  }

  lemma RecentIs(h: History, now: Instant)
    requires InOrder(h)
    ensures Recent(h, now) == WrongsAfter(h, now - 900_000)
  {
    MarkIs(h, now);
    ResetBounds(h, 0);
    CountsWrongs(h, now - WINDOW);
    if now - 2 * WINDOW > LastReset(h) {
      CutUnseen(h, LastReset(h), now - 2 * WINDOW, now - WINDOW);
    }
  }

  // ---- the answer, and what is left ----------------------------------------

  /** The attempt gets as far as the document and the password. */
  predicate LetThrough(h: History, t: Try) {
    !IsLocked(h, t.now) && (WrongsAfter(h, t.now - 900_000) >= 2 ==> t.captchaOk)
  }

  lemma TurnedAwayExactly(h: History, t: Try)
    requires InOrder(h)
    ensures IsLocked(h, t.now) <==> Told(h, t).Locked?
    ensures Told(h, t).Locked? ==> Told(h, t).until == NewestWrong(h).value + 900_000
    ensures Told(h, t) == CaptchaFirst <==>
      !IsLocked(h, t.now) && WrongsAfter(h, t.now - 900_000) >= 2 && !t.captchaOk
    ensures !LetThrough(h, t) ==> After(h, t) == h
  {
    DecidesBy(h, t.now);
  }

  /** Whoever is let through is answered by what the attempt turns out to be, and leaves it in the
      history: no such account; the right password of a blocked account; a login; a wrong
      password, with what comes next. */
  lemma AnsweredExactly(h: History, t: Try)
    requires InOrder(h) && LetThrough(h, t)
    ensures !t.userExists ==> Told(h, t) == NoSuchUser && After(h, t) == h + [Event(t.now, UserNotFound)]
    ensures t.userExists && t.passwordOk && t.accountBlocked ==>
      Told(h, t) == Blocked && After(h, t) == h + [Event(t.now, AccountBlocked)]
    ensures t.userExists && t.passwordOk && !t.accountBlocked ==>
      Told(h, t) == Entered && After(h, t) == h + [Event(t.now, LoggedIn)]
    ensures t.userExists && !t.passwordOk ==>
      && After(h, t) == h + [Event(t.now, WrongPassword)]
      && Told(h, t) == if WrongsAfter(h, t.now - 900_000) >= 4 then NowLocked(t.now + 900_000)
                       else Wrong(WrongsAfter(h, t.now - 900_000) >= 1)
  {
    DecidesBy(h, t.now);
    RecentIs(h, t.now);
  }

  /** Nobody enters but with the right password of an account that is there and not blocked, not
      locked out, and with the captcha once two wrong passwords count. */
  lemma EnteredExactly(h: History, t: Try)
    requires InOrder(h)
    ensures Told(h, t) == Entered <==> LetThrough(h, t) && t.userExists && t.passwordOk && !t.accountBlocked
    ensures Told(h, t) == Blocked <==> LetThrough(h, t) && t.userExists && t.passwordOk && t.accountBlocked
    ensures Told(h, t) == NoSuchUser <==> LetThrough(h, t) && !t.userExists
  {
    TurnedAwayExactly(h, t);
    if LetThrough(h, t) {
      AnsweredExactly(h, t);
    }
  }

  /** An attempt or a change that comes later than all before is a step, and a change of the password
      lets everybody try again: no wrong password counts. */
  lemma LaterSteps(h: History, t: Try, now: Instant, from: Instant)
    requires InOrder(h) && (h == [] || now > h[|h| - 1].at) && now > 0 && t.now == now
    ensures Apply(h, Login(t)) == After(h, t)
    ensures var after := Apply(h, ChangePassword(now));
      after == h + [Event(now, PasswordChange)] && WrongsAfter(after, from) == 0 && NewestWrong(after).None?
  {
  }

  /** Any other is none. */
  lemma EarlierSteps(h: History, t: Try)
    requires h != [] && t.now <= h[|h| - 1].at
    ensures Apply(h, Login(t)) == h && Apply(h, ChangePassword(t.now)) == h
  {
  }
}
