/** What registering, leaving and moving answer and write, entry by entry. */
module RegistrationOutcomes {
  import opened Wrappers
  import opened Registration

  // ---- registering ---------------------------------------------------------

  predicate OfTheEvent(e: Event, roles: seq<Role>) {
    forall r :: r in roles ==> r in e.groupOf
  }

  predicate OfDifferentGroups(e: Event, roles: seq<Role>)
    requires OfTheEvent(e, roles)
  {
    forall i, j :: 0 <= i < j < |roles| ==> e.groupOf[roles[i]] != e.groupOf[roles[j]]
  }

  /** The request itself is in order: some roles, each once, all of the event and of different
      groups, and an account that may register. */
  predicate InOrder(e: Event, q: Request) {
    && q.roles != [] && q.user in e.users && !q.blocked
    && OfTheEvent(e, q.roles) && OfDifferentGroups(e, q.roles)
  }

  /** The person has a role of the group of this one. */
  predicate InItsGroup(e: Event, regs: Entries, u: User, r: Role)
    requires r in e.groupOf
  {
    exists p :: p in regs && p.0 == u && p.1 in e.groupOf && e.groupOf[p.1] == e.groupOf[r]
  }

  /** One check of a role fails. */
  predicate SomeClosed(e: Event, q: Request)
    requires OfTheEvent(e, q.roles)
  {
    exists r :: r in q.roles && e.groupOf[r] in q.closed
  }

  predicate SomeTaken(s: State, q: Request) {
    exists r :: r in q.roles && (q.user, r) in s.regs
  }

  predicate SomeGroupTaken(e: Event, s: State, q: Request)
    requires OfTheEvent(e, q.roles)
  {
    exists r :: r in q.roles && InItsGroup(e, s.regs, q.user, r)
  }

  predicate SomeWaited(s: State, q: Request) {
    exists r :: r in q.roles && (q.user, r) in s.waiting
  }

  lemma GroupsAgree(e: Event, s: State, q: Request)
    requires OfTheEvent(e, q.roles)
    ensures OfDifferentGroups(e, q.roles) <==> DistinctGroups(e, q.roles)
    ensures OfDifferentGroups(e, q.roles) ==> Distinct(q.roles)
    ensures SomeGroupTaken(e, s, q) <==> exists r :: r in q.roles && InSameGroup(e, s.regs, q.user, r)
    ensures SomeTaken(s, q) ==> SomeGroupTaken(e, s, q)
  {
    forall r | r in q.roles
      ensures InItsGroup(e, s.regs, q.user, r) <==> InSameGroup(e, s.regs, q.user, r)
    {
    }
    if r :| r in q.roles && (q.user, r) in s.regs {
      assert InItsGroup(e, s.regs, q.user, r);
    }
    forall i, j | 0 <= i < j < |q.roles|
      ensures GroupOf(e, q.roles[i]) == GroupOf(e, q.roles[j]) <==> e.groupOf[q.roles[i]] == e.groupOf[q.roles[j]]
    {
      assert q.roles[i] in q.roles && q.roles[j] in q.roles;
    }
  }

  /** A request in order goes through exactly when none of its groups is closed, none has a role
      of that person, and none of its roles is waited for; otherwise that is why not, in this
      order. */
  lemma RegisterAnswers(e: Event, s: State, q: Request)
    requires InOrder(e, q)
    ensures var r := Register(e, s, q);
      && (r.Success? <==> !SomeClosed(e, q) && !SomeGroupTaken(e, s, q) && !SomeWaited(s, q))
      && (r == Failure(GroupClosed) <==> SomeClosed(e, q))
      && (r == Failure(AlreadyInRole) <==> !SomeClosed(e, q) && SomeTaken(s, q))
      && (r == Failure(AlreadyInGroup) <==> !SomeClosed(e, q) && !SomeTaken(s, q) && SomeGroupTaken(e, s, q))
      && (r == Failure(AlreadyWaiting) <==>
        !SomeClosed(e, q) && !SomeGroupTaken(e, s, q) && SomeWaited(s, q))
  {
    GroupsAgree(e, s, q);
  }

  /** A request that is not in order is refused for the first thing that is wrong with it. */
  lemma RegisterRefuses(e: Event, s: State, q: Request)
    requires !InOrder(e, q)
    ensures var r := Register(e, s, q);
      && r.Failure?
      && (q.roles == [] ==> r.error == NoRole)
      && (q.roles != [] && (exists i, j :: 0 <= i < j < |q.roles| && q.roles[i] == q.roles[j]) ==>
        r.error == InvalidRole)
      && (q.roles != [] && (forall i, j :: 0 <= i < j < |q.roles| ==> q.roles[i] != q.roles[j]) ==>
        && (q.user !in e.users ==> r.error == NoUser)
        && (q.user in e.users && q.blocked ==> r.error == AccountBlocked)
        && (q.user in e.users && !q.blocked && !OfTheEvent(e, q.roles) ==> r.error == InvalidRole)
        && (q.user in e.users && !q.blocked && OfTheEvent(e, q.roles) ==> r.error == SameGroupTwice))
  {
    if OfTheEvent(e, q.roles) {
      GroupsAgree(e, s, q);
    }
  }

  /** How many have a role of the group. */
  function Taken(e: Event, regs: Entries, g: Group): nat {
    |set p | p in regs && p.1 in e.groupOf && e.groupOf[p.1] == g|
  }

  /** The group of the role has no limit, or fewer roles taken than that. */
  predicate HasVacancy(e: Event, regs: Entries, r: Role)
    requires r in e.groupOf
  {
    var g := e.groupOf[r];
    g in e.capacity && e.capacity[g].Some? ==> Taken(e, regs, g) < e.capacity[g].value
  }

  lemma VacancyIs(e: Event, regs: Entries, r: Role)
    requires r in e.groupOf
    ensures HasVacancy(e, regs, r) <==> !Full(e, regs, r)
  {
    var g := e.groupOf[r];
    assert InGroup(e, regs, g) == set p | p in regs && p.1 in e.groupOf && e.groupOf[p.1] == g;
  }

  /** Each role is taken if its group had a vacancy before, and waited for if not; the person is in
      the event once a role is taken; nothing else changes. */
  lemma RegisterWrites(e: Event, s: State, q: Request, p: (User, Role), u: User)
    requires Register(e, s, q).Success?
    ensures OfTheEvent(e, q.roles)
    ensures var t := Register(e, s, q).value;
      && (p in t.regs <==> p in s.regs || (p.0 == q.user && p.1 in q.roles && HasVacancy(e, s.regs, p.1)))
      && (p in t.waiting <==> p in s.waiting || (p.0 == q.user && p.1 in q.roles && !HasVacancy(e, s.regs, p.1)))
      && (u in t.inside <==> u in s.inside || (u == q.user && exists r :: r in q.roles && HasVacancy(e, s.regs, r)))
  {
    forall r | r in q.roles
      ensures HasVacancy(e, s.regs, r) <==> !Full(e, s.regs, r)
    {
      VacancyIs(e, s.regs, r);
    }
    PlaceIs(e, s.regs, s, q.user, q.roles, p);
    PlaceInside(e, s.regs, s, q.user, q.roles, u);
  }

  // ---- leaving and moving --------------------------------------------------

  /** Leaving the waitlist takes that entry, if it is there, and no other. */
  lemma LeaveWaitlistWrites(s: State, u: User, r: Role, p: (User, Role))
    ensures var result := LeaveWaitlist(s, u, r);
      && (result.Success? <==> (u, r) in s.waiting)
      && (result.Failure? ==> result.error == NotWaiting)
      && (result.Success? ==>
        && (p in result.value.waiting <==> p in s.waiting && (p.0 != u || p.1 != r))
        && result.value.regs == s.regs && result.value.inside == s.inside)
  {
  }

  /** Leaving the event needs an account and that role; it takes everything of that person and
      nothing of anybody else. */
  lemma RemoveWrites(e: Event, s: State, u: User, r: Role, p: (User, Role), v: User)
    ensures var result := Remove(e, s, u, r);
      && (result == Failure(NoUser) <==> u !in e.users)
      && (result == Failure(NotRegistered) <==> u in e.users && (u, r) !in s.regs)
      && (result.Success? <==> u in e.users && (u, r) in s.regs)
      && (result.Success? ==>
        && (p in result.value.regs <==> p in s.regs && p.0 != u)
        && (p in result.value.waiting <==> p in s.waiting && p.0 != u)
        && (v in result.value.inside <==> v in s.inside && v != u))
  {
  }

  /** What is left when somebody gives up the roles of a group. */
  predicate StaysTaken(e: Event, s: State, gone: User, g: Group, p: (User, Role)) {
    p in s.regs && !(p.0 == gone && p.1 in e.groupOf && e.groupOf[p.1] == g)
  }

  /** A move takes the roles that the other person has in the group, and gives the one waited for.
      Whoever has no role left is not in the event any more; nothing else changes. */
  lemma MoveWrites(e: Event, s: State, u: User, gone: User, r: Role, p: (User, Role), v: User)
    requires Inv(e, s) && r in e.groupOf && Move(e, s, u, gone, r).Success?
    ensures var t := Move(e, s, u, gone, r).value;
      && (p in t.regs <==> StaysTaken(e, s, gone, e.groupOf[r], p) || p == (u, r))
      && (p in t.waiting <==> p in s.waiting && p != (u, r))
      && (v in t.inside <==>
        v == u || (v in s.inside && (v != gone || exists x :: StaysTaken(e, s, gone, e.groupOf[r], x) && x.0 == gone)))
  {
    MoveMeaning(e, s, u, gone, r);
    var g := e.groupOf[r];
    var rest := WithoutInGroup(e, s.regs, gone, g);
    forall x: (User, Role)
      ensures x in rest <==> StaysTaken(e, s, gone, g, x)
    {
    }
    MoveInside(e, s, u, gone, r);
  }

  lemma MoveInside(e: Event, s: State, u: User, gone: User, r: Role)
    requires Inv(e, s) && r in e.groupOf && Move(e, s, u, gone, r).Success?
    ensures Move(e, s, u, gone, r).value.inside ==
            Dropped(WithoutInGroup(e, s.regs, gone, e.groupOf[r]), s.inside, gone) + {u}
  {
    MoveMeaning(e, s, u, gone, r);
    var t := Vacated(e, s, u, gone, r, e.groupOf[r]);
    assert (u, r) !in t.waiting;
    RegisterOne(e, t, u, r);
  }

  /** A move needs the entry, the role, an account, no role of the group by then, and a vacancy. */
  lemma MoveAnswers(e: Event, s: State, u: User, gone: User, r: Role)
    requires Inv(e, s)
    ensures var result := Move(e, s, u, gone, r);
      && (result == Failure(NotWaiting) <==> (u, r) !in s.waiting)
      && (result == Failure(InvalidRole) <==> (u, r) in s.waiting && r !in e.groupOf)
      && ((u, r) in s.waiting && r in e.groupOf ==>
        var rest := set p | StaysTaken(e, s, gone, e.groupOf[r], p) && p in s.regs;
        && (result == Failure(NoUser) <==> u !in e.users)
        && (result == Failure(AlreadyInGroup) <==> u in e.users && InItsGroup(e, rest, u, r))
        && (result == Failure(NoVacancy) <==>
          u in e.users && !InItsGroup(e, rest, u, r) && !HasVacancy(e, rest, r))
        && (result.Success? <==> u in e.users && !InItsGroup(e, rest, u, r) && HasVacancy(e, rest, r)))
  {
    if (u, r) in s.waiting && r in e.groupOf {
      var g := e.groupOf[r];
      var rest := set p | StaysTaken(e, s, gone, g, p) && p in s.regs;
      var t := Vacated(e, s, u, gone, r, g);
      assert rest == t.regs;
      VacancyIs(e, rest, r);
      MoveMeaning(e, s, u, gone, r);
      var q := Request(u, [r], false, {});
      assert forall x :: x in q.roles <==> x == r;
      assert (u, r) !in t.regs && (u, r) !in t.waiting;
      assert InItsGroup(e, rest, u, r) <==> InSameGroup(e, rest, u, r);
      if u in e.users && !InItsGroup(e, rest, u, r) {
        RegisterOne(e, t, u, r);
      }
    }
  }
}
