/** Registering for one event: groups with a capacity, roles inside them, and a waitlist per
    role. Every operation happens whole or not at all. Registering and moving are serializable
    transactions in the original; leaving the event checks the registration before its
    transaction, which runs at the default isolation, and leaving the waitlist is one deletion
    after a check. Here each is one step. */
module Registration {
  import opened Wrappers

  type User = nat
  type Role = nat
  type Group = nat
  type Entries = set<(User, Role)>

  /** What does not change: who has an account, the group of each role of the event, and the
      capacity of each group (`None`: no limit). */
  datatype Event = Event(users: set<User>, groupOf: map<Role, Group>, capacity: map<Group, Option<int>>)

  /** `regs`: a role taken; `waiting`: the waitlist; `inside`: people with a row in the event. */
  datatype State = State(regs: Entries, waiting: Entries, inside: set<User>)

  datatype Refusal =
    | NoRole
    | InvalidRole
    | NoUser
    | AccountBlocked
    | SameGroupTwice
    | GroupClosed
    | AlreadyInRole
    | AlreadyInGroup
    | AlreadyWaiting
    | NotRegistered
    | NotWaiting
    | NoVacancy

  /** `blocked` and `closed` hold only when people register themselves: the account is
      blocked, and these groups take nobody now. */
  datatype Request = Request(user: User, roles: seq<Role>, blocked: bool, closed: set<Group>)

  function GroupOf(e: Event, r: Role): Option<Group> {
    if r in e.groupOf then Some(e.groupOf[r]) else None
  }

  function Cap(e: Event, g: Group): Option<int> {
    if g in e.capacity then e.capacity[g] else None
  }

  function InGroup(e: Event, regs: Entries, g: Group): Entries {
    set p | p in regs && GroupOf(e, p.1) == Some(g)
  }

  /** The group of the role has no vacancy. */
  predicate Full(e: Event, regs: Entries, r: Role) {
    r in e.groupOf && Cap(e, e.groupOf[r]).Some? && |InGroup(e, regs, e.groupOf[r])| >= Cap(e, e.groupOf[r]).value
  }

  // ---- registering ---------------------------------------------------------

  predicate Distinct(roles: seq<Role>) {
    forall i, j :: 0 <= i < j < |roles| ==> roles[i] != roles[j]
  }

  predicate DistinctGroups(e: Event, roles: seq<Role>) {
    forall i, j :: 0 <= i < j < |roles| ==> GroupOf(e, roles[i]) != GroupOf(e, roles[j])
  }

  predicate InSameGroup(e: Event, regs: Entries, u: User, r: Role) {
    exists p :: p in regs && p.0 == u && GroupOf(e, p.1) == GroupOf(e, r)
  }

  /** The checks of `registerUserInEvent` and `_registerUserInEventTx`, in their order. */
  function Checked(e: Event, s: State, q: Request): Option<Refusal> {
    if q.roles == [] then Some(NoRole)
    else if !Distinct(q.roles) then Some(InvalidRole)
    else if q.user !in e.users then Some(NoUser)
    else if q.blocked then Some(AccountBlocked)
    else if exists r :: r in q.roles && r !in e.groupOf then Some(InvalidRole)
    else if !DistinctGroups(e, q.roles) then Some(SameGroupTwice)
    else if exists r :: r in q.roles && r in e.groupOf && e.groupOf[r] in q.closed then Some(GroupClosed)
    else if exists r :: r in q.roles && (q.user, r) in s.regs then Some(AlreadyInRole)
    else if exists r :: r in q.roles && InSameGroup(e, s.regs, q.user, r) then Some(AlreadyInGroup)
    else if exists r :: r in q.roles && (q.user, r) in s.waiting then Some(AlreadyWaiting)
    else None
  }

  /** The loop over the roles; the vacancies are those counted before it, in `start`. */
  function Place(e: Event, start: Entries, s: State, u: User, roles: seq<Role>): State {
    if roles == [] then s
    else
      var r := roles[|roles| - 1];
      var t := Place(e, start, s, u, roles[..|roles| - 1]);
      if Full(e, start, r) then t.(waiting := t.waiting + {(u, r)})
      else State(t.regs + {(u, r)}, t.waiting, t.inside + {u})
  }

  function Register(e: Event, s: State, q: Request): Result<State, Refusal> {
    var refusal := Checked(e, s, q);
    if refusal.Some? then Failure(refusal.value) else Success(Place(e, s.regs, s, q.user, q.roles))
  }

  // ---- leaving and moving --------------------------------------------------

  function Without(entries: Entries, u: User): Entries {
    set p | p in entries && p.0 != u
  }

  function Remove(e: Event, s: State, u: User, r: Role): Result<State, Refusal> {
    if u !in e.users then Failure(NoUser)
    else if (u, r) !in s.regs then Failure(NotRegistered)
    else Success(State(Without(s.regs, u), Without(s.waiting, u), s.inside - {u}))
  }

  function LeaveWaitlist(s: State, u: User, r: Role): Result<State, Refusal> {
    if (u, r) !in s.waiting then Failure(NotWaiting) else Success(s.(waiting := s.waiting - {(u, r)}))
  }

  function WithoutInGroup(e: Event, regs: Entries, u: User, g: Group): Entries {
    set p | p in regs && !(p.0 == u && GroupOf(e, p.1) == Some(g))
  }

  /** Somebody with no role left has no row in the event either. */
  function Dropped(regs: Entries, inside: set<User>, u: User): set<User> {
    if exists p :: p in regs && p.0 == u then inside else inside - {u}
  }

  /** The vacancy of `gone` in the group, before it is taken. */
  function Vacated(e: Event, s: State, u: User, gone: User, r: Role, g: Group): State {
    var regs := WithoutInGroup(e, s.regs, gone, g);
    State(regs, s.waiting - {(u, r)}, Dropped(regs, s.inside, gone))
  }

  /** `movedUserFromWaitlistToEvent` */
  function Move(e: Event, s: State, u: User, gone: User, r: Role): Result<State, Refusal> {
    if (u, r) !in s.waiting then Failure(NotWaiting)
    else if r !in e.groupOf then Failure(InvalidRole)
    else
      var vacated := Vacated(e, s, u, gone, r, e.groupOf[r]);
      var end := Register(e, vacated, Request(u, [r], false, {}));
      if end.Success? && Full(e, vacated.regs, r) then Failure(NoVacancy) else end
  }

  datatype Op =
    | DoRegister(q: Request)
    | DoRemove(u: User, r: Role)
    | DoLeaveWaitlist(u: User, r: Role)
    | DoMove(u: User, gone: User, r: Role)

  function Attempt(e: Event, s: State, op: Op): Result<State, Refusal> {
    match op
    case DoRegister(q) => Register(e, s, q)
    case DoRemove(u, r) => Remove(e, s, u, r)
    case DoLeaveWaitlist(u, r) => LeaveWaitlist(s, u, r)
    case DoMove(u, gone, r) => Move(e, s, u, gone, r)
  }

  /** A refused operation is rolled back. */
  function Apply(e: Event, s: State, op: Op): State {
    var end := Attempt(e, s, op);
    if end.Success? then end.value else s
  }

  function Run(e: Event, s: State, ops: seq<Op>): State {
    if ops == [] then s else Apply(e, Run(e, s, ops[..|ops| - 1]), ops[|ops| - 1])
  }

  // ---- what a registration does --------------------------------------------

  /** Which roles are taken and which are waited for is decided by the vacancies before the
      operation, in whatever order the roles come. */
  lemma {:induction false} PlaceIs(e: Event, start: Entries, s: State, u: User, roles: seq<Role>, p: (User, Role))
    ensures p in Place(e, start, s, u, roles).regs <==>
            p in s.regs || (p.0 == u && p.1 in roles && !Full(e, start, p.1))
    ensures p in Place(e, start, s, u, roles).waiting <==>
            p in s.waiting || (p.0 == u && p.1 in roles && Full(e, start, p.1))
  {
    if roles == [] {
    } else {
      var n := |roles| - 1;
      PlaceIs(e, start, s, u, roles[..n], p);
      assert roles == roles[..n] + [roles[n]];
    }
  }

  lemma {:induction false} PlaceInside(e: Event, start: Entries, s: State, u: User, roles: seq<Role>, v: User)
    ensures v in Place(e, start, s, u, roles).inside <==>
            v in s.inside || (v == u && exists r :: r in roles && !Full(e, start, r))
  {
    if roles == [] {
    } else {
      var n := |roles| - 1;
      PlaceInside(e, start, s, u, roles[..n], v);
      assert roles == roles[..n] + [roles[n]];
      assert roles[n] in roles;
    }
  }

  /** The roles of other groups do not change who is in a group. */
  lemma {:induction false} OtherGroups(e: Event, start: Entries, s: State, u: User, roles: seq<Role>, g: Group)
    requires forall r :: r in roles ==> GroupOf(e, r) != Some(g)
    ensures InGroup(e, Place(e, start, s, u, roles).regs, g) == InGroup(e, s.regs, g)
  {
    if roles == [] {
    } else {
      var n := |roles| - 1;
      assert roles == roles[..n] + [roles[n]];
      OtherGroups(e, start, s, u, roles[..n], g);
    }
  }

  /** Counting once before the loop is as good as counting again for each role: the roles
      are of different groups. */
  lemma CountsStayRight(e: Event, start: Entries, s: State, u: User, roles: seq<Role>, k: nat, g: Group)
    requires k < |roles| && DistinctGroups(e, roles) && GroupOf(e, roles[k]) == Some(g)
    ensures InGroup(e, Place(e, start, s, u, roles[..k]).regs, g) == InGroup(e, s.regs, g)
  {
    forall r | r in roles[..k]
      ensures GroupOf(e, r) != Some(g)
    {
      var i :| 0 <= i < k && roles[i] == r;
      assert GroupOf(e, roles[i]) != GroupOf(e, roles[k]);
    }
    OtherGroups(e, start, s, u, roles[..k], g);
  }

  function Ceiling(e: Event, g: Group, before: nat): int {
    if Cap(e, g).Some? && Cap(e, g).value > before then Cap(e, g).value else before
  }

  /** No more people in the group than its capacity, or than `before`. */
  predicate Fits(e: Event, regs: Entries, g: Group, before: nat) {
    Cap(e, g).Some? ==> |InGroup(e, regs, g)| <= Ceiling(e, g, before)
  }

  lemma {:induction false} PlaceFits(e: Event, s: State, u: User, roles: seq<Role>, g: Group, before: nat)
    requires DistinctGroups(e, roles) && Fits(e, s.regs, g, before)
    ensures Fits(e, Place(e, s.regs, s, u, roles).regs, g, before)
  {
    if roles == [] {
    } else {
      var n := |roles| - 1;
      var r := roles[n];
      var t := Place(e, s.regs, s, u, roles[..n]);
      if GroupOf(e, r) == Some(g) {
        CountsStayRight(e, s.regs, s, u, roles, n, g);
        assert InGroup(e, t.regs + {(u, r)}, g) == InGroup(e, t.regs, g) + {(u, r)};
      } else {
        PlaceFits(e, s, u, roles[..n], g, before);
        assert InGroup(e, t.regs + {(u, r)}, g) == InGroup(e, t.regs, g);
      }
    }
  }

  lemma Smaller(a: Entries, b: Entries)
    requires a <= b
    ensures |a| <= |b|
  {
    assert b == a + (b - a);
  }

  lemma FewerFit(e: Event, less: Entries, regs: Entries, g: Group, before: nat)
    requires less <= regs && Fits(e, regs, g, before)
    ensures Fits(e, less, g, before)
  {
    Smaller(InGroup(e, less, g), InGroup(e, regs, g));
  }

  // ---- what every run keeps ------------------------------------------------

  /** Nobody has two roles of one group. */
  predicate OneEach(e: Event, regs: Entries) {
    forall p, q :: p in regs && q in regs && p.0 == q.0 && GroupOf(e, p.1) == GroupOf(e, q.1) ==> p == q
  }

  /** Somebody has a row in the event exactly when registered for some role. */
  predicate Present(s: State, u: User) {
    u in s.inside <==> exists p :: p in s.regs && p.0 == u
  }

  ghost predicate Inv(e: Event, s: State) {
    && OneEach(e, s.regs)
    && s.regs !! s.waiting
    && (forall u: User :: Present(s, u))
  }

  lemma Passed(e: Event, s: State, q: Request, r: Role)
    requires Checked(e, s, q).None? && r in q.roles
    ensures r in e.groupOf && (q.user, r) !in s.regs && (q.user, r) !in s.waiting && !InSameGroup(e, s.regs, q.user, r)
    ensures DistinctGroups(e, q.roles)
  {
  }

  lemma PlacedAmong(e: Event, s: State, q: Request, p: (User, Role))
    requires Checked(e, s, q).None?
    requires p in Place(e, s.regs, s, q.user, q.roles).regs && p !in s.regs
    ensures p.0 == q.user && p.1 in q.roles && !InSameGroup(e, s.regs, p.0, p.1)
  {
    PlaceIs(e, s.regs, s, q.user, q.roles, p);
    Passed(e, s, q, p.1);
  }

  lemma PlaceOneEach(e: Event, s: State, q: Request)
    requires OneEach(e, s.regs) && Checked(e, s, q).None?
    ensures OneEach(e, Place(e, s.regs, s, q.user, q.roles).regs)
  {
    var regs := Place(e, s.regs, s, q.user, q.roles).regs;
    forall a, b | a in regs && b in regs && a.0 == b.0 && GroupOf(e, a.1) == GroupOf(e, b.1)
      ensures a == b
    {
      if a !in s.regs {
        PlacedAmong(e, s, q, a);
      }
      if b !in s.regs {
        PlacedAmong(e, s, q, b);
      }
      if a !in s.regs && b !in s.regs {
        SameGroupSame(e, q.roles, a.1, b.1);
      }
    }
  }

  lemma SameGroupSame(e: Event, roles: seq<Role>, r: Role, r': Role)
    requires DistinctGroups(e, roles) && r in roles && r' in roles && GroupOf(e, r) == GroupOf(e, r')
    ensures r == r'
  {
    var i :| 0 <= i < |roles| && roles[i] == r;
    var j :| 0 <= j < |roles| && roles[j] == r';
  }

  lemma PlaceApart(e: Event, s: State, q: Request)
    requires s.regs !! s.waiting && Checked(e, s, q).None?
    ensures var t := Place(e, s.regs, s, q.user, q.roles); t.regs !! t.waiting
  {
    var t := Place(e, s.regs, s, q.user, q.roles);
    forall p | p in t.regs
      ensures p !in t.waiting
    {
      PlaceIs(e, s.regs, s, q.user, q.roles, p);
      if p.0 == q.user && p.1 in q.roles {
        Passed(e, s, q, p.1);
      }
    }
  }

  lemma PlacePresent(e: Event, s: State, q: Request, v: User)
    requires Present(s, v)
    ensures Present(Place(e, s.regs, s, q.user, q.roles), v)
  {
    var t := Place(e, s.regs, s, q.user, q.roles);
    PlaceInside(e, s.regs, s, q.user, q.roles, v);
    forall p: (User, Role)
      ensures p in t.regs <==> p in s.regs || (p.0 == q.user && p.1 in q.roles && !Full(e, s.regs, p.1))
    {
      PlaceIs(e, s.regs, s, q.user, q.roles, p);
    }
    if v == q.user && exists r :: r in q.roles && !Full(e, s.regs, r) {
      var r :| r in q.roles && !Full(e, s.regs, r);
      assert (v, r) in t.regs;
    } else if v in s.inside {
      var p :| p in s.regs && p.0 == v;
      assert p in t.regs;
    }
  }

  lemma RegisterKeeps(e: Event, s: State, q: Request)
    requires Inv(e, s) && Register(e, s, q).Success?
    ensures Inv(e, Register(e, s, q).value)
  {
    PlaceOneEach(e, s, q);
    PlaceApart(e, s, q);
    forall v: User
      ensures Present(Register(e, s, q).value, v)
    {
      PlacePresent(e, s, q, v);
    }
  }

  lemma RemoveKeeps(e: Event, s: State, u: User, r: Role)
    requires Inv(e, s) && Remove(e, s, u, r).Success?
    ensures Inv(e, Remove(e, s, u, r).value)
  {
    var t := Remove(e, s, u, r).value;
    forall v: User
      ensures Present(t, v)
    {
      assert Present(s, v);
      if v != u && v in s.inside {
        var p :| p in s.regs && p.0 == v;
        assert p in t.regs;
      }
    }
  }

  lemma VacatedKeeps(e: Event, s: State, u: User, gone: User, r: Role, g: Group)
    requires Inv(e, s)
    ensures Inv(e, Vacated(e, s, u, gone, r, g))
  {
    var t := Vacated(e, s, u, gone, r, g);
    forall v: User
      ensures Present(t, v)
    {
      assert Present(s, v);
      if v != gone && v in s.inside {
        var p :| p in s.regs && p.0 == v;
        assert p in t.regs;
      }
    }
  }

  lemma StepKeeps(e: Event, s: State, op: Op)
    requires Inv(e, s)
    ensures Inv(e, Apply(e, s, op))
  {
    if Attempt(e, s, op).Success? {
      match op {
        case DoRegister(q) => RegisterKeeps(e, s, q);
        case DoRemove(u, r) => RemoveKeeps(e, s, u, r);
        case DoLeaveWaitlist(u, r) => {
          forall v: User
            ensures Present(Apply(e, s, op), v)
          {
            assert Present(s, v);
          }
        }
        case DoMove(u, gone, r) => {
          VacatedKeeps(e, s, u, gone, r, e.groupOf[r]);
          RegisterKeeps(e, Vacated(e, s, u, gone, r, e.groupOf[r]), Request(u, [r], false, {}));
        }
      }
    }
  }

  lemma StepFits(e: Event, s: State, op: Op, g: Group, before: nat)
    requires Fits(e, s.regs, g, before)
    ensures Fits(e, Apply(e, s, op).regs, g, before)
  {
    if Attempt(e, s, op).Success? {
      match op {
        case DoRegister(q) => PlaceFits(e, s, q.user, q.roles, g, before);
        case DoRemove(u, r) => FewerFit(e, Without(s.regs, u), s.regs, g, before);
        case DoLeaveWaitlist(u, r) =>
        case DoMove(u, gone, r) => {
          var vacated := Vacated(e, s, u, gone, r, e.groupOf[r]);
          FewerFit(e, vacated.regs, s.regs, g, before);
          PlaceFits(e, vacated, u, [r], g, before);
        }
      }
    }
  }

  /** Over every run: one role per person and group, never registered and waiting for the
      same role, in the event exactly when registered, and no group above its capacity. */
  lemma {:induction false} RunKeeps(e: Event, s: State, ops: seq<Op>)
    requires Inv(e, s)
    ensures Inv(e, Run(e, s, ops))
    ensures forall g: Group :: Fits(e, Run(e, s, ops).regs, g, |InGroup(e, s.regs, g)|)
  {
    if ops == [] {
    } else {
      var t := Run(e, s, ops[..|ops| - 1]);
      RunKeeps(e, s, ops[..|ops| - 1]);
      StepKeeps(e, t, ops[|ops| - 1]);
      forall g: Group
        ensures Fits(e, Run(e, s, ops).regs, g, |InGroup(e, s.regs, g)|)
      {
        StepFits(e, t, ops[|ops| - 1], g, |InGroup(e, s.regs, g)|);
      }
    }
  }

  // ---- when an operation goes through --------------------------------------

  /** Nothing stands between the person and the role but a vacancy. */
  predicate Welcome(e: Event, s: State, q: Request, r: Role) {
    && r in e.groupOf && e.groupOf[r] !in q.closed
    && !InSameGroup(e, s.regs, q.user, r)
    && (q.user, r) !in s.waiting
  }

  /** A registration is refused for nothing else, and for any of this, whatever is checked
      first: the whole of it goes through, or none. */
  lemma AcceptedExactly(e: Event, s: State, q: Request)
    ensures Register(e, s, q).Success? <==>
            q.user in e.users && !q.blocked && q.roles != [] && DistinctGroups(e, q.roles)
            && forall r :: r in q.roles ==> Welcome(e, s, q, r)
  {
    if DistinctGroups(e, q.roles) {
      forall i, j | 0 <= i < j < |q.roles|
        ensures q.roles[i] != q.roles[j]
      {
        assert GroupOf(e, q.roles[i]) != GroupOf(e, q.roles[j]);
      }
    }
    forall r | r in q.roles && (q.user, r) in s.regs
      ensures InSameGroup(e, s.regs, q.user, r)
    {
    }
  }

  /** Registering for one role, by the panel. */
  lemma RegisterOne(e: Event, s: State, u: User, r: Role)
    requires u in e.users && r in e.groupOf && !InSameGroup(e, s.regs, u, r) && (u, r) !in s.waiting
    ensures Full(e, s.regs, r) ==>
              Register(e, s, Request(u, [r], false, {})) == Success(s.(waiting := s.waiting + {(u, r)}))
    ensures !Full(e, s.regs, r) ==>
              Register(e, s, Request(u, [r], false, {})) == Success(State(s.regs + {(u, r)}, s.waiting, s.inside + {u}))
  {
    var q := Request(u, [r], false, {});
    assert forall x :: x in q.roles <==> x == r;
    assert (u, r) in s.regs ==> InSameGroup(e, s.regs, u, r);
    assert q.roles[..0] == [];
    assert Place(e, s.regs, s, u, q.roles[..0]) == s;
  }

  /** A vacancy opens and is taken only by somebody waiting for the role, with no other role
      of the group, when the person who leaves makes room; then the two have changed places. */
  lemma MoveMeaning(e: Event, s: State, u: User, gone: User, r: Role)
    requires Inv(e, s) && r in e.groupOf
    ensures var regs := WithoutInGroup(e, s.regs, gone, e.groupOf[r]);
            Move(e, s, u, gone, r).Success? <==>
            (u, r) in s.waiting && u in e.users && !InSameGroup(e, regs, u, r) && !Full(e, regs, r)
    ensures Move(e, s, u, gone, r).Success? ==>
              Move(e, s, u, gone, r).value.regs == WithoutInGroup(e, s.regs, gone, e.groupOf[r]) + {(u, r)}
    ensures Move(e, s, u, gone, r).Success? ==> Move(e, s, u, gone, r).value.waiting == s.waiting - {(u, r)}
  {
    var g := e.groupOf[r];
    var t := Vacated(e, s, u, gone, r, g);
    var q := Request(u, [r], false, {});
    if (u, r) in s.waiting {
      assert (u, r) !in t.regs;
      assert (u, r) !in t.waiting;
      assert r in q.roles;
      if u in e.users && !InSameGroup(e, t.regs, u, r) {
        RegisterOne(e, t, u, r);
      }
    }
  }

  /** Leaving the event takes everything of that person, and nothing of anybody else. */
  lemma RemoveMeaning(e: Event, s: State, u: User, r: Role, p: (User, Role))
    requires Inv(e, s)
    ensures Remove(e, s, u, r).Success? <==> u in e.users && (u, r) in s.regs
    ensures Remove(e, s, u, r).Success? ==>
              var t := Remove(e, s, u, r).value;
              && (p in t.regs <==> p in s.regs && p.0 != u) && (p in t.waiting <==> p in s.waiting && p.0 != u)
              && (p.0 in t.inside <==> p.0 in s.inside && p.0 != u)
  {
  }

  /** Moving somebody fills no more than the place that was left, so whoever moved is in. */
  lemma MoveSwaps(e: Event, s: State, u: User, gone: User, r: Role)
    requires Inv(e, s) && Move(e, s, u, gone, r).Success? && u != gone
    ensures (u, r) in Move(e, s, u, gone, r).value.regs && u in Move(e, s, u, gone, r).value.inside
    ensures !InSameGroup(e, Move(e, s, u, gone, r).value.regs, gone, r)
    ensures gone in Move(e, s, u, gone, r).value.inside <==>
            exists p :: p in s.regs && p.0 == gone && GroupOf(e, p.1) != GroupOf(e, r)
  {
    MoveMeaning(e, s, u, gone, r);
    var t := Move(e, s, u, gone, r).value;
    StepKeeps(e, s, DoMove(u, gone, r));
    assert Present(t, u) && Present(t, gone);
    assert (u, r) in t.regs;
    forall p: (User, Role)
      ensures p in t.regs && p.0 == gone <==> p in s.regs && p.0 == gone && GroupOf(e, p.1) != GroupOf(e, r)
    {
    }
  }

  // ---- waiting for a role of one's own group -------------------------------

  predicate SameGroup(e: Event, r: Role, r': Role) {
    r in e.groupOf && r' in e.groupOf && e.groupOf[r] == e.groupOf[r']
  }

  /** Nobody waits for a role of a group they are registered in. */
  predicate Exclusive(e: Event, s: State) {
    forall p, q :: p in s.waiting && q in s.regs && p.0 == q.0 ==> !SameGroup(e, p.1, q.1)
  }

  predicate WaitsInGroup(e: Event, waiting: Entries, u: User, r: Role) {
    exists p :: p in waiting && p.0 == u && SameGroup(e, p.1, r)
  }

  /** What the operation would have to check, and does not: a role taken is of no group the
      person still waits in. */
  predicate ChecksGroup(e: Event, s: State, op: Op) {
    match op
    case DoRegister(q) => forall r :: r in q.roles && !Full(e, s.regs, r) ==> !WaitsInGroup(e, s.waiting, q.user, r)
    case DoMove(u, gone, r) => !WaitsInGroup(e, s.waiting - {(u, r)}, u, r)
    case _ => true
  }

  lemma NewEntryApart(e: Event, s: State, q: Request, a: (User, Role), b: (User, Role))
    requires Checked(e, s, q).None? && Exclusive(e, s) && ChecksGroup(e, s, DoRegister(q))
    requires var t := Place(e, s.regs, s, q.user, q.roles); a in t.waiting && b in t.regs && a.0 == b.0
    ensures !SameGroup(e, a.1, b.1)
  {
    PlaceIs(e, s.regs, s, q.user, q.roles, a);
    PlaceIs(e, s.regs, s, q.user, q.roles, b);
    if a !in s.waiting {
      Passed(e, s, q, a.1);
      assert b in s.regs && SameGroup(e, a.1, b.1) ==> InSameGroup(e, s.regs, q.user, a.1);
      if b !in s.regs && SameGroup(e, a.1, b.1) {
        SameGroupSame(e, q.roles, a.1, b.1);
      }
    } else if b !in s.regs && SameGroup(e, a.1, b.1) {
      assert WaitsInGroup(e, s.waiting, q.user, b.1);
    }
  }

  /** A registration keeps the groups exclusive exactly when no role with a vacancy is of a
      group where the person already waits. */
  lemma RegisterExclusive(e: Event, s: State, q: Request)
    requires Exclusive(e, s) && Register(e, s, q).Success?
    ensures Exclusive(e, Register(e, s, q).value) <==> ChecksGroup(e, s, DoRegister(q))
  {
    var t := Register(e, s, q).value;
    if ChecksGroup(e, s, DoRegister(q)) {
      forall a, b | a in t.waiting && b in t.regs && a.0 == b.0
        ensures !SameGroup(e, a.1, b.1)
      {
        NewEntryApart(e, s, q, a, b);
      }
    } else {
      var r :| r in q.roles && !Full(e, s.regs, r) && WaitsInGroup(e, s.waiting, q.user, r);
      var p :| p in s.waiting && p.0 == q.user && SameGroup(e, p.1, r);
      PlaceIs(e, s.regs, s, q.user, q.roles, p);
      PlaceIs(e, s.regs, s, q.user, q.roles, (q.user, r));
      assert p in t.waiting && (q.user, r) in t.regs;
    }
  }

  /** So does a move: the person must wait for no other role of the group. */
  lemma MoveExclusive(e: Event, s: State, u: User, gone: User, r: Role)
    requires Exclusive(e, s) && Move(e, s, u, gone, r).Success?
    ensures Exclusive(e, Move(e, s, u, gone, r).value) <==> ChecksGroup(e, s, DoMove(u, gone, r))
  {
    var v := Vacated(e, s, u, gone, r, e.groupOf[r]);
    var q := Request(u, [r], false, {});
    assert Exclusive(e, v);
    RegisterExclusive(e, v, q);
    assert v.waiting == s.waiting - {(u, r)};
    assert r in q.roles;
    assert ChecksGroup(e, v, DoRegister(q)) <==> !WaitsInGroup(e, v.waiting, u, r);
  }

  /** Every operation keeps the groups exclusive exactly when it is refused or finds what it
      does not check. */
  lemma StepExclusive(e: Event, s: State, op: Op)
    requires Exclusive(e, s)
    ensures Exclusive(e, Apply(e, s, op)) <==> Attempt(e, s, op).Failure? || ChecksGroup(e, s, op)
  {
    if Attempt(e, s, op).Success? {
      match op {
        case DoRegister(q) => RegisterExclusive(e, s, q);
        case DoRemove(u, r) => assert Exclusive(e, Apply(e, s, op));
        case DoLeaveWaitlist(u, r) => assert Exclusive(e, Apply(e, s, op));
        case DoMove(u, gone, r) => MoveExclusive(e, s, u, gone, r);
      }
    }
  }

  predicate ExclusiveAlong(e: Event, s: State, ops: seq<Op>) {
    Exclusive(e, Run(e, s, ops)) && (ops != [] ==> ExclusiveAlong(e, s, ops[..|ops| - 1]))
  }

  predicate ChecksAlong(e: Event, s: State, ops: seq<Op>) {
    ops != [] ==>
      var n := |ops| - 1;
      var before := Run(e, s, ops[..n]);
      ChecksAlong(e, s, ops[..n]) && (Attempt(e, before, ops[n]).Failure? || ChecksGroup(e, before, ops[n]))
  }

  /** Over every run: nobody ever waits for a role of a group they are registered in exactly
      when no registration and no move took a role of a group its person still waited in. */
  lemma {:induction false} RunExclusive(e: Event, s: State, ops: seq<Op>)
    requires Exclusive(e, s)
    ensures ExclusiveAlong(e, s, ops) <==> ChecksAlong(e, s, ops)
  {
    if ops == [] {
    } else {
      var n := |ops| - 1;
      RunExclusive(e, s, ops[..n]);
      if ExclusiveAlong(e, s, ops[..n]) {
        StepExclusive(e, Run(e, s, ops[..n]), ops[n]);
      }
    }
  }

  /** The waitlist bars the role only, not its group: somebody waiting for a role can still
      register for another role of the group, and from then on no vacancy of the group goes to
      the entry that waits. */
  lemma OtherRoleOfTheGroup(e: Event, s: State, u: User, r: Role, other: Role, gone: User)
    requires Inv(e, s) && (u, r) in s.waiting && (u, other) !in s.waiting && u in e.users
    requires r in e.groupOf && GroupOf(e, other) == GroupOf(e, r)
    requires !InSameGroup(e, s.regs, u, other) && !Full(e, s.regs, other)
    ensures var t := Apply(e, s, DoRegister(Request(u, [other], false, {})));
            (u, other) in t.regs && (u, r) in t.waiting && (gone != u ==> Move(e, t, u, gone, r).Failure?)
  {
    RegisterOne(e, s, u, other);
    var t := Apply(e, s, DoRegister(Request(u, [other], false, {})));
    StepKeeps(e, s, DoRegister(Request(u, [other], false, {})));
    if gone != u {
      MoveMeaning(e, t, u, gone, r);
      assert (u, other) in WithoutInGroup(e, t.regs, gone, e.groupOf[r]);
    }
  }

  /** One group of one place, with two roles. */
  const SMALL: Event := Event({1, 2}, map[10 := 5, 11 := 5], map[5 := Some(1)])

  function ByPanel(u: User, r: Role): Op {
    DoRegister(Request(u, [r], false, {}))
  }

  lemma SmallRegisters(s: State, u: User, r: Role)
    requires u in {1, 2} && r in {10, 11} && (forall p :: p in s.regs ==> p.0 != u) && (u, r) !in s.waiting
    ensures |InGroup(SMALL, s.regs, 5)| >= 1 ==> Apply(SMALL, s, ByPanel(u, r)) == s.(waiting := s.waiting + {(u, r)})
    ensures |InGroup(SMALL, s.regs, 5)| == 0 ==>
              Apply(SMALL, s, ByPanel(u, r)) == State(s.regs + {(u, r)}, s.waiting, s.inside + {u})
  {
    RegisterOne(SMALL, s, u, r);
  }

  const WAITS: State := State({(1, 10)}, {(2, 10)}, {1})

  lemma SecondWaits()
    ensures Run(SMALL, State({}, {}, {}), [] + [ByPanel(1, 10)] + [ByPanel(2, 10)]) == WAITS
  {
    var s0, s1 := State({}, {}, {}), State({(1, 10)}, {}, {1});
    assert InGroup(SMALL, {}, 5) == {} && InGroup(SMALL, {(1, 10)}, 5) == {(1, 10)};
    SmallRegisters(s0, 1, 10);
    assert Apply(SMALL, s0, ByPanel(1, 10)) == s1;
    OneMore(SMALL, s0, [], ByPanel(1, 10));
    SmallRegisters(s1, 2, 10);
    assert Apply(SMALL, s1, ByPanel(2, 10)) == WAITS;
    OneMore(SMALL, s0, [] + [ByPanel(1, 10)], ByPanel(2, 10));
  }

  /** From an empty event: the second person waits for a role, the first leaves, and the
      second takes the other role of the group and goes on waiting. */
  lemma WaitingInOwnGroup()
    ensures var ops := [] + [ByPanel(1, 10)] + [ByPanel(2, 10)] + [DoRemove(1, 10)] + [ByPanel(2, 11)];
            && Run(SMALL, State({}, {}, {}), ops) == State({(2, 11)}, {(2, 10)}, {2})
            && !Exclusive(SMALL, Run(SMALL, State({}, {}, {}), ops))
  {
    var s0, s3 := State({}, {}, {}), State({}, {(2, 10)}, {});
    var two := [] + [ByPanel(1, 10)] + [ByPanel(2, 10)];
    SecondWaits();
    SmallLeaves();
    OneMore(SMALL, s0, two, DoRemove(1, 10));
    assert InGroup(SMALL, {}, 5) == {};
    SmallRegisters(s3, 2, 11);
    assert Apply(SMALL, s3, ByPanel(2, 11)) == State({(2, 11)}, {(2, 10)}, {2});
    OneMore(SMALL, s0, two + [DoRemove(1, 10)], ByPanel(2, 11));
    assert SameGroup(SMALL, 10, 11);
  }

  lemma SmallLeaves()
    ensures Apply(SMALL, State({(1, 10)}, {(2, 10)}, {1}), DoRemove(1, 10)) == State({}, {(2, 10)}, {})
  {
    assert Without({(1, 10)}, 1) == {} && Without({(2, 10)}, 1) == {(2, 10)};
  }

  lemma OneMore(e: Event, s: State, ops: seq<Op>, op: Op)
    ensures Run(e, s, ops + [op]) == Apply(e, Run(e, s, ops), op)
  {
    assert (ops + [op])[..|ops|] == ops;
  }

  // ---- the service ---------------------------------------------------------

  /** `uniqueRoleIds` */
  function Unique(roles: seq<Role>): set<Role> {
    set r | r in roles
  }

  lemma {:induction false} UniqueSize(roles: seq<Role>)
    ensures |Unique(roles)| <= |roles|
    ensures |Unique(roles)| == |roles| <==> Distinct(roles)
  {
    if roles == [] {
      assert Unique(roles) == {};
    } else {
      var n := |roles| - 1;
      UniqueSize(roles[..n]);
      assert roles == roles[..n] + [roles[n]];
      assert Unique(roles) == Unique(roles[..n]) + {roles[n]};
      assert Distinct(roles) <==> Distinct(roles[..n]) && roles[n] !in roles[..n];
    }
  }

  class EventService {
    var registrations: Entries
    var waitlist: Entries
    var attendees: set<User>

    constructor ()
      ensures Table() == State({}, {}, {})
    {
      registrations, waitlist, attendees := {}, {}, {};
    }

    function Table(): State
      reads this
    {
      State(registrations, waitlist, attendees)
    }

    /** The checks of `registerUserInEvent` and `_registerUserInEventTx`, one by one. */
    method CheckRequest(e: Event, q: Request) returns (refusal: Option<Refusal>)
      ensures refusal == Checked(e, Table(), q)
    {
      if q.roles == [] {
        return Some(NoRole);
      }
      UniqueSize(q.roles);
      if |Unique(q.roles)| != |q.roles| {
        return Some(InvalidRole);
      }
      if q.user !in e.users {
        return Some(NoUser);
      }
      if q.blocked {
        return Some(AccountBlocked);
      }
      if exists r :: r in q.roles && r !in e.groupOf {
        return Some(InvalidRole);
      }
      if !DistinctGroups(e, q.roles) {
        return Some(SameGroupTwice);
      }
      if exists r :: r in q.roles && r in e.groupOf && e.groupOf[r] in q.closed {
        return Some(GroupClosed);
      }
      if exists r :: r in q.roles && (q.user, r) in registrations {
        return Some(AlreadyInRole);
      }
      if exists r :: r in q.roles && InSameGroup(e, registrations, q.user, r) {
        return Some(AlreadyInGroup);
      }
      if exists r :: r in q.roles && (q.user, r) in waitlist {
        return Some(AlreadyWaiting);
      }
      return None;
    }

    /** `_registerUserInEventTx`; the answer is the refusal, if any. */
    method RegisterUser(e: Event, q: Request) returns (refusal: Option<Refusal>)
      modifies this
      ensures Table() == Apply(e, old(Table()), DoRegister(q))
      ensures refusal == Checked(e, old(Table()), q)
    {
      refusal := CheckRequest(e, q);
      if refusal.Some? {
        return;
      }
      ghost var was := Table();
      var full := set r | r in q.roles && Full(e, registrations, r);
      var i := 0;
      while i < |q.roles|
        invariant 0 <= i <= |q.roles|
        invariant Table() == Place(e, was.regs, was, q.user, q.roles[..i])
      {
        var r := q.roles[i];
        assert q.roles[..i + 1][..i] == q.roles[..i];
        if r in full {
          waitlist := waitlist + {(q.user, r)};
        } else {
          attendees := attendees + {q.user};
          registrations := registrations + {(q.user, r)};
        }
        i := i + 1;
      }
      assert q.roles[..i] == q.roles;
    }

    method RemoveUser(e: Event, u: User, r: Role) returns (refusal: Option<Refusal>)
      modifies this
      ensures Table() == Apply(e, old(Table()), DoRemove(u, r))
      ensures refusal.None? <==> Remove(e, old(Table()), u, r).Success?
    {
      if u !in e.users {
        return Some(NoUser);
      }
      if (u, r) !in registrations {
        return Some(NotRegistered);
      }
      waitlist := Without(waitlist, u);
      registrations := Without(registrations, u);
      attendees := attendees - {u};
      return None;
    }

    method RemoveFromWaitlist(e: Event, u: User, r: Role) returns (refusal: Option<Refusal>)
      modifies this
      ensures Table() == Apply(e, old(Table()), DoLeaveWaitlist(u, r))
      ensures refusal.None? <==> (u, r) in old(waitlist)
    {
      if (u, r) !in waitlist {
        return Some(NotWaiting);
      }
      waitlist := waitlist - {(u, r)};
      return None;
    }

    method Rollback(s: State)
      modifies this
      ensures Table() == s
    {
      registrations, waitlist, attendees := s.regs, s.waiting, s.inside;
    }

    /** `movedUserFromWaitlistToEvent`: writes as it goes, and rolls back on a refusal. */
    method MoveFromWaitlist(e: Event, u: User, gone: User, r: Role) returns (refusal: Option<Refusal>)
      modifies this
      ensures Table() == Apply(e, old(Table()), DoMove(u, gone, r))
      ensures refusal.None? <==> Move(e, old(Table()), u, gone, r).Success?
      ensures refusal.Some? ==> Table() == old(Table())
    {
      var before := Table();
      if (u, r) !in waitlist {
        return Some(NotWaiting);
      }
      waitlist := waitlist - {(u, r)};
      if r !in e.groupOf {
        Rollback(before);
        return Some(InvalidRole);
      }
      registrations := WithoutInGroup(e, registrations, gone, e.groupOf[r]);
      if !exists p :: p in registrations && p.0 == gone {
        attendees := attendees - {gone};
      }
      var vacated := Table();
      assert vacated == Vacated(e, before, u, gone, r, e.groupOf[r]);
      refusal := RegisterUser(e, Request(u, [r], false, {}));
      if refusal.Some? {
        Rollback(before);
        return;
      }
      if Full(e, vacated.regs, r) {
        Rollback(before);
        return Some(NoVacancy);
      }
    }
  }
}
