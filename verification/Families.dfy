/** Members and families of the churches. A person is a member of one church at most, and a
    family is a group of members of one church; a family nobody is left in is deleted.
    Operations come one after the other. */
module Families {
  import opened Wrappers

  type User = nat
  type Church = nat
  type Family = nat

  datatype Person = Person(church: Option<Church>, family: Option<Family>)

  datatype State = State(people: map<User, Person>, families: map<Family, Church>)

  datatype Refusal = AlreadyMember | NotMember | NotMembers | NoFamily | NobodyChosen | IdInUse

  // ---- the operations ------------------------------------------------------

  predicate MemberOf(s: State, c: Church, u: User) {
    u in s.people && s.people[u].church == Some(c)
  }

  predicate InFamily(people: map<User, Person>, f: Family, u: User) {
    u in people && people[u].family == Some(f)
  }

  predicate Empty(people: map<User, Person>, f: Family) {
    forall u :: u in people ==> !InFamily(people, f, u)
  }

  /** `apagarVazias`: those of `some` that nobody is left in are deleted. */
  function Purged(s: State, some: set<Family>): State {
    s.(families := map f | f in s.families && !(f in some && Empty(s.people, f)) :: s.families[f])
  }

  function FamilyOf(people: map<User, Person>, u: User): set<Family> {
    if u in people && people[u].family.Some? then {people[u].family.value} else {}
  }

  /** The families the people leave when they go to another one. */
  function Previous(people: map<User, Person>, users: set<User>): set<Family> {
    set u, f | u in users && f in FamilyOf(people, u) :: f
  }

  function Moved(people: map<User, Person>, users: set<User>, f: Option<Family>): map<User, Person> {
    map u | u in people :: if u in users then people[u].(family := f) else people[u]
  }

  /** `tornarMembro` */
  function Become(s: State, c: Church, u: User): Result<State, Refusal> {
    if u !in s.people || s.people[u].church.Some? then Failure(AlreadyMember)
    else Success(s.(people := s.people[u := s.people[u].(church := Some(c))]))
  }

  /** `remover` */
  function Remove(s: State, c: Church, u: User): Result<State, Refusal> {
    if !MemberOf(s, c, u) then Failure(NotMember)
    else Success(Purged(s.(people := s.people[u := Person(None, None)]), FamilyOf(s.people, u)))
  }

  predicate AllMembers(s: State, c: Church, users: set<User>) {
    forall u :: u in users ==> MemberOf(s, c, u)
  }

  /** `criarFamilia`, with the id the database draws; an id in use is never drawn. */
  function Create(s: State, c: Church, users: set<User>, id: Family): Result<State, Refusal> {
    if users == {} then Failure(NobodyChosen)
    else if id in s.families then Failure(IdInUse)
    else if !AllMembers(s, c, users) then Failure(NotMembers)
    else Success(Purged(State(Moved(s.people, users, Some(id)), s.families[id := c]), Previous(s.people, users)))
  }

  /** `atualizarFamilia` */
  function Update(s: State, c: Church, id: Family, users: set<User>): Result<State, Refusal> {
    if id !in s.families || s.families[id] != c then Failure(NoFamily)
    else if users == {} then Success(s)
    else if !AllMembers(s, c, users) then Failure(NotMembers)
    else Success(Purged(s.(people := Moved(s.people, users, Some(id))), Previous(s.people, users) - {id}))
  }

  function PeopleOf(people: map<User, Person>, f: Family): set<User> {
    set u | u in people && InFamily(people, f, u)
  }

  /** `desfazerFamilia` */
  function Dissolve(s: State, c: Church, id: Family): Result<State, Refusal> {
    if id !in s.families || s.families[id] != c then Failure(NoFamily)
    else Success(State(Moved(s.people, PeopleOf(s.people, id), None), s.families - {id}))
  }

  /** `tirarDaFamilia` */
  function TakeOut(s: State, c: Church, u: User): Result<State, Refusal> {
    if !MemberOf(s, c, u) then Failure(NotMember)
    else Success(Purged(s.(people := s.people[u := s.people[u].(family := None)]), FamilyOf(s.people, u)))
  }

  datatype Op =
    | DoBecome(c: Church, u: User)
    | DoRemove(c: Church, u: User)
    | DoCreate(c: Church, users: set<User>, id: Family)
    | DoUpdate(c: Church, id: Family, users: set<User>)
    | DoDissolve(c: Church, id: Family)
    | DoTakeOut(c: Church, u: User)

  function Attempt(s: State, op: Op): Result<State, Refusal> {
    match op
    case DoBecome(c, u) => Become(s, c, u)
    case DoRemove(c, u) => Remove(s, c, u)
    case DoCreate(c, users, id) => Create(s, c, users, id)
    case DoUpdate(c, id, users) => Update(s, c, id, users)
    case DoDissolve(c, id) => Dissolve(s, c, id)
    case DoTakeOut(c, u) => TakeOut(s, c, u)
  }

  function Apply(s: State, op: Op): State {
    var end := Attempt(s, op);
    if end.Success? then end.value else s
  }

  function Run(s: State, ops: seq<Op>): State {
    if ops == [] then s else Apply(Run(s, ops[..|ops| - 1]), ops[|ops| - 1])
  }

  // ---- what every run keeps ------------------------------------------------

  /** The link leads to a family of the person's own church; who is no member has none. */
  predicate Linked(families: map<Family, Church>, p: Person) {
    p.family.Some? ==> p.family.value in families && p.church == Some(families[p.family.value])
  }

  predicate Inv(s: State) {
    && (forall u :: u in s.people ==> Linked(s.families, s.people[u]))
    && (forall f :: f in s.families ==> !Empty(s.people, f))
  }

  /** What is needed before the purge: only the families to look at may be empty. */
  predicate Almost(s: State, some: set<Family>) {
    && (forall u :: u in s.people ==> Linked(s.families, s.people[u]))
    && (forall f :: f in s.families && f !in some ==> !Empty(s.people, f))
  }

  lemma PurgeKeeps(s: State, some: set<Family>)
    requires Almost(s, some)
    ensures Inv(Purged(s, some))
  {
    var t := Purged(s, some);
    forall u | u in t.people
      ensures Linked(t.families, t.people[u])
    {
      assert Linked(s.families, s.people[u]);
      if s.people[u].family.Some? {
        assert InFamily(s.people, s.people[u].family.value, u);
      }
    }
  }

  /** Somebody of the family who stays keeps it from being empty. */
  lemma StaysFull(s: State, people: map<User, Person>, f: Family, users: set<User>)
    requires Inv(s) && f in s.families && f !in Previous(s.people, users)
    requires people.Keys == s.people.Keys
    requires forall u :: u in s.people && u !in users ==> people[u] == s.people[u]
    ensures !Empty(people, f)
  {
    assert !Empty(s.people, f);
    var u :| u in s.people && InFamily(s.people, f, u);
    assert u !in users by {
      assert f in FamilyOf(s.people, u);
    }
    assert InFamily(people, f, u);
  }

  lemma MoveKeeps(s: State, c: Church, users: set<User>, id: Family)
    requires Inv(s) && users != {} && AllMembers(s, c, users)
    requires id in s.families ==> s.families[id] == c
    ensures Almost(State(Moved(s.people, users, Some(id)), s.families[id := c]), Previous(s.people, users) - {id})
  {
    var people := Moved(s.people, users, Some(id));
    var families := s.families[id := c];
    forall u | u in people
      ensures Linked(families, people[u])
    {
      assert Linked(s.families, s.people[u]);
      assert u in users ==> MemberOf(s, c, u);
    }
    forall f | f in families && f !in Previous(s.people, users) - {id}
      ensures !Empty(people, f)
    {
      if f == id {
        var u :| u in users;
        assert MemberOf(s, c, u);
        assert InFamily(people, id, u);
      } else {
        StaysFull(s, people, f, users);
      }
    }
  }

  /** One person leaving a family, and perhaps the church. */
  lemma OneOut(s: State, u: User, left: Person)
    requires Inv(s) && u in s.people && left.family.None?
    ensures Almost(s.(people := s.people[u := left]), FamilyOf(s.people, u))
  {
    var people := s.people[u := left];
    forall v | v in people
      ensures Linked(s.families, people[v])
    {
      assert v != u ==> Linked(s.families, s.people[v]);
    }
    forall f | f in s.families && f !in FamilyOf(s.people, u)
      ensures !Empty(people, f)
    {
      assert f !in Previous(s.people, {u});
      StaysFull(s, people, f, {u});
    }
  }

  lemma DissolveKeeps(s: State, c: Church, id: Family)
    requires Inv(s) && Dissolve(s, c, id).Success?
    ensures Inv(Dissolve(s, c, id).value)
  {
    var t := Dissolve(s, c, id).value;
    var out := PeopleOf(s.people, id);
    forall u | u in t.people
      ensures Linked(t.families, t.people[u])
    {
      assert Linked(s.families, s.people[u]);
      assert u !in out ==> !InFamily(s.people, id, u);
    }
    forall f | f in t.families
      ensures !Empty(t.people, f)
    {
      assert f !in Previous(s.people, out);
      StaysFull(s, t.people, f, out);
    }
  }

  lemma BecomeKeeps(s: State, c: Church, u: User)
    requires Inv(s) && Become(s, c, u).Success?
    ensures Inv(Become(s, c, u).value)
  {
    var t := Become(s, c, u).value;
    assert Linked(s.families, s.people[u]);
    forall v | v in t.people
      ensures Linked(t.families, t.people[v])
    {
      assert Linked(s.families, s.people[v]);
    }
    forall f | f in t.families
      ensures !Empty(t.people, f)
    {
      var v :| v in s.people && InFamily(s.people, f, v);
      assert InFamily(t.people, f, v);
    }
  }

  lemma CreateKeeps(s: State, c: Church, users: set<User>, id: Family)
    requires Inv(s) && Create(s, c, users, id).Success?
    ensures Inv(Create(s, c, users, id).value)
  {
    MoveKeeps(s, c, users, id);
    var moved := State(Moved(s.people, users, Some(id)), s.families[id := c]);
    assert Almost(moved, Previous(s.people, users));
    PurgeKeeps(moved, Previous(s.people, users));
  }

  lemma UpdateKeeps(s: State, c: Church, id: Family, users: set<User>)
    requires Inv(s) && Update(s, c, id, users).Success?
    ensures Inv(Update(s, c, id, users).value)
  {
    if users != {} {
      MoveKeeps(s, c, users, id);
      assert s.families[id := c] == s.families;
      PurgeKeeps(s.(people := Moved(s.people, users, Some(id))), Previous(s.people, users) - {id});
    }
  }

  lemma StepKeeps(s: State, op: Op)
    requires Inv(s)
    ensures Inv(Apply(s, op))
  {
    if Attempt(s, op).Success? {
      match op {
        case DoBecome(c, u) => BecomeKeeps(s, c, u);
        case DoRemove(c, u) => {
          OneOut(s, u, Person(None, None));
          PurgeKeeps(s.(people := s.people[u := Person(None, None)]), FamilyOf(s.people, u));
        }
        case DoCreate(c, users, id) => CreateKeeps(s, c, users, id);
        case DoUpdate(c, id, users) => UpdateKeeps(s, c, id, users);
        case DoDissolve(c, id) => DissolveKeeps(s, c, id);
        case DoTakeOut(c, u) => {
          OneOut(s, u, s.people[u].(family := None));
          PurgeKeeps(s.(people := s.people[u := s.people[u].(family := None)]), FamilyOf(s.people, u));
        }
      }
    }
  }

  /** Over every run no family is empty, every family link leads to an existing family of the
      person's own church, and who is no member of a church has none. */
  lemma {:induction false} RunKeeps(s: State, ops: seq<Op>)
    requires Inv(s)
    ensures Inv(Run(s, ops))
    ensures var people := Run(s, ops).people;
            forall u :: u in people && people[u].church.None? ==> people[u].family.None?
  {
    if ops == [] {
    } else {
      RunKeeps(s, ops[..|ops| - 1]);
      StepKeeps(Run(s, ops[..|ops| - 1]), ops[|ops| - 1]);
    }
    forall u | u in Run(s, ops).people && Run(s, ops).people[u].church.None?
      ensures Run(s, ops).people[u].family.None?
    {
      assert Linked(Run(s, ops).families, Run(s, ops).people[u]);
    }
  }

  // ---- from one church to another ------------------------------------------

  lemma StepChurch(s: State, op: Op, u: User)
    requires u in s.people
    ensures u in Apply(s, op).people
    ensures s.people[u].church.Some? && Apply(s, op).people[u].church != s.people[u].church ==>
              op == DoRemove(s.people[u].church.value, u) && Apply(s, op).people[u].church.None?
    ensures s.people[u].church.None? && Apply(s, op).people[u].church.Some? ==>
              op == DoBecome(Apply(s, op).people[u].church.value, u)
  {
    match op {
      case DoDissolve(c, id) => assert Dissolve(s, c, id).Success? ==> u in Dissolve(s, c, id).value.people;
      case _ =>
    }
  }

  /** Whoever nobody removes stays a member of the same church, whatever else happens. */
  lemma {:induction false} NobodyIsMoved(s: State, ops: seq<Op>, u: User)
    requires u in s.people && s.people[u].church.Some?
    requires forall k :: 0 <= k < |ops| ==> ops[k] != DoRemove(s.people[u].church.value, u)
    ensures u in Run(s, ops).people && Run(s, ops).people[u].church == s.people[u].church
  {
    if ops == [] {
    } else {
      NobodyIsMoved(s, ops[..|ops| - 1], u);
      StepChurch(Run(s, ops[..|ops| - 1]), ops[|ops| - 1], u);
    }
  }

  /** Two churches wanting the same person: the first has the member, the second the conflict. */
  lemma OneChurchEach(s: State, first: Church, second: Church, u: User)
    requires Become(s, first, u).Success?
    ensures Become(Become(s, first, u).value, second, u) == Failure(AlreadyMember)
    ensures MemberOf(Become(s, first, u).value, first, u)
  {
  }

  // ---- which families survive ----------------------------------------------

  /** Making a family takes exactly those people into it and changes nobody else; an older
      family survives exactly when somebody of it was not taken. */
  lemma CreateMeaning(s: State, c: Church, users: set<User>, id: Family)
    requires Inv(s) && Create(s, c, users, id).Success?
    ensures var t := Create(s, c, users, id).value;
            PeopleOf(t.people, id) == users && id in t.families && t.families[id] == c
    ensures var t := Create(s, c, users, id).value;
            forall f :: f in s.families ==> (f in t.families <==> !(PeopleOf(s.people, f) <= users))
    ensures var t := Create(s, c, users, id).value;
            t.people.Keys == s.people.Keys && forall u :: u in s.people && u !in users ==> t.people[u] == s.people[u]
  {
    var t := Create(s, c, users, id).value;
    forall u | u in s.people
      ensures u in PeopleOf(t.people, id) <==> u in users
    {
      assert Linked(s.families, s.people[u]);
    }
    forall u | u in users
      ensures u in s.people
    {
      assert MemberOf(s, c, u);
    }
    assert PeopleOf(t.people, id) == users;
    var some :| some in users;
    assert InFamily(t.people, id, some);
    forall f | f in s.families
      ensures f in t.families <==> !(PeopleOf(s.people, f) <= users)
    {
      Survives(s, users, id, f);
    }
  }

  lemma Survives(s: State, users: set<User>, id: Family, f: Family)
    requires Inv(s) && f in s.families && f != id
    ensures f in Previous(s.people, users) && Empty(Moved(s.people, users, Some(id)), f) <==>
            PeopleOf(s.people, f) <= users
  {
    var people := Moved(s.people, users, Some(id));
    assert !Empty(s.people, f);
    var u :| u in s.people && InFamily(s.people, f, u);
    if PeopleOf(s.people, f) <= users {
      assert u in PeopleOf(s.people, f);
      assert f in FamilyOf(s.people, u);
      forall v | v in people
        ensures !InFamily(people, f, v)
      {
        assert InFamily(s.people, f, v) ==> v in PeopleOf(s.people, f);
      }
    } else {
      var v :| v in PeopleOf(s.people, f) && v !in users;
      assert InFamily(people, f, v);
    }
  }

  /** Taking somebody out, of the family or of the church, takes the link and nothing of
      anybody else; the family goes exactly when nobody else was in it. */
  lemma OutMeaning(s: State, c: Church, u: User)
    requires Inv(s) && MemberOf(s, c, u)
    ensures var t := Remove(s, c, u).value; t.people == s.people[u := Person(None, None)]
    ensures var t := TakeOut(s, c, u).value; t.people == s.people[u := Person(Some(c), None)]
    ensures var t := Remove(s, c, u).value;
            forall f :: f in s.families ==> (f in t.families <==> PeopleOf(s.people, f) != {u})
    ensures var t := TakeOut(s, c, u).value;
            forall f :: f in s.families ==> (f in t.families <==> PeopleOf(s.people, f) != {u})
  {
    forall f | f in s.families
      ensures f in Remove(s, c, u).value.families <==> PeopleOf(s.people, f) != {u}
      ensures f in TakeOut(s, c, u).value.families <==> PeopleOf(s.people, f) != {u}
    {
      LastOut(s, u, Person(None, None), f);
      LastOut(s, u, s.people[u].(family := None), f);
    }
  }

  lemma LastOut(s: State, u: User, left: Person, f: Family)
    requires Inv(s) && u in s.people && left.family.None? && f in s.families
    ensures f in FamilyOf(s.people, u) && Empty(s.people[u := left], f) <==> PeopleOf(s.people, f) == {u}
  {
    var people := s.people[u := left];
    assert !Empty(s.people, f);
    var w :| w in s.people && InFamily(s.people, f, w);
    assert w in PeopleOf(s.people, f);
    if f in FamilyOf(s.people, u) && Empty(people, f) {
      forall v | v in PeopleOf(s.people, f)
        ensures v == u
      {
        assert !InFamily(people, f, v);
      }
      assert PeopleOf(s.people, f) == {u};
    }
    if PeopleOf(s.people, f) == {u} {
      assert u in PeopleOf(s.people, f);
      forall v | v in people
        ensures !InFamily(people, f, v)
      {
        assert InFamily(s.people, f, v) ==> v in PeopleOf(s.people, f);
      }
    }
  }

  /** Adding people to a family keeps those who were in it, and takes nobody else. */
  lemma UpdateMeaning(s: State, c: Church, id: Family, users: set<User>)
    requires Inv(s) && Update(s, c, id, users).Success?
    ensures var t := Update(s, c, id, users).value;
            PeopleOf(t.people, id) == PeopleOf(s.people, id) + users && id in t.families
    ensures var t := Update(s, c, id, users).value;
            forall f :: f in s.families && f != id ==> (f in t.families <==> !(PeopleOf(s.people, f) <= users))
    ensures var t := Update(s, c, id, users).value;
            t.people.Keys == s.people.Keys && forall u :: u in s.people && u !in users ==> t.people[u] == s.people[u]
  {
    var t := Update(s, c, id, users).value;
    forall u | u in users
      ensures u in s.people
    {
      assert users != {} && MemberOf(s, c, u);
    }
    assert PeopleOf(t.people, id) == PeopleOf(s.people, id) + users;
    forall f | f in s.families && f != id
      ensures f in t.families <==> !(PeopleOf(s.people, f) <= users)
    {
      if users == {} {
        NobodyLeaves(s, f);
      } else {
        Survives(s, users, id, f);
      }
    }
  }

  lemma NobodyLeaves(s: State, f: Family)
    requires Inv(s) && f in s.families
    ensures PeopleOf(s.people, f) != {}
  {
    assert !Empty(s.people, f);
    var u :| u in s.people && InFamily(s.people, f, u);
    assert u in PeopleOf(s.people, f);
  }

  /** Dissolving a family leaves its people members without a family, and nothing else
      changes. */
  lemma DissolveMeaning(s: State, c: Church, id: Family)
    requires Inv(s) && Dissolve(s, c, id).Success?
    ensures var t := Dissolve(s, c, id).value;
            t.families == s.families - {id} && PeopleOf(t.people, id) == {} && t.people.Keys == s.people.Keys
    ensures var t := Dissolve(s, c, id).value;
            forall u :: u in s.people ==>
              t.people[u] == if u in PeopleOf(s.people, id) then Person(Some(c), None) else s.people[u]
  {
    forall u | u in PeopleOf(s.people, id)
      ensures s.people[u].church == Some(c)
    {
      assert Linked(s.families, s.people[u]);
    }
  }

  // ---- the service ---------------------------------------------------------

  class MembersService {
    var people: map<User, Person>
    var families: map<Family, Church>

    constructor (people: map<User, Person>)
      ensures Table() == State(people, map[])
    {
      this.people, this.families := people, map[];
    }

    function Table(): State
      reads this
    {
      State(people, families)
    }

    /** `apagarSeVazia` */
    method DeleteIfEmpty(f: Family)
      modifies this`families
      ensures Table() == Purged(old(Table()), {f})
    {
      var left := set u | u in people && InFamily(people, f, u);
      if left == {} {
        assert Empty(people, f) by {
          forall u | u in people
            ensures !InFamily(people, f, u)
          {
            assert u !in left;
          }
        }
        families := families - {f};
      } else {
        var u :| u in left;
        assert !Empty(people, f);
      }
      assert families == Purged(old(Table()), {f}).families;
    }

    /** `apagarVazias` */
    method DeleteEmpty(some: set<Family>)
      modifies this`families
      ensures Table() == Purged(old(Table()), some)
    {
      var left := some;
      assert families == Purged(old(Table()), {}).families;
      while left != {}
        invariant left <= some
        invariant families == Purged(old(Table()), some - left).families
        decreases |left|
      {
        var f :| f in left;
        DeleteIfEmpty(f);
        left := left - {f};
        assert families == Purged(old(Table()), some - left).families;
      }
      assert some - left == some;
    }

    method BecomeMember(c: Church, u: User) returns (refusal: Option<Refusal>)
      modifies this`people
      ensures Table() == Apply(old(Table()), DoBecome(c, u))
      ensures refusal.None? <==> Become(old(Table()), c, u).Success?
    {
      if u !in people || people[u].church.Some? {
        return Some(AlreadyMember);
      }
      people := people[u := people[u].(church := Some(c))];
      return None;
    }

    method RemoveMember(c: Church, u: User) returns (refusal: Option<Refusal>)
      modifies this
      ensures Table() == Apply(old(Table()), DoRemove(c, u))
      ensures refusal.None? <==> Remove(old(Table()), c, u).Success?
    {
      if !MemberOf(Table(), c, u) {
        return Some(NotMember);
      }
      var family := people[u].family;
      people := people[u := Person(None, None)];
      if family.Some? {
        DeleteIfEmpty(family.value);
      } else {
        assert families == Purged(Table(), {}).families;
      }
      return None;
    }

    method CreateFamily(c: Church, users: set<User>, id: Family) returns (refusal: Option<Refusal>)
      modifies this
      ensures Table() == Apply(old(Table()), DoCreate(c, users, id))
      ensures refusal.None? <==> Create(old(Table()), c, users, id).Success?
    {
      if users == {} {
        return Some(NobodyChosen);
      }
      if id in families {
        return Some(IdInUse);
      }
      if !AllMembers(Table(), c, users) {
        return Some(NotMembers);
      }
      var previous := Previous(people, users);
      families := families[id := c];
      people := Moved(people, users, Some(id));
      DeleteEmpty(previous);
      return None;
    }

    method UpdateFamily(c: Church, id: Family, users: set<User>) returns (refusal: Option<Refusal>)
      modifies this
      ensures Table() == Apply(old(Table()), DoUpdate(c, id, users))
      ensures refusal.None? <==> Update(old(Table()), c, id, users).Success?
    {
      if id !in families || families[id] != c {
        return Some(NoFamily);
      }
      if users != {} {
        if !AllMembers(Table(), c, users) {
          return Some(NotMembers);
        }
        var previous := Previous(people, users);
        people := Moved(people, users, Some(id));
        DeleteEmpty(previous - {id});
      }
      return None;
    }

    method DissolveFamily(c: Church, id: Family) returns (refusal: Option<Refusal>)
      modifies this
      ensures Table() == Apply(old(Table()), DoDissolve(c, id))
      ensures refusal.None? <==> Dissolve(old(Table()), c, id).Success?
    {
      if id !in families || families[id] != c {
        return Some(NoFamily);
      }
      people := Moved(people, PeopleOf(people, id), None);
      families := families - {id};
      return None;
    }

    method TakeOutOfFamily(c: Church, u: User) returns (refusal: Option<Refusal>)
      modifies this
      ensures Table() == Apply(old(Table()), DoTakeOut(c, u))
      ensures refusal.None? <==> TakeOut(old(Table()), c, u).Success?
    {
      if !MemberOf(Table(), c, u) {
        return Some(NotMember);
      }
      var family := people[u].family;
      if family.Some? {
        people := people[u := people[u].(family := None)];
        DeleteIfEmpty(family.value);
      } else {
        assert people[u := people[u].(family := None)] == people;
        assert families == Purged(Table(), {}).families;
      }
      return None;
    }
  }
}
