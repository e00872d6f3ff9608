/** What the operations on members and families answer and write, person by person and family by
    family. */
module FamiliesOutcomes {
  import opened Wrappers
  import opened Families

  /** Some of the family is not among these people. */
  predicate SomebodyElse(people: map<User, Person>, users: set<User>, f: Family) {
    exists u :: u in people && people[u].family == Some(f) && u !in users
  }

  lemma ElseIs(people: map<User, Person>, users: set<User>, f: Family)
    ensures SomebodyElse(people, users, f) <==> !(PeopleOf(people, f) <= users)
  {
    if !(PeopleOf(people, f) <= users) {
      var u :| u in PeopleOf(people, f) && u !in users;
      assert u in people && people[u].family == Some(f);
    }
    if u :| u in people && people[u].family == Some(f) && u !in users {
      assert InFamily(people, f, u);
      assert u in PeopleOf(people, f);
    }
  }

  /** Whoever has no church becomes a member of this one, and that is all. */
  lemma BecomeWrites(s: State, c: Church, u: User)
    ensures var r := Become(s, c, u);
      && (r.Success? <==> u in s.people && s.people[u].church.None?)
      && (r.Failure? ==> r.error == AlreadyMember)
      && (r.Success? ==>
        r.value == State(s.people[u := Person(Some(c), s.people[u].family)], s.families))
  {
  }

  /** A member of this church leaves it and their family; the family goes when nobody else is in it. */
  lemma RemoveWrites(s: State, c: Church, u: User, f: Family)
    requires Inv(s)
    ensures var r := Remove(s, c, u);
      && (r.Success? <==> u in s.people && s.people[u].church == Some(c))
      && (r.Failure? ==> r.error == NotMember)
      && (r.Success? ==>
        && r.value.people == s.people[u := Person(None, None)]
        && (f in r.value.families <==> f in s.families && SomebodyElse(s.people, {u}, f))
        && (f in r.value.families ==> r.value.families[f] == s.families[f]))
  {
    if u in s.people && s.people[u].church == Some(c) {
      assert MemberOf(s, c, u);
      OutMeaning(s, c, u);
      if f in s.families {
        StaysWith(s, u, f);
      }
    }
  }

  lemma StaysWith(s: State, u: User, f: Family)
    requires Inv(s) && f in s.families
    ensures SomebodyElse(s.people, {u}, f) <==> PeopleOf(s.people, f) != {u}
  {
    ElseIs(s.people, {u}, f);
    assert !Empty(s.people, f);
    var v :| v in s.people && InFamily(s.people, f, v);
    assert v in PeopleOf(s.people, f);
    if PeopleOf(s.people, f) <= {u} {
      assert v == u;
      assert PeopleOf(s.people, f) == {u};
    }
  }

  /** The same, but for the church. */
  lemma TakeOutWrites(s: State, c: Church, u: User, f: Family)
    requires Inv(s)
    ensures var r := TakeOut(s, c, u);
      && (r.Success? <==> u in s.people && s.people[u].church == Some(c))
      && (r.Failure? ==> r.error == NotMember)
      && (r.Success? ==>
        && r.value.people == s.people[u := Person(Some(c), None)]
        && (f in r.value.families <==> f in s.families && SomebodyElse(s.people, {u}, f))
        && (f in r.value.families ==> r.value.families[f] == s.families[f]))
  {
    if u in s.people && s.people[u].church == Some(c) {
      assert MemberOf(s, c, u);
      OutMeaning(s, c, u);
      if f in s.families {
        StaysWith(s, u, f);
      }
    }
  }

  /** All of them are members of this church. */
  predicate AllOf(s: State, c: Church, users: set<User>) {
    forall u :: u in users ==> u in s.people && s.people[u].church == Some(c)
  }

  /** A family is made of some members of this church. They leave their families for it, and those go
      that have nobody else; nobody else and no other family changes. */
  lemma CreateWrites(s: State, c: Church, users: set<User>, id: Family, u: User, f: Family)
    requires Inv(s)
    ensures var r := Create(s, c, users, id);
      && (r.Success? <==> users != {} && id !in s.families && AllOf(s, c, users))
      && (users == {} ==> r == Failure(NobodyChosen))
      && (users != {} && id in s.families ==> r == Failure(IdInUse))
      && (users != {} && id !in s.families && !AllOf(s, c, users) ==> r == Failure(NotMembers))
      && (r.Success? ==>
        && r.value.people.Keys == s.people.Keys
        && (u in s.people ==> r.value.people[u] == if u in users then Person(Some(c), Some(id)) else s.people[u])
        && (f in r.value.families <==> f == id || (f in s.families && SomebodyElse(s.people, users, f)))
        && (f in r.value.families ==> r.value.families[f] == if f == id then c else s.families[f]))
  {
    assert AllOf(s, c, users) <==> AllMembers(s, c, users) by {
      assert forall v :: v in users ==> (MemberOf(s, c, v) <==> v in s.people && s.people[v].church == Some(c));
    }
    if Create(s, c, users, id).Success? {
      CreateMeaning(s, c, users, id);
      ElseIs(s.people, users, f);
    }
  }

  /** Members are added to a family of this church: the same for them and the families they leave. */
  lemma UpdateWrites(s: State, c: Church, id: Family, users: set<User>, u: User, f: Family)
    requires Inv(s)
    ensures var r := Update(s, c, id, users);
      && (r == Failure(NoFamily) <==> !(id in s.families && s.families[id] == c))
      && (r == Failure(NotMembers) <==> id in s.families && s.families[id] == c && !AllOf(s, c, users))
      && (r.Success? <==> id in s.families && s.families[id] == c && AllOf(s, c, users))
      && (r.Success? ==>
        && r.value.people.Keys == s.people.Keys
        && (u in s.people ==> r.value.people[u] == if u in users then Person(Some(c), Some(id)) else s.people[u])
        && (f in r.value.families <==> f in s.families && (f == id || SomebodyElse(s.people, users, f)))
        && (f in r.value.families ==> r.value.families[f] == s.families[f]))
  {
    assert AllOf(s, c, users) <==> AllMembers(s, c, users) by {
      assert forall v :: v in users ==> (MemberOf(s, c, v) <==> v in s.people && s.people[v].church == Some(c));
    }
    if Update(s, c, id, users).Success? {
      UpdateMeaning(s, c, id, users);
      ElseIs(s.people, users, f);
    }
  }

  /** A family of this church is dissolved: its people have none, and are members still. */
  lemma DissolveWrites(s: State, c: Church, id: Family, u: User)
    requires Inv(s)
    ensures var r := Dissolve(s, c, id);
      && (r.Success? <==> id in s.families && s.families[id] == c)
      && (r.Failure? ==> r.error == NoFamily)
      && (r.Success? ==>
        && r.value.families == s.families - {id} && r.value.people.Keys == s.people.Keys
        && (u in s.people ==>
          r.value.people[u] == if s.people[u].family == Some(id) then Person(Some(c), None) else s.people[u]))
  {
    if Dissolve(s, c, id).Success? {
      DissolveMeaning(s, c, id);
      assert u in PeopleOf(s.people, id) <==> u in s.people && s.people[u].family == Some(id);
    }
  }
}
