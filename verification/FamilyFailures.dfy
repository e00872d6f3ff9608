/** For each write that can go wrong with families, a run in which it does, from nobody at work
    to nobody at work. */
module FamilyFailures {
  import opened Wrappers
  import opened Families
  import opened FamilyRaces

  /** One more move. */
  lemma Next(h: Hall, ms: seq<Transaction>, m: Transaction)
    ensures RunHall(h, ms + [m]) == Stepped(RunHall(h, ms), m)
  {
    assert (ms + [m])[..|ms|] == ms;
  }

  // ---- one person ----------------------------------------------------------

  function Alone(p: Person, families: map<Family, Church>, work: map<Request, Work>): Hall {
    Hall(map[1 := p], families, work)
  }

  function Only(family: Option<Family>): set<Family> {
    if family.Some? then {family.value} else {}
  }

  lemma AloneReads(p: Person, families: map<Family, Church>, rest: map<Request, Work>, q: Request, id: Family)
    requires p.church == Some(9) && q !in rest
    ensures Stepped(Alone(p, families, rest), ReadRemoval(q, 9, 1)) ==
            Alone(p, families, rest[q := Removing(1, p.family)])
    ensures p.family.Some? ==>
              Stepped(Alone(p, families, rest), ReadTakeOut(q, 9, 1)) ==
              Alone(p, families, rest[q := TakingOut(1, p.family)])
    ensures Stepped(Alone(p, families, rest), ReadCreation(q, 9, {1}, id)) ==
            Alone(p, families, rest[q := Founding(9, {1}, Only(p.family), id)])
  {
    var h := Alone(p, families, rest);
    assert MemberOf(Table(h), 9, 1);
    assert Previous(h.people, {1}) == Only(p.family) by {
      assert FamilyOf(h.people, 1) == Only(p.family);
      forall f
        ensures f in Previous(h.people, {1}) <==> f in Only(p.family)
      {
        assert 1 in {1};
      }
    }
  }

  lemma AloneLeaves(families: map<Family, Church>, rest: map<Request, Work>, q: Request)
    requires q !in rest
    ensures Stepped(Alone(Person(Some(9), None), families, rest[q := Removing(1, None)]), Write(q)) ==
            Alone(Person(None, None), families, rest)
  {
    assert rest[q := Removing(1, None)] - {q} == rest;
  }

  lemma AloneTakenOut(p: Person, families: map<Family, Church>, rest: map<Request, Work>, q: Request, left: Family)
    requires q !in rest
    ensures Stepped(Alone(p, families, rest[q := TakingOut(1, Some(left))]), Write(q)) ==
            Alone(p.(family := None), families, rest[q := Counting({left})])
  {
  }

  lemma AloneFounds(p: Person, families: map<Family, Church>, rest: map<Request, Work>, q: Request,
                    previous: set<Family>, id: Family)
    requires q !in rest
    ensures id !in families ==>
              Stepped(Alone(p, families, rest[q := Founding(9, {1}, previous, id)]), Write(q)) ==
              Alone(p, families[id := 9], rest[q := Filling({1}, previous, id)])
    ensures id in families && id !in previous ==>
              Stepped(Alone(p, families, rest[q := Filling({1}, previous, id)]), Write(q)) ==
              Alone(p.(family := Some(id)), families, if previous == {} then rest else rest[q := Counting(previous)])
  {
    assert rest[q := Filling({1}, previous, id)] - {q} == rest;
    assert id !in previous ==> previous - {id} == previous;
    assert Moved(map[1 := p], {1}, Some(id)) == map[1 := p.(family := Some(id))];
  }

  lemma AloneCounts(p: Person, families: map<Family, Church>, rest: map<Request, Work>, q: Request, f: Family)
    requires q !in rest && p.family != Some(f)
    ensures Stepped(Alone(p, families, rest[q := Counting({f})]), Count(q, f)) ==
            Alone(p, families, rest[q := Deleting(f, {})])
    ensures Stepped(Alone(p, families, rest[q := Deleting(f, {})]), Write(q)) == Alone(p, families - {f}, rest)
  {
    var h := Alone(p, families, rest[q := Counting({f})]);
    assert Empty(h.people, f);
    assert {f} - {f} == {};
    assert rest[q := Deleting(f, {})] - {q} == rest;
    assert PeopleOf(h.people, f) == {};
    assert Moved(h.people, {}, None) == h.people;
    assert f !in families ==> families - {f} == families;
  }

  const PUT_IN_AFTER: seq<Transaction> :=
    [] + [ReadCreation(1, 9, {1}, 5)] + [ReadRemoval(2, 9, 1)] + [Write(2)] + [Write(1)] + [Write(1)]

  /** Somebody is removed from the church while a family is being made: the family has a
      person who is no member. */
  lemma PutInAfterLeaving()
    ensures var start := Alone(Person(Some(9), None), map[], map[]);
            && Good(start)
            && RunHall(start, PUT_IN_AFTER) == Alone(Person(None, Some(5)), map[5 := 9], map[])
            && !Inv(Table(RunHall(start, PUT_IN_AFTER)))
  {
    var member, gone := Person(Some(9), None), Person(None, None);
    var start := Alone(member, map[], map[]);
    QuietGood(start);
    var founding := map[1 := Founding(9, {1}, {}, 5)];
    var m1 := [] + [ReadCreation(1, 9, {1}, 5)];
    Next(start, [], ReadCreation(1, 9, {1}, 5));
    AloneReads(member, map[], map[], 1, 5);
    var m2 := m1 + [ReadRemoval(2, 9, 1)];
    Next(start, m1, ReadRemoval(2, 9, 1));
    AloneReads(member, map[], founding, 2, 5);
    var m3 := m2 + [Write(2)];
    Next(start, m2, Write(2));
    AloneLeaves(map[], founding, 2);
    var m4 := m3 + [Write(1)];
    Next(start, m3, Write(1));
    AloneFounds(gone, map[], map[], 1, {}, 5);
    Next(start, m4, Write(1));
    AloneFounds(gone, map[5 := 9], map[], 1, {}, 5);
    assert !Linked(map[5 := 9], Person(None, Some(5)));
  }

  const LEFT_EMPTY: seq<Transaction> :=
    [] + [ReadTakeOut(1, 9, 1)] + [ReadCreation(2, 9, {1}, 5)] + [Write(2)] + [Write(2)] + [Count(2, 4)]
    + [Write(2)] + [Write(1)] + [Count(1, 4)] + [Write(1)]

  const OLD_AND_NEW: map<Family, Church> := map[4 := 9, 5 := 9]
  const TAKING_OUT: map<Request, Work> := map[1 := TakingOut(1, Some(4))]

  /** Somebody is put in a new family while being taken out of the old one: the new one is
      left empty, and it is the old one that is counted. */
  lemma LeftEmptyUncounted()
    ensures var start := Alone(Person(Some(9), Some(4)), map[4 := 9], map[]);
            && Good(start)
            && RunHall(start, LEFT_EMPTY) == Alone(Person(Some(9), None), map[5 := 9], map[])
            && !Inv(Table(RunHall(start, LEFT_EMPTY)))
  {
    var start := Alone(Person(Some(9), Some(4)), map[4 := 9], map[]);
    assert InFamily(start.people, 4, 1);
    QuietGood(start);
    LeftEmptyStarts(start);
    var m4 := [] + [ReadTakeOut(1, 9, 1)] + [ReadCreation(2, 9, {1}, 5)] + [Write(2)] + [Write(2)];
    LeftEmptyGoesOn(start, m4);
    LeftEmptyEnds(start, m4 + [Count(2, 4)] + [Write(2)]);
    assert Empty(map[1 := Person(Some(9), None)], 5);
  }

  lemma LeftEmptyStarts(start: Hall)
    requires start == Alone(Person(Some(9), Some(4)), map[4 := 9], map[])
    ensures RunHall(start, [] + [ReadTakeOut(1, 9, 1)] + [ReadCreation(2, 9, {1}, 5)] + [Write(2)] + [Write(2)]) ==
            Alone(Person(Some(9), Some(5)), OLD_AND_NEW, TAKING_OUT[2 := Counting({4})])
  {
    var before := Person(Some(9), Some(4));
    Next(start, [], ReadTakeOut(1, 9, 1));
    AloneReads(before, map[4 := 9], map[], 1, 5);
    var m1 := [] + [ReadTakeOut(1, 9, 1)];
    Next(start, m1, ReadCreation(2, 9, {1}, 5));
    AloneReads(before, map[4 := 9], TAKING_OUT, 2, 5);
    var m2 := m1 + [ReadCreation(2, 9, {1}, 5)];
    Next(start, m2, Write(2));
    AloneFounds(before, map[4 := 9], TAKING_OUT, 2, {4}, 5);
    Next(start, m2 + [Write(2)], Write(2));
    AloneFounds(before, OLD_AND_NEW, TAKING_OUT, 2, {4}, 5);
  }

  lemma LeftEmptyGoesOn(start: Hall, ms: seq<Transaction>)
    requires RunHall(start, ms) == Alone(Person(Some(9), Some(5)), OLD_AND_NEW, TAKING_OUT[2 := Counting({4})])
    ensures RunHall(start, ms + [Count(2, 4)] + [Write(2)]) ==
            Alone(Person(Some(9), Some(5)), map[5 := 9], TAKING_OUT)
  {
    Next(start, ms, Count(2, 4));
    AloneCounts(Person(Some(9), Some(5)), OLD_AND_NEW, TAKING_OUT, 2, 4);
    Next(start, ms + [Count(2, 4)], Write(2));
    assert OLD_AND_NEW - {4} == map[5 := 9];
  }

  lemma LeftEmptyEnds(start: Hall, ms: seq<Transaction>)
    requires RunHall(start, ms) == Alone(Person(Some(9), Some(5)), map[5 := 9], TAKING_OUT)
    ensures RunHall(start, ms + [Write(1)] + [Count(1, 4)] + [Write(1)]) ==
            Alone(Person(Some(9), None), map[5 := 9], map[])
  {
    Next(start, ms, Write(1));
    AloneTakenOut(Person(Some(9), Some(5)), map[5 := 9], map[], 1, 4);
    var m1 := ms + [Write(1)];
    Next(start, m1, Count(1, 4));
    AloneCounts(Person(Some(9), None), map[5 := 9], map[], 1, 4);
    Next(start, m1 + [Count(1, 4)], Write(1));
    assert map[5 := 9] - {4} == map[5 := 9];
  }

  // ---- two people ----------------------------------------------------------

  function Pair(one: Family, other: Family, families: map<Family, Church>, work: map<Request, Work>): Hall {
    Hall(map[1 := Person(Some(9), Some(one)), 2 := Person(Some(9), Some(other))], families, work)
  }

  lemma PairReads(families: map<Family, Church>, rest: map<Request, Work>, q: Request, id: Family)
    requires q !in rest
    ensures Stepped(Pair(4, 5, families, rest), ReadCreation(q, 9, {1, 2}, id)) ==
            Pair(4, 5, families, rest[q := Founding(9, {1, 2}, {4, 5}, id)])
  {
    var h := Pair(4, 5, families, rest);
    assert MemberOf(Table(h), 9, 1) && MemberOf(Table(h), 9, 2);
    assert Previous(h.people, {1, 2}) == {4, 5} by {
      assert FamilyOf(h.people, 1) == {4} && FamilyOf(h.people, 2) == {5};
      forall f
        ensures f in Previous(h.people, {1, 2}) <==> f in {4, 5}
      {
        assert 1 in {1, 2} && 2 in {1, 2};
      }
    }
  }

  lemma PairFills(families: map<Family, Church>, rest: map<Request, Work>, q: Request)
    requires q !in rest && 6 in families
    ensures Stepped(Pair(4, 5, families, rest[q := Filling({1, 2}, {4, 5}, 6)]), Write(q)) ==
            Pair(6, 6, families, rest[q := Counting({4, 5})])
  {
    assert {4, 5} - {6} == {4, 5};
    assert Moved(Pair(4, 5, families, rest).people, {1, 2}, Some(6)) == Pair(6, 6, families, rest).people;
  }

  lemma PairDissolves(families: map<Family, Church>, rest: map<Request, Work>, q: Request)
    requires q !in rest && 4 in families && families[4] == 9
    ensures Stepped(Pair(4, 5, families, rest), ReadDissolution(q, 9, 4)) ==
            Pair(4, 5, families, rest[q := Dissolving(4)])
  {
  }

  lemma PairFounds(families: map<Family, Church>, rest: map<Request, Work>, q: Request)
    requires q !in rest && 6 !in families
    ensures Stepped(Pair(4, 5, families, rest[q := Founding(9, {1, 2}, {4, 5}, 6)]), Write(q)) ==
            Pair(4, 5, families[6 := 9], rest[q := Filling({1, 2}, {4, 5}, 6)])
  {
  }

  lemma PairCounts(families: map<Family, Church>, rest: map<Request, Work>, q: Request)
    requires q !in rest
    ensures Stepped(Pair(6, 6, families, rest[q := Counting({4, 5})]), Count(q, 4)) ==
            Pair(6, 6, families, rest[q := Deleting(4, {5})])
  {
    assert Empty(Pair(6, 6, families, rest).people, 4);
    assert {4, 5} - {4} == {5};
  }

  lemma PairStops(families: map<Family, Church>, rest: map<Request, Work>, q: Request)
    requires q !in rest && 4 !in families
    ensures Stepped(Pair(6, 6, families, rest[q := Deleting(4, {5})]), Write(q)) == Pair(6, 6, families, rest)
  {
    assert rest[q := Deleting(4, {5})] - {q} == rest;
  }

  /** The people left the family, and another request deletes it. */
  lemma PairDeletes(families: map<Family, Church>, rest: map<Request, Work>, q: Request)
    requires q !in rest && 4 in families
    ensures Stepped(Pair(6, 6, families, rest[q := Dissolving(4)]), Write(q)) ==
            Pair(6, 6, families, rest[q := Deleting(4, {})])
    ensures Stepped(Pair(6, 6, families, rest[q := Deleting(4, {})]), Write(q)) ==
            Pair(6, 6, families - {4}, rest)
  {
    var people := Pair(6, 6, families, rest).people;
    assert PeopleOf(people, 4) == {};
    assert Moved(people, {}, None) == people;
    assert rest[q := Deleting(4, {})] - {q} == rest;
  }

  const STOPPED: seq<Transaction> :=
    [] + [ReadDissolution(2, 9, 4)] + [ReadCreation(1, 9, {1, 2}, 6)] + [Write(1)] + [Write(1)] + [Count(1, 4)]
    + [Write(2)] + [Write(2)] + [Write(1)]

  const TWO_FAMILIES: map<Family, Church> := map[4 := 9, 5 := 9]
  const THREE_FAMILIES: map<Family, Church> := map[4 := 9, 5 := 9, 6 := 9]
  const DISSOLVING: map<Request, Work> := map[2 := Dissolving(4)]

  /** One of the two families that people left is dissolved by another request: deleting it
      again fails, and the other one is not counted. */
  lemma StoppedTooEarly()
    ensures var start := Pair(4, 5, TWO_FAMILIES, map[]);
            && Good(start)
            && RunHall(start, STOPPED) == Pair(6, 6, map[5 := 9, 6 := 9], map[])
            && !Inv(Table(RunHall(start, STOPPED)))
  {
    var start := Pair(4, 5, TWO_FAMILIES, map[]);
    assert InFamily(start.people, 4, 1) && InFamily(start.people, 5, 2);
    QuietGood(start);
    StoppedStarts(start);
    var m4 := [] + [ReadDissolution(2, 9, 4)] + [ReadCreation(1, 9, {1, 2}, 6)] + [Write(1)] + [Write(1)];
    StoppedEnds(start, m4);
    assert Empty(Pair(6, 6, map[5 := 9, 6 := 9], map[]).people, 5);
  }

  lemma StoppedStarts(start: Hall)
    requires start == Pair(4, 5, TWO_FAMILIES, map[])
    ensures RunHall(start, [] + [ReadDissolution(2, 9, 4)] + [ReadCreation(1, 9, {1, 2}, 6)]
                           + [Write(1)] + [Write(1)]) ==
            Pair(6, 6, THREE_FAMILIES, DISSOLVING[1 := Counting({4, 5})])
  {
    Next(start, [], ReadDissolution(2, 9, 4));
    PairDissolves(TWO_FAMILIES, map[], 2);
    var m1 := [] + [ReadDissolution(2, 9, 4)];
    Next(start, m1, ReadCreation(1, 9, {1, 2}, 6));
    PairReads(TWO_FAMILIES, DISSOLVING, 1, 6);
    var m2 := m1 + [ReadCreation(1, 9, {1, 2}, 6)];
    Next(start, m2, Write(1));
    PairFounds(TWO_FAMILIES, DISSOLVING, 1);
    Next(start, m2 + [Write(1)], Write(1));
    PairFills(THREE_FAMILIES, DISSOLVING, 1);
  }

  lemma StoppedEnds(start: Hall, ms: seq<Transaction>)
    requires RunHall(start, ms) == Pair(6, 6, THREE_FAMILIES, DISSOLVING[1 := Counting({4, 5})])
    ensures RunHall(start, ms + [Count(1, 4)] + [Write(2)] + [Write(2)] + [Write(1)]) ==
            Pair(6, 6, map[5 := 9, 6 := 9], map[])
  {
    var deleting := map[1 := Deleting(4, {5})];
    Next(start, ms, Count(1, 4));
    PairCounts(THREE_FAMILIES, DISSOLVING, 1);
    assert DISSOLVING[1 := Deleting(4, {5})] == deleting[2 := Dissolving(4)];
    var m1 := ms + [Count(1, 4)];
    Next(start, m1, Write(2));
    PairDeletes(THREE_FAMILIES, deleting, 2);
    Next(start, m1 + [Write(2)], Write(2));
    assert THREE_FAMILIES - {4} == map[5 := 9, 6 := 9];
    Next(start, m1 + [Write(2)] + [Write(2)], Write(1));
    PairStops(map[5 := 9, 6 := 9], map[], 1);
    assert map[][1 := Deleting(4, {5})] == deleting;
  }
}
