/** Members and families with the writes of many requests interleaved: nothing here runs in one
    transaction, and what a request checks it read before. Deleting a family leaves its people
    without one. */
module FamilyRaces {
  import opened Wrappers
  import opened Families

  type Request = nat

  /** What a request that passed its checks is still to do. `left` and `previous` are the
      families it read that people leave. */
  datatype Work =
    | Removing(user: User, left: Option<Family>)
    | TakingOut(user: User, left: Option<Family>)
    | Founding(c: Church, users: set<User>, previous: set<Family>, id: Family)
    | Filling(users: set<User>, previous: set<Family>, id: Family)
    | Dissolving(id: Family)
    | Counting(rest: set<Family>)
    | Deleting(id: Family, rest: set<Family>)

  datatype Hall = Hall(people: map<User, Person>, families: map<Family, Church>, work: map<Request, Work>)

  datatype Transaction =
    | BecomeNow(c: Church, u: User)
    | ReadRemoval(q: Request, c: Church, u: User)
    | ReadTakeOut(q: Request, c: Church, u: User)
    | ReadCreation(q: Request, c: Church, users: set<User>, id: Family)
    | ReadUpdate(q: Request, c: Church, id: Family, users: set<User>)
    | ReadDissolution(q: Request, c: Church, id: Family)
    | Count(q: Request, f: Family)
    | Write(q: Request)

  function Table(h: Hall): State {
    State(h.people, h.families)
  }

  function Planned(h: Hall, q: Request, w: Work): Hall {
    if q in h.work then h else h.(work := h.work[q := w])
  }

  /** The next family to count, if any is left. */
  function CountNext(h: Hall, q: Request, rest: set<Family>): Hall {
    h.(work := if rest == {} then h.work - {q} else h.work[q := Counting(rest)])
  }

  function Written(h: Hall, q: Request, w: Work): Hall {
    match w
    case Removing(u, left) =>
      CountNext(
        if u in h.people then h.(people := h.people[u := Person(None, None)]) else h,
        q, if left.Some? then {left.value} else {})
    case TakingOut(u, left) =>
      CountNext(
        if u in h.people then h.(people := h.people[u := h.people[u].(family := None)]) else h,
        q, if left.Some? then {left.value} else {})
    case Founding(c, users, previous, id) =>
      if id in h.families then CountNext(h, q, {})
      else Hall(h.people, h.families[id := c], h.work[q := Filling(users, previous, id)])
    case Filling(users, previous, id) =>
      if id !in h.families then CountNext(h, q, {})
      else CountNext(h.(people := Moved(h.people, users, Some(id))), q, previous - {id})
    case Dissolving(id) =>
      Hall(Moved(h.people, PeopleOf(h.people, id), None), h.families, h.work[q := Deleting(id, {})])
    case Deleting(id, rest) =>
      if id !in h.families then CountNext(h, q, {})
      else
        CountNext(
          Hall(Moved(h.people, PeopleOf(h.people, id), None), h.families - {id}, h.work),
          q, rest)
    case Counting(_) => h
  }

  function Stepped(h: Hall, m: Transaction): Hall {
    match m
    case BecomeNow(c, u) =>
      var end := Become(Table(h), c, u);
      if end.Success? then h.(people := end.value.people) else h
    case ReadRemoval(q, c, u) =>
      if MemberOf(Table(h), c, u) then Planned(h, q, Removing(u, h.people[u].family)) else h
    case ReadTakeOut(q, c, u) =>
      if MemberOf(Table(h), c, u) && h.people[u].family.Some? then
        Planned(h, q, TakingOut(u, h.people[u].family))
      else h
    case ReadCreation(q, c, users, id) =>
      if users != {} && AllMembers(Table(h), c, users) then
        Planned(h, q, Founding(c, users, Previous(h.people, users), id))
      else h
    case ReadUpdate(q, c, id, users) =>
      if id in h.families && h.families[id] == c && users != {} && AllMembers(Table(h), c, users) then
        Planned(h, q, Filling(users, Previous(h.people, users), id))
      else h
    case ReadDissolution(q, c, id) =>
      if id in h.families && h.families[id] == c then Planned(h, q, Dissolving(id)) else h
    case Count(q, f) =>
      if q in h.work && h.work[q].Counting? && f in h.work[q].rest then
        if Empty(h.people, f) then h.(work := h.work[q := Deleting(f, h.work[q].rest - {f})])
        else CountNext(h, q, h.work[q].rest - {f})
      else h
    case Write(q) => if q in h.work then Written(h, q, h.work[q]) else h
  }

  function RunHall(h: Hall, ms: seq<Transaction>): Hall {
    if ms == [] then h else Stepped(RunHall(h, ms[..|ms| - 1]), ms[|ms| - 1])
  }

  // ---- what is to hold all along -------------------------------------------

  /** This request is still to fill the family, or to count it, or to delete it. */
  predicate Minds(w: Work, f: Family) {
    match w
    case Removing(_, left) => left == Some(f)
    case TakingOut(_, left) => left == Some(f)
    case Founding(_, _, previous, _) => f in previous
    case Filling(_, previous, id) => f == id || f in previous
    case Dissolving(id) => f == id
    case Counting(rest) => f in rest
    case Deleting(id, rest) => f == id || f in rest
  }

  predicate Minded(h: Hall, f: Family) {
    exists q :: q in h.work && Minds(h.work[q], f)
  }

  /** The requests that fill a family have people to put in it. */
  predicate WorkGood(people: map<User, Person>, w: Work) {
    match w
    case Founding(_, users, _, _) => users != {} && users <= people.Keys
    case Filling(users, _, _) => users != {} && users <= people.Keys
    case Removing(u, _) => u in people
    case TakingOut(u, _) => u in people
    case _ => true
  }

  predicate FamilyGood(h: Hall, f: Family) {
    f in h.families ==> !Empty(h.people, f) || Minded(h, f)
  }

  predicate PersonGood(h: Hall, u: User) {
    u in h.people ==> Linked(h.families, h.people[u])
  }

  /** Every link leads to a family of the person's own church, and a family that is empty is
      one that a request at work is still to fill, to count or to delete. */
  ghost predicate Good(h: Hall) {
    && (forall u: User :: PersonGood(h, u))
    && (forall f: Family :: FamilyGood(h, f))
    && (forall q: Request :: q in h.work ==> WorkGood(h.people, h.work[q]))
  }

  // ---- which writes keep it ------------------------------------------------

  /** Nobody else is in the family. */
  predicate LeavesEmpty(people: map<User, Person>, users: set<User>, f: Family) {
    PeopleOf(people, f) <= users
  }

  /** A family that the person leaves empty is minded, by this request or another. */
  predicate SafeToLeave(h: Hall, u: User) {
    u in h.people && h.people[u].family.Some? && LeavesEmpty(h.people, {u}, h.people[u].family.value) ==>
      Minded(h, h.people[u].family.value)
  }

  /** The people are still members of the family's church, and every family they leave empty
      is minded. */
  predicate SafeToFill(h: Hall, users: set<User>, id: Family)
    requires id in h.families
  {
    && (forall u :: u in users && u in h.people ==> h.people[u].church == Some(h.families[id]))
    && (forall f :: f in h.families && f != id && LeavesEmpty(h.people, users, f) ==> Minded(h, f))
  }

  predicate MindedByOther(h: Hall, q: Request, f: Family) {
    exists k :: k in h.work && k != q && Minds(h.work[k], f)
  }

  /** The request ends early: none of the families it had still to count is empty, unless
      another request minds it. */
  predicate SafeToStop(h: Hall, q: Request, rest: set<Family>) {
    forall f :: f in rest && f in h.families && Empty(h.people, f) ==> MindedByOther(h, q, f)
  }

  /** What a write has to find. A request ends early when the family it is to fill or to delete
      is gone, or the one it is to create is there. */
  predicate Safe(h: Hall, m: Transaction) {
    m.Write? && m.q in h.work ==>
      match h.work[m.q]
      case Removing(u, _) => SafeToLeave(h, u)
      case TakingOut(u, _) => SafeToLeave(h, u)
      case Founding(_, _, previous, id) => id in h.families ==> SafeToStop(h, m.q, previous)
      case Filling(users, previous, id) =>
        if id in h.families then SafeToFill(h, users, id) else SafeToStop(h, m.q, previous)
      case Deleting(id, rest) => id !in h.families ==> SafeToStop(h, m.q, rest)
      case _ => true
  }

  // ---- who minds what ------------------------------------------------------

  predicate MindsNow(h: Hall, q: Request, f: Family) {
    q in h.work && Minds(h.work[q], f)
  }

  /** Only the request itself changes what it minds. */
  lemma MindedAfter(h: Hall, h': Hall, q: Request, f: Family)
    requires forall k :: k != q ==> (k in h.work <==> k in h'.work)
    requires forall k :: k != q && k in h.work && k in h'.work ==> h.work[k] == h'.work[k]
    ensures Minded(h', f) <==> MindedByOther(h, q, f) || MindsNow(h', q, f)
    ensures Minded(h, f) <==> MindedByOther(h, q, f) || MindsNow(h, q, f)
  {
    if Minded(h', f) {
      var k :| k in h'.work && Minds(h'.work[k], f);
      assert k != q ==> k in h.work && Minds(h.work[k], f);
    }
    if MindedByOther(h, q, f) {
      var k :| k in h.work && k != q && Minds(h.work[k], f);
      assert k in h'.work && Minds(h'.work[k], f);
    }
  }

  /** The tables as they are, and a request that minds no less. */
  lemma WorkKeeps(h: Hall, h': Hall, q: Request)
    requires Good(h) && h.people == h'.people && h.families == h'.families
    requires forall k :: k != q ==> (k in h.work <==> k in h'.work)
    requires forall k :: k != q && k in h.work && k in h'.work ==> h.work[k] == h'.work[k]
    requires forall f :: f in h.families && Empty(h.people, f) && MindsNow(h, q, f) ==> MindsNow(h', q, f)
    requires q in h'.work ==> WorkGood(h.people, h'.work[q])
    ensures Good(h')
  {
    forall u: User
      ensures PersonGood(h', u)
    {
      assert PersonGood(h, u);
    }
    forall f: Family
      ensures FamilyGood(h', f)
    {
      assert FamilyGood(h, f);
      MindedAfter(h, h', q, f);
    }
    forall k: Request | k in h'.work
      ensures WorkGood(h'.people, h'.work[k])
    {
      assert k != q ==> WorkGood(h.people, h.work[k]);
    }
  }

  /** Some people go to a family, or to none: exactly right when the links are, and when what
      they leave empty is minded. */
  lemma MoveExact(h: Hall, h': Hall, q: Request, users: set<User>)
    requires Good(h) && h'.people.Keys == h.people.Keys && h'.families == h.families
    requires forall u :: u in h.people && u !in users ==> h'.people[u] == h.people[u]
    requires forall k :: k != q ==> (k in h.work <==> k in h'.work)
    requires forall k :: k != q && k in h.work && k in h'.work ==> h.work[k] == h'.work[k]
    requires q in h'.work ==> WorkGood(h'.people, h'.work[q])
    ensures Good(h') <==>
            (forall u :: u in users ==> PersonGood(h', u)) && (forall f: Family :: FamilyGood(h', f))
  {
    if (forall u :: u in users ==> PersonGood(h', u)) && (forall f: Family :: FamilyGood(h', f)) {
      forall u: User
        ensures PersonGood(h', u)
      {
        assert PersonGood(h, u);
      }
      forall k: Request | k in h'.work
        ensures WorkGood(h'.people, h'.work[k])
      {
        assert k != q ==> WorkGood(h.people, h.work[k]);
      }
    }
  }

  // ---- write by write ------------------------------------------------------

  /** One person leaves a family, and perhaps the church. */
  function OneGone(h: Hall, q: Request, u: User, left: Option<Family>, p: Person): Hall {
    CountNext(h.(people := h.people[u := p]), q, if left.Some? then {left.value} else {})
  }

  lemma LeaveFamilies(h: Hall, q: Request, u: User, left: Option<Family>, p: Person, f: Family)
    requires Good(h) && q in h.work && (h.work[q] == Removing(u, left) || h.work[q] == TakingOut(u, left))
    requires u in h.people && p.family.None? && f in h.families
    ensures FamilyGood(OneGone(h, q, u, left, p), f) <==>
            (h.people[u].family == Some(f) && LeavesEmpty(h.people, {u}, f) ==> Minded(h, f))
  {
    var h' := OneGone(h, q, u, left, p);
    assert FamilyGood(h, f);
    MindedAfter(h, h', q, f);
    assert MindsNow(h', q, f) <==> left == Some(f);
    assert MindsNow(h, q, f) <==> left == Some(f);
    EmptyAfterLeaving(h.people, u, p, f);
  }

  lemma EmptyAfterLeaving(people: map<User, Person>, u: User, p: Person, f: Family)
    requires u in people && p.family.None?
    ensures Empty(people[u := p], f) <==> LeavesEmpty(people, {u}, f)
    ensures people[u].family != Some(f) ==> (Empty(people[u := p], f) <==> Empty(people, f))
  {
    var after := people[u := p];
    forall v
      ensures InFamily(after, f, v) <==> InFamily(people, f, v) && v != u
    {
    }
    forall v
      ensures v in PeopleOf(people, f) <==> InFamily(people, f, v)
    {
    }
    if Empty(after, f) {
      forall v | v in PeopleOf(people, f)
        ensures v == u
      {
        assert v in after ==> !InFamily(after, f, v);
      }
    }
    if LeavesEmpty(people, {u}, f) {
      forall v | v in after
        ensures !InFamily(after, f, v)
      {
        assert v in PeopleOf(people, f) ==> v in {u};
      }
    }
  }

  lemma LeaveExact(h: Hall, q: Request, u: User, left: Option<Family>, p: Person)
    requires Good(h) && q in h.work && (h.work[q] == Removing(u, left) || h.work[q] == TakingOut(u, left))
    requires u in h.people && p.family.None?
    ensures Good(OneGone(h, q, u, left, p)) <==> SafeToLeave(h, u)
  {
    var h' := OneGone(h, q, u, left, p);
    MoveExact(h, h', q, {u});
    assert PersonGood(h, u) && PersonGood(h', u);
    forall f: Family | f in h.families
      ensures FamilyGood(h', f) <==>
              (h.people[u].family == Some(f) && LeavesEmpty(h.people, {u}, f) ==> Minded(h, f))
    {
      LeaveFamilies(h, q, u, left, p, f);
    }
    if h.people[u].family.Some? {
      assert FamilyGood(h', h.people[u].family.value) || !SafeToLeave(h, u);
    }
  }

  /** The people go to the family. */
  function AllIn(h: Hall, q: Request, users: set<User>, previous: set<Family>, id: Family): Hall {
    CountNext(h.(people := Moved(h.people, users, Some(id))), q, previous - {id})
  }

  lemma EmptyAfterFilling(people: map<User, Person>, users: set<User>, id: Family, f: Family)
    requires f != id
    ensures Empty(Moved(people, users, Some(id)), f) <==> LeavesEmpty(people, users, f)
  {
    var after := Moved(people, users, Some(id));
    if Empty(after, f) {
      forall v | v in PeopleOf(people, f)
        ensures v in users
      {
        assert v in after && !InFamily(after, f, v);
      }
    }
    if LeavesEmpty(people, users, f) {
      forall v | v in after
        ensures !InFamily(after, f, v)
      {
        assert InFamily(people, f, v) ==> v in PeopleOf(people, f);
      }
    }
  }

  lemma FillFamilies(h: Hall, q: Request, users: set<User>, previous: set<Family>, id: Family, f: Family)
    requires Good(h) && q in h.work && h.work[q] == Filling(users, previous, id) && f in h.families
    ensures f == id ==> FamilyGood(AllIn(h, q, users, previous, id), f)
    ensures f != id ==>
              (FamilyGood(AllIn(h, q, users, previous, id), f) <==>
               (LeavesEmpty(h.people, users, f) ==> Minded(h, f)))
  {
    var h' := AllIn(h, q, users, previous, id);
    MindedAfter(h, h', q, f);
    if f == id {
      assert WorkGood(h.people, h.work[q]);
      var u :| u in users;
      assert InFamily(h'.people, id, u);
    } else {
      EmptyAfterFilling(h.people, users, id, f);
      assert h'.people == Moved(h.people, users, Some(id));
      var rest := previous - {id};
      assert f in rest <==> f in previous;
      assert rest == {} ==> q !in h'.work;
      assert rest != {} ==> q in h'.work && h'.work[q] == Counting(rest);
      assert MindsNow(h', q, f) <==> f in previous;
      assert MindsNow(h, q, f) <==> f in previous;
    }
  }

  lemma FillExact(h: Hall, q: Request, users: set<User>, previous: set<Family>, id: Family)
    requires Good(h) && q in h.work && h.work[q] == Filling(users, previous, id) && id in h.families
    ensures Good(AllIn(h, q, users, previous, id)) <==> SafeToFill(h, users, id)
  {
    var h' := AllIn(h, q, users, previous, id);
    MoveExact(h, h', q, users);
    forall u | u in users
      ensures PersonGood(h', u) <==> (u in h.people ==> h.people[u].church == Some(h.families[id]))
    {
    }
    forall f: Family | f in h.families
      ensures FamilyGood(h', f) <==> (f != id && LeavesEmpty(h.people, users, f) ==> Minded(h, f))
    {
      FillFamilies(h, q, users, previous, id, f);
    }
    forall f: Family | f !in h.families
      ensures FamilyGood(h', f)
    {
    }
  }

  /** Nobody is left in the family, and its row goes when `deleted`. */
  function ClearedHall(h: Hall, q: Request, id: Family, deleted: bool, rest: set<Family>): Hall {
    var people := Moved(h.people, PeopleOf(h.people, id), None);
    if deleted then CountNext(Hall(people, h.families - {id}, h.work), q, rest)
    else Hall(people, h.families, h.work[q := Deleting(id, {})])
  }

  lemma ClearKeeps(h: Hall, q: Request, id: Family, deleted: bool, rest: set<Family>)
    requires Good(h) && q in h.work
    requires if deleted then h.work[q] == Deleting(id, rest) else h.work[q] == Dissolving(id)
    ensures Good(ClearedHall(h, q, id, deleted, rest))
  {
    var h' := ClearedHall(h, q, id, deleted, rest);
    forall u: User
      ensures PersonGood(h', u)
    {
      assert PersonGood(h, u);
      assert u in h.people ==> (u in PeopleOf(h.people, id) <==> h.people[u].family == Some(id));
    }
    forall f: Family
      ensures FamilyGood(h', f)
    {
      assert FamilyGood(h, f);
      MindedAfter(h, h', q, f);
      if f != id && !Empty(h.people, f) {
        var u :| u in h.people && InFamily(h.people, f, u);
        assert InFamily(h'.people, f, u);
      }
    }
    forall k: Request | k in h'.work
      ensures WorkGood(h'.people, h'.work[k])
    {
      assert k != q ==> WorkGood(h.people, h.work[k]);
    }
  }

  /** The families a request is still to count when it ends early. */
  function LeftToCount(w: Work): set<Family> {
    match w
    case Founding(_, _, previous, _) => previous
    case Filling(_, previous, _) => previous
    case Deleting(_, rest) => rest
    case _ => {}
  }

  predicate EndsEarly(h: Hall, w: Work) {
    match w
    case Founding(_, _, _, id) => id in h.families
    case Filling(_, _, id) => id !in h.families
    case Deleting(id, _) => id !in h.families
    case _ => false
  }

  lemma StopExact(h: Hall, q: Request)
    requires Good(h) && q in h.work && EndsEarly(h, h.work[q])
    ensures Written(h, q, h.work[q]) == CountNext(h, q, {})
    ensures Good(CountNext(h, q, {})) <==> SafeToStop(h, q, LeftToCount(h.work[q]))
  {
    var h' := CountNext(h, q, {});
    var rest := LeftToCount(h.work[q]);
    forall f: Family
      ensures FamilyGood(h', f) <==>
              (f in rest && f in h.families && Empty(h.people, f) ==> MindedByOther(h, q, f))
    {
      assert FamilyGood(h, f);
      MindedAfter(h, h', q, f);
    }
    MoveExact(h, h', q, {});
  }

  lemma FoundKeeps(h: Hall, q: Request)
    requires Good(h) && q in h.work && h.work[q].Founding? && h.work[q].id !in h.families
    ensures Good(Written(h, q, h.work[q]))
  {
    var w := h.work[q];
    var h' := Written(h, q, w);
    assert WorkGood(h.people, w);
    forall u: User
      ensures PersonGood(h', u)
    {
      assert PersonGood(h, u);
    }
    forall f: Family
      ensures FamilyGood(h', f)
    {
      assert FamilyGood(h, f);
      MindedAfter(h, h', q, f);
      assert MindsNow(h, q, f) ==> MindsNow(h', q, f);
    }
    forall k: Request | k in h'.work
      ensures WorkGood(h'.people, h'.work[k])
    {
      assert k != q ==> WorkGood(h.people, h.work[k]);
    }
  }

  lemma WriteExact(h: Hall, q: Request)
    requires Good(h) && q in h.work
    ensures Good(Written(h, q, h.work[q])) <==> Safe(h, Write(q))
  {
    assert WorkGood(h.people, h.work[q]);
    match h.work[q]
    case Removing(u, left) => LeaveExact(h, q, u, left, Person(None, None));
    case TakingOut(u, left) => LeaveExact(h, q, u, left, h.people[u].(family := None));
    case Founding(_, _, _, id) =>
      if id in h.families {
        StopExact(h, q);
      } else {
        FoundKeeps(h, q);
      }
    case Filling(users, previous, id) =>
      if id in h.families {
        FillExact(h, q, users, previous, id);
      } else {
        StopExact(h, q);
      }
    case Dissolving(id) => ClearKeeps(h, q, id, false, {});
    case Deleting(id, rest) =>
      if id in h.families {
        ClearKeeps(h, q, id, true, rest);
      } else {
        StopExact(h, q);
      }
    case Counting(_) =>
  }

  lemma ReadKeeps(h: Hall, m: Transaction)
    requires Good(h) && !m.Write? && !m.BecomeNow? && !m.Count?
    ensures Good(Stepped(h, m))
  {
    if m.q !in h.work {
      forall u: User
        ensures PersonGood(h, u)
      {
      }
      if m.ReadCreation? || m.ReadUpdate? {
        forall u | u in m.users && AllMembers(Table(h), m.c, m.users)
          ensures u in h.people
        {
          assert MemberOf(Table(h), m.c, u);
        }
      }
      WorkKeeps(h, Stepped(h, m), m.q);
    }
  }

  lemma CountKeeps(h: Hall, q: Request, f: Family)
    requires Good(h)
    ensures Good(Stepped(h, Count(q, f)))
  {
    if q in h.work && h.work[q].Counting? && f in h.work[q].rest {
      WorkKeeps(h, Stepped(h, Count(q, f)), q);
    }
  }

  lemma BecomeGood(h: Hall, c: Church, u: User)
    requires Good(h)
    ensures Good(Stepped(h, BecomeNow(c, u)))
  {
    if Become(Table(h), c, u).Success? {
      var h' := Stepped(h, BecomeNow(c, u));
      forall v: User
        ensures PersonGood(h', v)
      {
        assert PersonGood(h, v);
      }
      forall f: Family
        ensures FamilyGood(h', f)
      {
        assert FamilyGood(h, f);
        assert Minded(h', f) <==> Minded(h, f);
        if !Empty(h.people, f) {
          var v :| v in h.people && InFamily(h.people, f, v);
          assert InFamily(h'.people, f, v);
        }
      }
      forall k: Request | k in h'.work
        ensures WorkGood(h'.people, h'.work[k])
      {
        assert WorkGood(h.people, h.work[k]);
      }
    }
  }

  lemma StepExact(h: Hall, m: Transaction)
    requires Good(h)
    ensures Good(Stepped(h, m)) <==> Safe(h, m)
  {
    match m
    case BecomeNow(c, u) => BecomeGood(h, c, u);
    case Count(q, f) => CountKeeps(h, q, f);
    case Write(q) =>
      if q in h.work {
        WriteExact(h, q);
      }
    case _ => ReadKeeps(h, m);
  }

  // ---- every interleaving --------------------------------------------------

  ghost predicate GoodAlong(h: Hall, ms: seq<Transaction>) {
    Good(RunHall(h, ms)) && (ms != [] ==> GoodAlong(h, ms[..|ms| - 1]))
  }

  predicate SafeAlong(h: Hall, ms: seq<Transaction>) {
    ms != [] ==> SafeAlong(h, ms[..|ms| - 1]) && Safe(RunHall(h, ms[..|ms| - 1]), ms[|ms| - 1])
  }

  /** However the reads and the writes of any number of requests interleave: every link leads
      to a family of the person's own church, and every empty family is still to be filled,
      counted or deleted by a request at work, all along exactly when whoever is put in a family
      is still a member of its church, no family is left empty that no request minds, and no
      request ends early with an empty family to count that no other minds. */
  lemma {:induction false} RunExact(h: Hall, ms: seq<Transaction>)
    requires Good(h)
    ensures GoodAlong(h, ms) <==> SafeAlong(h, ms)
  {
    if ms == [] {
    } else {
      var n := |ms| - 1;
      RunExact(h, ms[..n]);
      if GoodAlong(h, ms[..n]) {
        StepExact(RunHall(h, ms[..n]), ms[n]);
      }
    }
  }

  /** With nobody at work this is what whole operations keep. */
  lemma QuietGood(h: Hall)
    requires h.work == map[]
    ensures Good(h) <==> Inv(Table(h))
  {
    forall f: Family
      ensures !Minded(h, f)
    {
    }
    if Good(h) {
      forall u | u in h.people
        ensures Linked(h.families, h.people[u])
      {
        assert PersonGood(h, u);
      }
      forall f | f in h.families
        ensures !Empty(h.people, f)
      {
        assert FamilyGood(h, f);
      }
    }
  }

  // ---- undisturbed ---------------------------------------------------------

  lemma {:induction false} RunsOn(h: Hall, first: seq<Transaction>, more: seq<Transaction>)
    ensures RunHall(h, first + more) == RunHall(RunHall(h, first), more)
  {
    if more == [] {
      assert first + more == first;
    } else {
      var n := |more| - 1;
      assert (first + more)[..|first + more| - 1] == first + more[..n];
      RunsOn(h, first, more[..n]);
    }
  }

  lemma TwoMoves(h: Hall, m: Transaction, n: Transaction)
    ensures RunHall(h, [m, n]) == Stepped(Stepped(h, m), n)
  {
    assert [m, n][..1] == [m];
    assert [m][..0] == [];
    assert RunHall(h, [m]) == Stepped(h, m);
  }

  function Elements(order: seq<Family>): set<Family> {
    set f | f in order
  }

  predicate Once(order: seq<Family>) {
    forall i, j :: 0 <= i < j < |order| ==> order[i] != order[j]
  }

  /** The families are counted in this order, and the empty ones deleted. */
  function Counts(people: map<User, Person>, q: Request, order: seq<Family>): seq<Transaction> {
    if order == [] then []
    else
      [Count(q, order[0])] + (if Empty(people, order[0]) then [Write(q)] else []) + Counts(people, q, order[1..])
  }

  function Purging(s: State, others: map<Request, Work>, q: Request, rest: set<Family>): Hall {
    Hall(s.people, s.families, if rest == {} then others else others[q := Counting(rest)])
  }

  lemma NothingMoves(people: map<User, Person>, f: Family)
    requires Empty(people, f)
    ensures Moved(people, PeopleOf(people, f), None) == people
  {
    forall u | u in people
      ensures u !in PeopleOf(people, f)
    {
      assert !InFamily(people, f, u);
    }
  }

  lemma CountsFull(s: State, others: map<Request, Work>, q: Request, f: Family, rest: set<Family>)
    requires q !in others && f in rest && f in s.families && !Empty(s.people, f)
    ensures Stepped(Purging(s, others, q, rest), Count(q, f)) == Purging(Purged(s, {f}), others, q, rest - {f})
  {
    assert Purged(s, {f}).families == s.families;
    assert others[q := Counting(rest)] - {q} == others;
    assert others[q := Counting(rest)][q := Counting(rest - {f})] == others[q := Counting(rest - {f})];
  }

  lemma CountsEmpty(s: State, others: map<Request, Work>, q: Request, f: Family, rest: set<Family>)
    requires q !in others && f in rest && f in s.families && Empty(s.people, f)
    ensures Stepped(Stepped(Purging(s, others, q, rest), Count(q, f)), Write(q)) ==
            Purging(Purged(s, {f}), others, q, rest - {f})
  {
    NothingMoves(s.people, f);
    var deleting := others[q := Deleting(f, rest - {f})];
    assert others[q := Counting(rest)][q := Deleting(f, rest - {f})] == deleting;
    assert Stepped(Purging(s, others, q, rest), Count(q, f)) == Hall(s.people, s.families, deleting);
    assert Purged(s, {f}).families == s.families - {f};
    assert deleting - {q} == others;
    assert deleting[q := Counting(rest - {f})] == others[q := Counting(rest - {f})];
  }

  lemma CountsOne(s: State, others: map<Request, Work>, q: Request, f: Family, rest: set<Family>)
    requires q !in others && f in rest && f in s.families
    ensures RunHall(Purging(s, others, q, rest), [Count(q, f)] + (if Empty(s.people, f) then [Write(q)] else [])) ==
            Purging(Purged(s, {f}), others, q, rest - {f})
  {
    var h := Purging(s, others, q, rest);
    if Empty(s.people, f) {
      CountsEmpty(s, others, q, f, rest);
      assert [Count(q, f)] + [Write(q)] == [Count(q, f), Write(q)];
      TwoMoves(h, Count(q, f), Write(q));
    } else {
      CountsFull(s, others, q, f, rest);
      assert [Count(q, f)] + [] == [Count(q, f)];
      assert [Count(q, f)][..0] == [];
    }
  }

  /** Counting and deleting undisturbed is the whole purge, in whatever order. */
  lemma {:induction false} WholePurge(s: State, others: map<Request, Work>, q: Request, order: seq<Family>)
    requires q !in others && Once(order) && Elements(order) <= s.families.Keys
    ensures RunHall(Purging(s, others, q, Elements(order)), Counts(s.people, q, order)) ==
            Purging(Purged(s, Elements(order)), others, q, {})
    decreases |order|
  {
    var h := Purging(s, others, q, Elements(order));
    if order == [] {
      assert Purged(s, {}).families == s.families;
    } else {
      var f := order[0];
      var one := [Count(q, f)] + (if Empty(s.people, f) then [Write(q)] else []);
      var t := Purged(s, {f});
      assert Elements(order[1..]) == Elements(order) - {f} by {
        forall g
          ensures g in order[1..] <==> g in order && g != f
        {
        }
      }
      CountsOne(s, others, q, f, Elements(order));
      WholePurge(t, others, q, order[1..]);
      RunsOn(h, one, Counts(s.people, q, order[1..]));
      assert Purged(t, Elements(order[1..])).families == Purged(s, Elements(order)).families;
    }
  }

  /** Undisturbed, the reading, the writes and the counts of a request are the whole operation
      of `Families`, in whatever order the families are counted. */
  lemma WholeRemoval(h: Hall, q: Request, c: Church, u: User, order: seq<Family>)
    requires Inv(Table(h)) && q !in h.work && Remove(Table(h), c, u).Success?
    requires Once(order) && Elements(order) == FamilyOf(h.people, u)
    ensures var end := Remove(Table(h), c, u).value;
            RunHall(h, [ReadRemoval(q, c, u), Write(q)] + Counts(end.people, q, order)) ==
            Hall(end.people, end.families, h.work)
  {
    var left := h.people[u].family;
    var s := Table(h).(people := h.people[u := Person(None, None)]);
    assert Linked(h.families, h.people[u]);
    TwoMoves(h, ReadRemoval(q, c, u), Write(q));
    assert h.work[q := Removing(u, left)] - {q} == h.work;
    assert h.work[q := Removing(u, left)][q := Counting(Elements(order))] == h.work[q := Counting(Elements(order))];
    assert RunHall(h, [ReadRemoval(q, c, u), Write(q)]) == Purging(s, h.work, q, Elements(order));
    RunsOn(h, [ReadRemoval(q, c, u), Write(q)], Counts(s.people, q, order));
    WholePurge(s, h.work, q, order);
  }

  lemma WholeTakeOut(h: Hall, q: Request, c: Church, u: User, order: seq<Family>)
    requires Inv(Table(h)) && q !in h.work && TakeOut(Table(h), c, u).Success? && FamilyOf(h.people, u) != {}
    requires Once(order) && Elements(order) == FamilyOf(h.people, u)
    ensures var end := TakeOut(Table(h), c, u).value;
            RunHall(h, [ReadTakeOut(q, c, u), Write(q)] + Counts(end.people, q, order)) ==
            Hall(end.people, end.families, h.work)
  {
    var left := h.people[u].family;
    var s := Table(h).(people := h.people[u := h.people[u].(family := None)]);
    assert Linked(h.families, h.people[u]);
    TwoMoves(h, ReadTakeOut(q, c, u), Write(q));
    assert h.work[q := TakingOut(u, left)][q := Counting(Elements(order))] == h.work[q := Counting(Elements(order))];
    assert RunHall(h, [ReadTakeOut(q, c, u), Write(q)]) == Purging(s, h.work, q, Elements(order));
    RunsOn(h, [ReadTakeOut(q, c, u), Write(q)], Counts(s.people, q, order));
    WholePurge(s, h.work, q, order);
  }

  lemma WholeDissolution(h: Hall, q: Request, c: Church, id: Family)
    requires q !in h.work && Dissolve(Table(h), c, id).Success?
    ensures var end := Dissolve(Table(h), c, id).value;
            RunHall(h, [ReadDissolution(q, c, id), Write(q)] + [Write(q)]) == Hall(end.people, end.families, h.work)
  {
    var people := Moved(h.people, PeopleOf(h.people, id), None);
    TwoMoves(h, ReadDissolution(q, c, id), Write(q));
    var h2 := Hall(people, h.families, h.work[q := Deleting(id, {})]);
    assert h.work[q := Dissolving(id)][q := Deleting(id, {})] == h.work[q := Deleting(id, {})];
    assert RunHall(h, [ReadDissolution(q, c, id), Write(q)]) == h2;
    assert ([ReadDissolution(q, c, id), Write(q)] + [Write(q)])[..2] == [ReadDissolution(q, c, id), Write(q)];
    assert Empty(people, id);
    NothingMoves(people, id);
    assert h.work[q := Deleting(id, {})] - {q} == h.work;
  }

  /** Becoming a member is one write, of that operation. */
  lemma WholeBecoming(h: Hall, c: Church, u: User)
    ensures var end := Become(Table(h), c, u);
      Stepped(h, BecomeNow(c, u)) == if end.Success? then Hall(end.value.people, end.value.families, h.work) else h
  {
  }

  /** A request that is refused ends with its reading; so does one to take somebody out who is in
      no family, and one to add nobody, which the operation itself answers with nothing done. */
  lemma EndsAtOnce(h: Hall, q: Request, c: Church, u: User, users: set<User>, id: Family)
    ensures Remove(Table(h), c, u).Failure? ==> Stepped(h, ReadRemoval(q, c, u)) == h
    ensures Dissolve(Table(h), c, id).Failure? ==> Stepped(h, ReadDissolution(q, c, id)) == h
    ensures Create(Table(h), c, users, id).Failure? && id !in h.families ==>
      Stepped(h, ReadCreation(q, c, users, id)) == h
    ensures Update(Table(h), c, id, users).Failure? || users == {} ==> Stepped(h, ReadUpdate(q, c, id, users)) == h
    ensures TakeOut(Table(h), c, u).Failure? || FamilyOf(h.people, u) == {} ==>
      Stepped(h, ReadTakeOut(q, c, u)) == h
    ensures TakeOut(Table(h), c, u).Success? && FamilyOf(h.people, u) == {} ==>
      TakeOut(Table(h), c, u).value == Table(h)
    ensures Update(Table(h), c, id, {}).Success? ==> Update(Table(h), c, id, {}).value == Table(h)
  {
    if TakeOut(Table(h), c, u).Success? && FamilyOf(h.people, u) == {} {
      assert h.people[u := h.people[u].(family := None)] == h.people;
      assert Purged(Table(h), {}).families == h.families;
    }
  }

  lemma PreviousExist(s: State, users: set<User>)
    requires Inv(s)
    ensures Previous(s.people, users) <= s.families.Keys
  {
    forall f | f in Previous(s.people, users)
      ensures f in s.families
    {
      var u :| u in users && f in FamilyOf(s.people, u);
      assert Linked(s.families, s.people[u]);
    }
  }

  lemma FillWhole(h: Hall, others: map<Request, Work>, q: Request, users: set<User>, previous: set<Family>, id: Family)
    requires q !in others && id in h.families && h.work == others[q := Filling(users, previous, id)]
    ensures Stepped(h, Write(q)) ==
            Purging(State(Moved(h.people, users, Some(id)), h.families), others, q, previous - {id})
  {
    assert h.work - {q} == others;
    assert h.work[q := Counting(previous - {id})] == others[q := Counting(previous - {id})];
  }

  lemma CreationWrites(h: Hall, q: Request, c: Church, users: set<User>, id: Family)
    requires q !in h.work && users != {} && AllMembers(Table(h), c, users) && id !in h.families
    ensures RunHall(h, [ReadCreation(q, c, users, id), Write(q)] + [Write(q)]) ==
            Purging(State(Moved(h.people, users, Some(id)), h.families[id := c]), h.work, q,
                    Previous(h.people, users) - {id})
  {
    var previous := Previous(h.people, users);
    var read := [ReadCreation(q, c, users, id), Write(q)];
    TwoMoves(h, ReadCreation(q, c, users, id), Write(q));
    var h2 := Hall(h.people, h.families[id := c], h.work[q := Filling(users, previous, id)]);
    assert h.work[q := Founding(c, users, previous, id)][q := Filling(users, previous, id)] == h2.work;
    assert RunHall(h, read) == h2;
    assert (read + [Write(q)])[..2] == read;
    FillWhole(h2, h.work, q, users, previous, id);
  }

  lemma WholeCreation(h: Hall, q: Request, c: Church, users: set<User>, id: Family, order: seq<Family>)
    requires Inv(Table(h)) && q !in h.work && Create(Table(h), c, users, id).Success?
    requires Once(order) && Elements(order) == Previous(h.people, users)
    ensures var end := Create(Table(h), c, users, id).value;
            RunHall(h, [ReadCreation(q, c, users, id), Write(q)] + [Write(q)] + Counts(end.people, q, order)) ==
            Hall(end.people, end.families, h.work)
  {
    var writes := [ReadCreation(q, c, users, id), Write(q)] + [Write(q)];
    var s := State(Moved(h.people, users, Some(id)), h.families[id := c]);
    PreviousExist(Table(h), users);
    CreationWrites(h, q, c, users, id);
    assert Elements(order) - {id} == Elements(order);
    RunsOn(h, writes, Counts(s.people, q, order));
    WholePurge(s, h.work, q, order);
  }

  lemma WholeUpdate(h: Hall, q: Request, c: Church, id: Family, users: set<User>, order: seq<Family>)
    requires Inv(Table(h)) && q !in h.work && users != {} && Update(Table(h), c, id, users).Success?
    requires Once(order) && Elements(order) == Previous(h.people, users) - {id}
    ensures var end := Update(Table(h), c, id, users).value;
            RunHall(h, [ReadUpdate(q, c, id, users), Write(q)] + Counts(end.people, q, order)) ==
            Hall(end.people, end.families, h.work)
  {
    var previous := Previous(h.people, users);
    var read := [ReadUpdate(q, c, id, users), Write(q)];
    var s := State(Moved(h.people, users, Some(id)), h.families);
    PreviousExist(Table(h), users);
    TwoMoves(h, ReadUpdate(q, c, id, users), Write(q));
    FillWhole(Stepped(h, ReadUpdate(q, c, id, users)), h.work, q, users, previous, id);
    RunsOn(h, read, Counts(s.people, q, order));
    WholePurge(s, h.work, q, order);
  }
}
