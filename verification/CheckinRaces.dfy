/** Operators at the same time: a delivery is three transactions (the stage, the bed, the
    row's memory of the bed), and taking one back is a read, a filtered write, the bed and
    the memory. The transactions of any number of requests interleave. */
module CheckinRaces {
  import opened Wrappers
  import opened Bedrooms
  import opened Checkin

  type Request = nat

  /** How far a request is. */
  datatype Work =
    | Looking(user: User)
    | Seeking(user: User, left: seq<Bedroom>)
    | Holding(user: User, room: Room)
    | Undoing(user: User, seen: Status, read: Option<Room>)
    | Reversing(user: User, read: Option<Room>)
    | Freeing(user: User, room: Room)
    | Forgetting(user: User, room: Room)

  datatype Hall = Hall(rows: map<User, Row>, occ: Occupancy, work: map<Request, Work>)

  /** One transaction of one request. `ListRooms` reads the candidates in a query after the
      look, which reads them too. `Photo` is a call or a completion, one update each. */
  datatype Transaction =
    | Deliver(q: Request, u: User, st: Stamp)
    | Look(q: Request)
    | ListRooms(q: Request)
    | TryBed(q: Request)
    | Remember(q: Request)
    | ReadUndo(q: Request, u: User)
    | ReadReversal(q: Request, u: User)
    | TakeBack(q: Request)
    | Free(q: Request)
    | Forget(q: Request)
    | Photo(u: User, st: Stamp, done: bool)

  function Put(h: Hall, u: User, write: Write): Hall {
    h.(rows := h.rows[u := Written(RowOf(h.rows, u), write)])
  }

  function Over(h: Hall, q: Request): Hall {
    h.(work := h.work - {q})
  }

  function Now(h: Hall, q: Request, w: Work): Hall {
    h.(work := h.work[q := w])
  }

  /** `deliverBadge`, its first update. */
  function Delivered(e: Event, h: Hall, q: Request, u: User, st: Stamp): Hall {
    if q in h.work || u !in e.groups || RowOf(h.rows, u).status != Pending then h
    else Now(Put(h, u, ToQueue(st)), q, Looking(u))
  }

  /** `allocateBedroom`: whoever has a room keeps it; otherwise the candidates are read. */
  function Looked(e: Event, h: Hall, q: Request, u: User): Hall {
    if !e.bedroomsOn || u !in e.groups || HasRoom(h.occ, u) then Over(h, q)
    else Now(h, q, Seeking(u, Candidates(e.rooms, h.occ, e.groups[u])))
  }

  /** One locked transaction; a person already in that room makes it fail and ends the search. */
  function TriedBed(h: Hall, q: Request, u: User, left: seq<Bedroom>): Hall {
    if left == [] then Over(h, q)
    else if !CanTake(h.occ, left[0]) then Now(h, q, Seeking(u, left[1..]))
    else if (u, left[0].id) in h.occ then Over(h, q)
    else Now(h.(occ := h.occ + {(u, left[0].id)}), q, Holding(u, left[0].id))
  }

  /** The filtered update of `undo`: one stage back, if the stage is still the one read. */
  function Undone(h: Hall, q: Request, u: User, seen: Status, read: Option<Room>): Hall {
    if !Matches(RowOf(h.rows, u), Back(seen)) then Over(h, q)
    else
      var back := Put(h, u, Back(seen));
      if seen == Queued && read.Some? then Now(back, q, Freeing(u, read.value)) else Over(back, q)
  }

  /** The filtered update of `undoBadgeDelivery`. */
  function Reversed(h: Hall, q: Request, u: User, read: Option<Room>): Hall {
    if !Matches(RowOf(h.rows, u), Reset) then Over(h, q)
    else
      var back := Put(h, u, Reset);
      if read.Some? then Now(back, q, Freeing(u, read.value)) else Over(back, q)
  }

  function Stepped(e: Event, h: Hall, m: Transaction): Hall {
    match m
    case Deliver(q, u, st) => Delivered(e, h, q, u, st)
    case Look(q) => if q in h.work && h.work[q].Looking? then Looked(e, h, q, h.work[q].user) else h
    case ListRooms(q) =>
      if q in h.work && h.work[q].Seeking? && h.work[q].user in e.groups then
        Now(h, q, Seeking(h.work[q].user, Candidates(e.rooms, h.occ, e.groups[h.work[q].user])))
      else h
    case TryBed(q) => if q in h.work && h.work[q].Seeking? then TriedBed(h, q, h.work[q].user, h.work[q].left) else h
    case Remember(q) =>
      if q in h.work && h.work[q].Holding? then Over(Put(h, h.work[q].user, SetRoom(h.work[q].room)), q) else h
    case ReadUndo(q, u) =>
      var row := RowOf(h.rows, u);
      if q in h.work || row.status == Pending then h else Now(h, q, Undoing(u, row.status, row.autoRoom))
    case ReadReversal(q, u) =>
      if q in h.work || u !in e.groups then h else Now(h, q, Reversing(u, RowOf(h.rows, u).autoRoom))
    case TakeBack(q) =>
      if q in h.work && h.work[q].Undoing? then Undone(h, q, h.work[q].user, h.work[q].seen, h.work[q].read)
      else if q in h.work && h.work[q].Reversing? then Reversed(h, q, h.work[q].user, h.work[q].read)
      else h
    case Free(q) =>
      if q in h.work && h.work[q].Freeing? then
        var u, r := h.work[q].user, h.work[q].room;
        Now(h.(occ := h.occ - {(u, r)}), q, Forgetting(u, r))
      else h
    case Forget(q) =>
      if q in h.work && h.work[q].Forgetting? then Over(Put(h, h.work[q].user, ClearRoom), q) else h
    case Photo(u, st, done) =>
      var write := if done then ToDone(st) else ToProgress(st);
      if Matches(RowOf(h.rows, u), write) then Put(h, u, write) else h
  }

  function RunHall(e: Event, h: Hall, ms: seq<Transaction>): Hall {
    if ms == [] then h else Stepped(e, RunHall(e, h, ms[..|ms| - 1]), ms[|ms| - 1])
  }

  // ---- the books, with requests at work ------------------------------------

  /** A request at work answers for the bed: it will have it remembered, or it will free it. */
  predicate Answered(h: Hall, u: User, r: Room) {
    exists q :: q in h.work && (h.work[q] == Holding(u, r) || h.work[q] == Freeing(u, r))
  }

  /** A request at work will make the row forget the room. */
  predicate Going(h: Hall, u: User, r: Room) {
    exists q :: q in h.work && (h.work[q] == Freeing(u, r) || h.work[q] == Forgetting(u, r))
  }

  predicate Held(h: Hall, u: User, r: Room) {
    exists q :: q in h.work && h.work[q] == Holding(u, r)
  }

  /** Nobody pending has a room remembered, unless it is about to be forgotten. */
  predicate PersonBooks(hand: Occupancy, h: Hall, u: User) {
    var row := RowOf(h.rows, u);
    && Stamped(row)
    && (row.autoRoom.Some? ==> !HasRoom(hand, u))
    && (row.status == Pending && row.autoRoom.Some? ==> Going(h, u, row.autoRoom.value))
  }

  /** A bed is set by hand, remembered, or in the hands of a request; a room remembered has
      its bed, unless it is about to be forgotten. */
  predicate BedBooks(hand: Occupancy, h: Hall, p: (User, Room)) {
    var remembered := RowOf(h.rows, p.0).autoRoom == Some(p.1);
    && (p in hand ==> p in h.occ)
    && (p in h.occ ==> p in hand || remembered || Answered(h, p.0, p.1))
    && (remembered ==> p in h.occ || Going(h, p.0, p.1))
  }

  /** Requests deal in automatic beds only, and hold the beds they will have remembered. */
  predicate WorkBooks(hand: Occupancy, h: Hall, w: Work) {
    match w
    case Looking(_) => true
    case Seeking(u, _) => !HasRoom(hand, u)
    case Holding(u, r) => !HasRoom(hand, u) && (u, r) in h.occ
    case Undoing(u, _, read) => read.Some? ==> !HasRoom(hand, u)
    case Reversing(u, read) => read.Some? ==> !HasRoom(hand, u)
    case Freeing(u, _) => !HasRoom(hand, u)
    case Forgetting(u, _) => !HasRoom(hand, u)
  }

  ghost predicate Books(hand: Occupancy, h: Hall) {
    && (forall u: User :: PersonBooks(hand, h, u))
    && (forall p: (User, Room) :: BedBooks(hand, h, p))
    && (forall q: Request :: q in h.work ==> WorkBooks(hand, h, h.work[q]))
  }

  // ---- which moves keep them -----------------------------------------------

  /** The row remembers no bed that nobody else answers for. */
  predicate NothingLost(h: Hall, u: User) {
    var a := RowOf(h.rows, u).autoRoom;
    a.Some? && (u, a.value) in h.occ ==> Answered(h, u, a.value)
  }

  /** A room is remembered in time: the person is not pending, or the room is about to be
      forgotten again; and no other bed is forgotten by it. */
  predicate SafeToRemember(h: Hall, u: User, r: Room) {
    && (RowOf(h.rows, u).status != Pending || Going(h, u, r))
    && (RowOf(h.rows, u).autoRoom == Some(r) || NothingLost(h, u))
  }

  /** A person goes back to pending with the room that was read, or with none. */
  predicate SafeToUndo(h: Hall, u: User, read: Option<Room>) {
    var a := RowOf(h.rows, u).autoRoom;
    a.None? || a == read || Going(h, u, a.value)
  }

  predicate SafeToReverse(h: Hall, u: User, read: Option<Room>) {
    RowOf(h.rows, u).autoRoom == read || NothingLost(h, u)
  }

  /** The request is about to undo a delivery, and its filter matches the row. */
  predicate Undoes(h: Hall, q: Request) {
    q in h.work && h.work[q].Undoing? && h.work[q].seen == Queued && RowOf(h.rows, h.work[q].user).status == Queued
  }

  predicate Reverses(h: Hall, q: Request) {
    q in h.work && h.work[q].Reversing? && RowOf(h.rows, h.work[q].user).status != Pending
  }

  /** What a move has to find for the books to stay right. */
  predicate Safe(h: Hall, m: Transaction) {
    match m
    case Remember(q) =>
      q in h.work && h.work[q].Holding? ==> SafeToRemember(h, h.work[q].user, h.work[q].room)
    case TakeBack(q) =>
      && (Undoes(h, q) ==> SafeToUndo(h, h.work[q].user, h.work[q].read))
      && (Reverses(h, q) ==> SafeToReverse(h, h.work[q].user, h.work[q].read))
    case Free(q) => q in h.work && h.work[q].Freeing? ==> !Held(h, h.work[q].user, h.work[q].room)
    case Forget(q) => q in h.work && h.work[q].Forgetting? ==> NothingLost(h, h.work[q].user)
    case _ => true
  }

  // ---- who is at work ------------------------------------------------------

  /** Starting or ending a request that neither answers for a bed nor makes a row forget
      changes nothing for the others. */
  lemma WorkChange(h: Hall, q: Request, w: Option<Work>, u: User, r: Room)
    ensures var before := q in h.work && (h.work[q] == Holding(u, r) || h.work[q] == Freeing(u, r));
            var after := w == Some(Holding(u, r)) || w == Some(Freeing(u, r));
            var h' := if w.Some? then Now(h, q, w.value) else Over(h, q);
            && (!before || after ==> (Answered(h, u, r) ==> Answered(h', u, r)))
            && (Answered(h', u, r) ==> after || Answered(h, u, r))
            && (after ==> Answered(h', u, r))
    ensures var before := q in h.work && (h.work[q] == Freeing(u, r) || h.work[q] == Forgetting(u, r));
            var after := w == Some(Freeing(u, r)) || w == Some(Forgetting(u, r));
            var h' := if w.Some? then Now(h, q, w.value) else Over(h, q);
            && (!before || after ==> (Going(h, u, r) ==> Going(h', u, r)))
            && (Going(h', u, r) ==> after || Going(h, u, r))
            && (after ==> Going(h', u, r))
  {
    var h' := if w.Some? then Now(h, q, w.value) else Over(h, q);
    if Answered(h, u, r) {
      var k :| k in h.work && (h.work[k] == Holding(u, r) || h.work[k] == Freeing(u, r));
      assert k != q ==> k in h'.work && h'.work[k] == h.work[k];
    }
    if Going(h, u, r) {
      var k :| k in h.work && (h.work[k] == Freeing(u, r) || h.work[k] == Forgetting(u, r));
      assert k != q ==> k in h'.work && h'.work[k] == h.work[k];
    }
    if w.Some? {
      assert q in h'.work && h'.work[q] == w.value;
    }
  }

  predicate Neutral(w: Work) {
    !w.Holding? && !w.Freeing? && !w.Forgetting?
  }

  lemma NeutralKeeps(hand: Occupancy, h: Hall, q: Request, w: Option<Work>)
    requires Books(hand, h) && (q in h.work ==> Neutral(h.work[q]))
    requires w.Some? ==> Neutral(w.value) && WorkBooks(hand, h, w.value)
    ensures Books(hand, if w.Some? then Now(h, q, w.value) else Over(h, q))
  {
    var h' := if w.Some? then Now(h, q, w.value) else Over(h, q);
    forall u: User
      ensures PersonBooks(hand, h', u)
    {
      assert PersonBooks(hand, h, u);
      var a := RowOf(h.rows, u).autoRoom;
      if a.Some? {
        WorkChange(h, q, w, u, a.value);
      }
    }
    forall p: (User, Room)
      ensures BedBooks(hand, h', p)
    {
      assert BedBooks(hand, h, p);
      WorkChange(h, q, w, p.0, p.1);
    }
    forall k: Request | k in h'.work
      ensures WorkBooks(hand, h', h'.work[k])
    {
      assert k != q ==> WorkBooks(hand, h, h.work[k]);
    }
  }

  /** A stage written that is not pending, with the room untouched, keeps the books. */
  lemma StageKeeps(hand: Occupancy, h: Hall, u: User, write: Write)
    requires Books(hand, h)
    requires write.ToQueue? || write.ToProgress? || write.ToDone? || (write.Back? && write.seen != Queued)
    ensures Books(hand, Put(h, u, write))
  {
    var h' := Put(h, u, write);
    assert PersonBooks(hand, h, u);
    forall v: User
      ensures PersonBooks(hand, h', v)
    {
      assert PersonBooks(hand, h, v);
      assert forall r: Room :: Going(h', v, r) <==> Going(h, v, r);
    }
    forall p: (User, Room)
      ensures BedBooks(hand, h', p)
    {
      assert BedBooks(hand, h, p);
      assert Going(h', p.0, p.1) <==> Going(h, p.0, p.1);
      assert Answered(h', p.0, p.1) <==> Answered(h, p.0, p.1);
    }
    forall k: Request | k in h'.work
      ensures WorkBooks(hand, h', h'.work[k])
    {
      assert WorkBooks(hand, h, h.work[k]);
    }
  }

  lemma HandTaken(hand: Occupancy, h: Hall, u: User)
    requires Books(hand, h) && !HasRoom(h.occ, u)
    ensures !HasRoom(hand, u)
  {
    forall p | p in hand
      ensures p.0 != u
    {
      assert BedBooks(hand, h, p);
    }
  }

  lemma TriedBedKeeps(hand: Occupancy, h: Hall, q: Request)
    requires Books(hand, h) && q in h.work && h.work[q].Seeking?
    ensures Books(hand, TriedBed(h, q, h.work[q].user, h.work[q].left))
  {
    var u, left := h.work[q].user, h.work[q].left;
    assert WorkBooks(hand, h, h.work[q]);
    if left == [] || (CanTake(h.occ, left[0]) && (u, left[0].id) in h.occ) {
      NeutralKeeps(hand, h, q, None);
    } else if !CanTake(h.occ, left[0]) {
      NeutralKeeps(hand, h, q, Some(Seeking(u, left[1..])));
    } else {
      BedTaken(hand, h, q, u, left[0].id);
    }
  }

  /** The person's request holds the bed. */
  function BedIn(h: Hall, q: Request, u: User, r: Room): Hall {
    Now(h.(occ := h.occ + {(u, r)}), q, Holding(u, r))
  }

  lemma BedTaken(hand: Occupancy, h: Hall, q: Request, u: User, r: Room)
    requires Books(hand, h) && q in h.work && h.work[q].Seeking? && h.work[q].user == u
    ensures Books(hand, BedIn(h, q, u, r))
  {
    var h' := BedIn(h, q, u, r);
    assert WorkBooks(hand, h, h.work[q]);
    forall v: User
      ensures PersonBooks(hand, h', v)
    {
      assert PersonBooks(hand, h, v);
      var a := RowOf(h.rows, v).autoRoom;
      if a.Some? {
        WorkChange(h, q, Some(Holding(u, r)), v, a.value);
        assert Going(Now(h, q, Holding(u, r)), v, a.value) <==> Going(h', v, a.value);
      }
    }
    forall p: (User, Room)
      ensures BedBooks(hand, h', p)
    {
      assert BedBooks(hand, h, p);
      WorkChange(h, q, Some(Holding(u, r)), p.0, p.1);
      assert Going(Now(h, q, Holding(u, r)), p.0, p.1) <==> Going(h', p.0, p.1);
      assert Answered(Now(h, q, Holding(u, r)), p.0, p.1) <==> Answered(h', p.0, p.1);
    }
    forall k: Request | k in h'.work
      ensures WorkBooks(hand, h', h'.work[k])
    {
      assert k != q ==> WorkBooks(hand, h, h.work[k]);
    }
  }

  // ---- the four moves that can break them ----------------------------------

  /** The same requests at work, whatever the rows and the beds. */
  lemma SameWork(h: Hall, h': Hall, u: User, r: Room)
    requires h.work == h'.work
    ensures Going(h, u, r) <==> Going(h', u, r)
    ensures Answered(h, u, r) <==> Answered(h', u, r)
    ensures Held(h, u, r) <==> Held(h', u, r)
  {
  }

  lemma RememberExact(hand: Occupancy, h: Hall, q: Request, u: User, r: Room)
    requires Books(hand, h) && q in h.work && h.work[q] == Holding(u, r)
    ensures Books(hand, Over(Put(h, u, SetRoom(r)), q)) <==> SafeToRemember(h, u, r)
  {
    var h' := Over(Put(h, u, SetRoom(r)), q);
    var a := RowOf(h.rows, u).autoRoom;
    assert WorkBooks(hand, h, h.work[q]) && PersonBooks(hand, h, u);
    forall v: User, x: Room
      ensures Going(h', v, x) <==> Going(h, v, x)
      ensures (v, x) != (u, r) ==> (Answered(h', v, x) <==> Answered(h, v, x))
    {
      WorkChange(h, q, None, v, x);
      SameWork(Over(h, q), h', v, x);
    }
    if SafeToRemember(h, u, r) {
      forall v: User
        ensures PersonBooks(hand, h', v)
      {
        assert PersonBooks(hand, h, v);
      }
      forall p: (User, Room)
        ensures BedBooks(hand, h', p)
      {
        assert BedBooks(hand, h, p);
      }
      forall k: Request | k in h'.work
        ensures WorkBooks(hand, h', h'.work[k])
      {
        assert WorkBooks(hand, h, h.work[k]);
      }
    } else if RowOf(h.rows, u).status == Pending && !Going(h, u, r) {
      assert !PersonBooks(hand, h', u);
    } else {
      assert !BedBooks(hand, h', (u, a.value)) by {
        assert (u, a.value) !in hand;
      }
    }
  }

  lemma UndoExact(hand: Occupancy, h: Hall, q: Request, u: User, read: Option<Room>)
    requires Books(hand, h) && q in h.work && h.work[q] == Undoing(u, Queued, read)
    requires RowOf(h.rows, u).status == Queued
    ensures Books(hand, Undone(h, q, u, Queued, read)) <==> SafeToUndo(h, u, read)
  {
    var h' := Undone(h, q, u, Queued, read);
    var w := if read.Some? then Some(Freeing(u, read.value)) else None;
    assert WorkBooks(hand, h, h.work[q]) && PersonBooks(hand, h, u);
    forall v: User, x: Room
      ensures Going(h', v, x) <==> Going(h, v, x) || (v == u && read == Some(x))
      ensures Answered(h', v, x) <==> Answered(h, v, x) || (v == u && read == Some(x))
    {
      WorkChange(h, q, w, v, x);
      SameWork(if w.Some? then Now(h, q, w.value) else Over(h, q), h', v, x);
    }
    if SafeToUndo(h, u, read) {
      forall v: User
        ensures PersonBooks(hand, h', v)
      {
        assert PersonBooks(hand, h, v);
      }
      forall p: (User, Room)
        ensures BedBooks(hand, h', p)
      {
        assert BedBooks(hand, h, p);
      }
      forall k: Request | k in h'.work
        ensures WorkBooks(hand, h', h'.work[k])
      {
        assert k != q ==> WorkBooks(hand, h, h.work[k]);
      }
    } else {
      assert !PersonBooks(hand, h', u);
    }
  }

  lemma ReverseExact(hand: Occupancy, h: Hall, q: Request, u: User, read: Option<Room>)
    requires Books(hand, h) && q in h.work && h.work[q] == Reversing(u, read)
    requires RowOf(h.rows, u).status != Pending
    ensures Books(hand, Reversed(h, q, u, read)) <==> SafeToReverse(h, u, read)
  {
    var h' := Reversed(h, q, u, read);
    var w := if read.Some? then Some(Freeing(u, read.value)) else None;
    var a := RowOf(h.rows, u).autoRoom;
    assert WorkBooks(hand, h, h.work[q]) && PersonBooks(hand, h, u);
    forall v: User, x: Room
      ensures Going(h', v, x) <==> Going(h, v, x) || (v == u && read == Some(x))
      ensures Answered(h', v, x) <==> Answered(h, v, x) || (v == u && read == Some(x))
    {
      WorkChange(h, q, w, v, x);
      SameWork(if w.Some? then Now(h, q, w.value) else Over(h, q), h', v, x);
    }
    if SafeToReverse(h, u, read) {
      forall v: User
        ensures PersonBooks(hand, h', v)
      {
        assert PersonBooks(hand, h, v);
      }
      forall p: (User, Room)
        ensures BedBooks(hand, h', p)
      {
        assert BedBooks(hand, h, p);
      }
      forall k: Request | k in h'.work
        ensures WorkBooks(hand, h', h'.work[k])
      {
        assert k != q ==> WorkBooks(hand, h, h.work[k]);
      }
    } else {
      assert !BedBooks(hand, h', (u, a.value)) by {
        assert (u, a.value) !in hand;
      }
    }
  }

  lemma FreeExact(hand: Occupancy, h: Hall, q: Request, u: User, r: Room)
    requires Books(hand, h) && q in h.work && h.work[q] == Freeing(u, r)
    ensures Books(hand, Now(h.(occ := h.occ - {(u, r)}), q, Forgetting(u, r))) <==> !Held(h, u, r)
  {
    var h' := Now(h.(occ := h.occ - {(u, r)}), q, Forgetting(u, r));
    assert WorkBooks(hand, h, h.work[q]);
    forall v: User, x: Room
      ensures Going(h, v, x) ==> Going(h', v, x)
      ensures (v, x) != (u, r) ==> (Answered(h, v, x) ==> Answered(h', v, x))
      ensures Going(h', u, r)
    {
      WorkChange(h, q, Some(Forgetting(u, r)), v, x);
      WorkChange(h, q, Some(Forgetting(u, r)), u, r);
      SameWork(Now(h, q, Forgetting(u, r)), h', v, x);
      SameWork(Now(h, q, Forgetting(u, r)), h', u, r);
    }
    if !Held(h, u, r) {
      forall v: User
        ensures PersonBooks(hand, h', v)
      {
        assert PersonBooks(hand, h, v);
      }
      forall p: (User, Room)
        ensures BedBooks(hand, h', p)
      {
        assert BedBooks(hand, h, p);
        assert (u, r) !in hand;
      }
      forall k: Request | k in h'.work
        ensures WorkBooks(hand, h', h'.work[k])
      {
        assert k != q ==> WorkBooks(hand, h, h.work[k]) && h.work[k] != Holding(u, r);
      }
    } else {
      var k :| k in h.work && h.work[k] == Holding(u, r);
      assert k in h'.work && !WorkBooks(hand, h', h'.work[k]);
    }
  }

  lemma ForgetExact(hand: Occupancy, h: Hall, q: Request, u: User, r: Room)
    requires Books(hand, h) && q in h.work && h.work[q] == Forgetting(u, r)
    ensures Books(hand, Over(Put(h, u, ClearRoom), q)) <==> NothingLost(h, u)
  {
    var h' := Over(Put(h, u, ClearRoom), q);
    var a := RowOf(h.rows, u).autoRoom;
    assert WorkBooks(hand, h, h.work[q]) && PersonBooks(hand, h, u);
    forall v: User, x: Room
      ensures (v, x) != (u, r) ==> (Going(h', v, x) <==> Going(h, v, x))
      ensures Answered(h', v, x) <==> Answered(h, v, x)
    {
      WorkChange(h, q, None, v, x);
      SameWork(Over(h, q), h', v, x);
    }
    if NothingLost(h, u) {
      forall v: User
        ensures PersonBooks(hand, h', v)
      {
        assert PersonBooks(hand, h, v);
      }
      forall p: (User, Room)
        ensures BedBooks(hand, h', p)
      {
        assert BedBooks(hand, h, p);
      }
      forall k: Request | k in h'.work
        ensures WorkBooks(hand, h', h'.work[k])
      {
        assert WorkBooks(hand, h, h.work[k]);
      }
    } else {
      assert !BedBooks(hand, h', (u, a.value)) by {
        assert (u, a.value) !in hand;
      }
    }
  }

  lemma TakeBackExact(hand: Occupancy, e: Event, h: Hall, q: Request)
    requires Books(hand, h)
    ensures Books(hand, Stepped(e, h, TakeBack(q))) <==> Safe(h, TakeBack(q))
  {
    if q in h.work && h.work[q].Undoing? {
      var u, seen, read := h.work[q].user, h.work[q].seen, h.work[q].read;
      if !Matches(RowOf(h.rows, u), Back(seen)) {
        NeutralKeeps(hand, h, q, None);
      } else if seen == Queued {
        UndoExact(hand, h, q, u, read);
      } else {
        StageKeeps(hand, h, u, Back(seen));
        NeutralKeeps(hand, Put(h, u, Back(seen)), q, None);
      }
    } else if q in h.work && h.work[q].Reversing? {
      var u, read := h.work[q].user, h.work[q].read;
      if Matches(RowOf(h.rows, u), Reset) {
        ReverseExact(hand, h, q, u, read);
      } else {
        NeutralKeeps(hand, h, q, None);
      }
    }
  }

  lemma StartKeeps(hand: Occupancy, e: Event, h: Hall, m: Transaction)
    requires Books(hand, h)
    requires m.Deliver? || m.Look? || m.ListRooms? || m.ReadUndo? || m.ReadReversal? || m.Photo?
    ensures Books(hand, Stepped(e, h, m))
  {
    match m
    case Deliver(q, u, st) =>
      StageKeeps(hand, h, u, ToQueue(st));
      if q !in h.work {
        NeutralKeeps(hand, Put(h, u, ToQueue(st)), q, Some(Looking(u)));
      }
    case Look(q) =>
      if q in h.work && h.work[q].Looking? {
        NeutralKeeps(hand, h, q, None);
        var u := h.work[q].user;
        if u in e.groups && !HasRoom(h.occ, u) {
          HandTaken(hand, h, u);
          NeutralKeeps(hand, h, q, Some(Seeking(u, Candidates(e.rooms, h.occ, e.groups[u]))));
        }
      }
    case ListRooms(q) =>
      if q in h.work && h.work[q].Seeking? && h.work[q].user in e.groups {
        var u := h.work[q].user;
        assert WorkBooks(hand, h, h.work[q]);
        NeutralKeeps(hand, h, q, Some(Seeking(u, Candidates(e.rooms, h.occ, e.groups[u]))));
      }
    case ReadUndo(q, u) =>
      var row := RowOf(h.rows, u);
      assert PersonBooks(hand, h, u);
      if q !in h.work {
        NeutralKeeps(hand, h, q, Some(Undoing(u, row.status, row.autoRoom)));
      }
    case ReadReversal(q, u) =>
      assert PersonBooks(hand, h, u);
      if q !in h.work {
        NeutralKeeps(hand, h, q, Some(Reversing(u, RowOf(h.rows, u).autoRoom)));
      }
    case Photo(u, st, done) => StageKeeps(hand, h, u, if done then ToDone(st) else ToProgress(st));
  }

  /** Right books stay right after a move exactly when it was a safe one. */
  lemma StepExact(hand: Occupancy, e: Event, h: Hall, m: Transaction)
    requires Books(hand, h)
    ensures Books(hand, Stepped(e, h, m)) <==> Safe(h, m)
  {
    match m
    case TryBed(q) =>
      if q in h.work && h.work[q].Seeking? {
        TriedBedKeeps(hand, h, q);
      }
    case Remember(q) =>
      if q in h.work && h.work[q].Holding? {
        RememberExact(hand, h, q, h.work[q].user, h.work[q].room);
      }
    case TakeBack(q) => TakeBackExact(hand, e, h, q);
    case Free(q) =>
      if q in h.work && h.work[q].Freeing? {
        FreeExact(hand, h, q, h.work[q].user, h.work[q].room);
      }
    case Forget(q) =>
      if q in h.work && h.work[q].Forgetting? {
        ForgetExact(hand, h, q, h.work[q].user, h.work[q].room);
      }
    case _ => StartKeeps(hand, e, h, m);
  }

  // ---- every interleaving --------------------------------------------------

  /** The books are right at every moment of the run. */
  ghost predicate BooksAlong(hand: Occupancy, e: Event, h: Hall, ms: seq<Transaction>) {
    Books(hand, RunHall(e, h, ms)) && (ms != [] ==> BooksAlong(hand, e, h, ms[..|ms| - 1]))
  }

  /** Every move of the run is safe where it comes. */
  predicate SafeAlong(e: Event, h: Hall, ms: seq<Transaction>) {
    ms != [] ==> SafeAlong(e, h, ms[..|ms| - 1]) && Safe(RunHall(e, h, ms[..|ms| - 1]), ms[|ms| - 1])
  }

  /** However the transactions of any number of requests interleave, the books are right all
      along exactly when every room is remembered in time, every delivery is taken back with
      the room in the row, no bed is freed that another delivery holds, and no row is made to
      forget a bed that nobody else answers for. */
  lemma {:induction false} RunExact(hand: Occupancy, e: Event, h: Hall, ms: seq<Transaction>)
    requires Books(hand, h)
    ensures BooksAlong(hand, e, h, ms) <==> SafeAlong(e, h, ms)
  {
    if ms == [] {
    } else {
      var n := |ms| - 1;
      RunExact(hand, e, h, ms[..n]);
      if BooksAlong(hand, e, h, ms[..n]) {
        StepExact(hand, e, RunHall(e, h, ms[..n]), ms[n]);
      }
    }
  }

  /** With nobody at work, right books are those of the whole operations. */
  lemma QuietBooks(hand: Occupancy, h: Hall)
    requires h.work == map[]
    ensures Books(hand, h) <==> Inv(hand, World(h.rows, h.occ))
  {
    forall u: User, r: Room
      ensures !Going(h, u, r) && !Answered(h, u, r)
    {
    }
    if Books(hand, h) {
      forall u: User
        ensures Tidy(hand, RowOf(h.rows, u), u)
      {
        assert PersonBooks(hand, h, u);
      }
      forall p: (User, Room)
        ensures Explained(hand, World(h.rows, h.occ), p)
      {
        assert BedBooks(hand, h, p);
      }
    }
    if Inv(hand, World(h.rows, h.occ)) {
      forall u: User
        ensures PersonBooks(hand, h, u)
      {
        assert Tidy(hand, RowOf(h.rows, u), u);
      }
      forall p: (User, Room)
        ensures BedBooks(hand, h, p)
      {
        assert Explained(hand, World(h.rows, h.occ), p);
      }
    }
  }

  /** Before the first request: some rooms set by hand, nobody at the desk yet. */
  lemma EmptyBooks(hand: Occupancy)
    ensures Books(hand, Hall(map[], hand, map[]))
  {
    AtFirst(hand);
    QuietBooks(hand, Hall(map[], hand, map[]));
  }

  /** So from the opening of the desk on the books are right all along exactly when every move
      is safe. */
  lemma FromTheOpening(e: Event, hand: Occupancy, ms: seq<Transaction>)
    ensures var start := Hall(map[], hand, map[]);
            BooksAlong(hand, e, start, ms) <==> SafeAlong(e, start, ms)
  {
    EmptyBooks(hand);
    RunExact(hand, e, Hall(map[], hand, map[]), ms);
  }

  // ---- whole operations ----------------------------------------------------

  function Four(e: Event, h: Hall, a: Transaction, b: Transaction, c: Transaction, d: Transaction): Hall {
    Stepped(e, Stepped(e, Stepped(e, Stepped(e, h, a), b), c), d)
  }

  predicate Ends(h: Hall, w: World) {
    h.work == map[] && h.rows == w.rows && h.occ == w.occ
  }

  /** Undisturbed, the transactions of a delivery are the whole delivery. */
  lemma WholeDelivery(e: Event, h: Hall, q: Request, u: User, st: Stamp)
    requires h.work == map[]
    ensures Ends(Four(e, h, Deliver(q, u, st), Look(q), TryBed(q), Remember(q)),
                 Checkin.Deliver(e, World(h.rows, h.occ), u, st).0)
  {
    if u in e.groups && RowOf(h.rows, u).status == Pending {
      var h1 := Stepped(e, h, Deliver(q, u, st));
      if e.bedroomsOn && !HasRoom(h.occ, u) {
        var c := Candidates(e.rooms, h.occ, e.groups[u]);
        ChoiceIsFirst(e.rooms, h.occ, e.groups[u], u);
        if c != [] {
          CandidatesAre(e.rooms, h.occ, e.groups[u], c[0]);
          assert (u, c[0].id) !in h.occ;
        }
      }
    }
  }

  /** And those of taking it back, by either path, are the whole operation. */
  lemma WholeUndo(e: Event, h: Hall, q: Request, u: User)
    requires h.work == map[]
    ensures Ends(Four(e, h, ReadUndo(q, u), TakeBack(q), Free(q), Forget(q)), Undo(World(h.rows, h.occ), u).0)
  {
  }

  lemma WholeReversal(e: Event, h: Hall, q: Request, u: User)
    requires h.work == map[]
    ensures Ends(Four(e, h, ReadReversal(q, u), TakeBack(q), Free(q), Forget(q)),
                 UndoDelivery(e, World(h.rows, h.occ), u).0)
  {
  }

  /** A reading takes what is there at its turn, whatever was read before: the rooms with a vacancy by
      then, and the stage and the room of the row. Somebody pending has nothing to undo. */
  lemma ReadsNow(e: Event, h: Hall, q: Request, u: User, left: seq<Bedroom>)
    requires u in e.groups
    ensures q in h.work && h.work[q] == Seeking(u, left) ==>
      Stepped(e, h, ListRooms(q)) ==
      Hall(h.rows, h.occ, h.work[q := Seeking(u, Candidates(e.rooms, h.occ, e.groups[u]))])
    ensures q !in h.work ==>
      var row := RowOf(h.rows, u);
      && Stepped(e, h, ReadReversal(q, u)) == Hall(h.rows, h.occ, h.work[q := Reversing(u, row.autoRoom)])
      && Stepped(e, h, ReadUndo(q, u)) ==
         if row.status == Pending then h else Hall(h.rows, h.occ, h.work[q := Undoing(u, row.status, row.autoRoom)])
  {
  }

  /** A call and a completion are one update each, and the whole operation. */
  lemma WholePhoto(e: Event, h: Hall, u: User, st: Stamp)
    ensures var after := Stepped(e, h, Photo(u, st, false));
      World(after.rows, after.occ) == Call(World(h.rows, h.occ), u, st).0 && after.work == h.work
    ensures var after := Stepped(e, h, Photo(u, st, true));
      World(after.rows, after.occ) == Complete(World(h.rows, h.occ), u, st).0 && after.work == h.work
  {
  }
}
