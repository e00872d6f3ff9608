/** For each of the moves that can break the books, a run in which one does, from nobody at
    the desk to nobody at work. */
module CheckinFailures {
  import opened Wrappers
  import opened Bedrooms
  import opened Checkin
  import opened CheckinRaces
  import Sorting

  /** One person, registered with no group, and these rooms. */
  function OnePerson(rooms: seq<Bedroom>): Event {
    Event(rooms, true, map[7 := {}])
  }

  /** An open room with one bed. */
  predicate OneBed(b: Bedroom, id: Room) {
    b.id == id && b.capacity == Some(1) && b.groups == {}
  }

  function AtDesk(row: Row, occ: Occupancy, work: map<Request, Work>): Hall {
    Hall(map[7 := row], occ, work)
  }

  function InLine(st: Stamp, room: Option<Room>): Row {
    Row(Queued, Some(st), None, None, room)
  }

  function Gone(room: Option<Room>): Row {
    NEW_ROW.(autoRoom := room)
  }

  const START: Hall := AtDesk(NEW_ROW, {}, map[])

  lemma DeskDelivers(e: Event, room: Option<Room>, occ: Occupancy, rest: map<Request, Work>, q: Request, st: Stamp)
    requires 7 in e.groups && q !in rest
    ensures Stepped(e, AtDesk(Gone(room), occ, rest), Deliver(q, 7, st)) ==
            AtDesk(InLine(st, room), occ, rest[q := Looking(7)])
  {
  }

  lemma DeskLooks(e: Event, row: Row, occ: Occupancy, rest: map<Request, Work>, q: Request)
    requires 7 in e.groups && e.bedroomsOn && q !in rest
    ensures !HasRoom(occ, 7) ==>
              Stepped(e, AtDesk(row, occ, rest[q := Looking(7)]), Look(q)) ==
              AtDesk(row, occ, rest[q := Seeking(7, Candidates(e.rooms, occ, e.groups[7]))])
    ensures HasRoom(occ, 7) ==> Stepped(e, AtDesk(row, occ, rest[q := Looking(7)]), Look(q)) == AtDesk(row, occ, rest)
  {
    assert rest[q := Looking(7)] - {q} == rest;
  }

  lemma DeskTries(e: Event, row: Row, occ: Occupancy, rest: map<Request, Work>, q: Request, left: seq<Bedroom>)
    requires left != [] && q !in rest
    ensures CanTake(occ, left[0]) && (7, left[0].id) !in occ ==>
              Stepped(e, AtDesk(row, occ, rest[q := Seeking(7, left)]), TryBed(q)) ==
              AtDesk(row, occ + {(7, left[0].id)}, rest[q := Holding(7, left[0].id)])
    ensures !CanTake(occ, left[0]) ==>
              Stepped(e, AtDesk(row, occ, rest[q := Seeking(7, left)]), TryBed(q)) ==
              AtDesk(row, occ, rest[q := Seeking(7, left[1..])])
  {
  }

  lemma DeskRemembers(e: Event, row: Row, occ: Occupancy, rest: map<Request, Work>, q: Request, r: Room)
    requires q !in rest
    ensures Stepped(e, AtDesk(row, occ, rest[q := Holding(7, r)]), Remember(q)) ==
            AtDesk(row.(autoRoom := Some(r)), occ, rest)
  {
    assert rest[q := Holding(7, r)] - {q} == rest;
  }

  lemma DeskReads(e: Event, row: Row, occ: Occupancy, rest: map<Request, Work>, q: Request)
    requires 7 in e.groups && q !in rest && row.status == Queued
    ensures Stepped(e, AtDesk(row, occ, rest), ReadUndo(q, 7)) ==
            AtDesk(row, occ, rest[q := Undoing(7, Queued, row.autoRoom)])
    ensures Stepped(e, AtDesk(row, occ, rest), ReadReversal(q, 7)) ==
            AtDesk(row, occ, rest[q := Reversing(7, row.autoRoom)])
  {
  }

  function Then(rest: map<Request, Work>, q: Request, read: Option<Room>): map<Request, Work> {
    if read.Some? then rest[q := Freeing(7, read.value)] else rest
  }

  lemma DeskUndoes(e: Event, st: Stamp, room: Option<Room>, occ: Occupancy, rest: map<Request, Work>, q: Request,
                   read: Option<Room>)
    requires q !in rest
    ensures Stepped(e, AtDesk(InLine(st, room), occ, rest[q := Undoing(7, Queued, read)]), TakeBack(q)) ==
            AtDesk(Gone(room), occ, Then(rest, q, read))
  {
    assert rest[q := Undoing(7, Queued, read)] - {q} == rest;
  }

  lemma DeskReverses(e: Event, st: Stamp, room: Option<Room>, occ: Occupancy, rest: map<Request, Work>, q: Request,
                     read: Option<Room>)
    requires q !in rest
    ensures Stepped(e, AtDesk(InLine(st, room), occ, rest[q := Reversing(7, read)]), TakeBack(q)) ==
            AtDesk(Gone(None), occ, Then(rest, q, read))
  {
    assert rest[q := Reversing(7, read)] - {q} == rest;
  }

  lemma DeskFrees(e: Event, row: Row, occ: Occupancy, rest: map<Request, Work>, q: Request, r: Room)
    requires q !in rest
    ensures Stepped(e, AtDesk(row, occ, rest[q := Freeing(7, r)]), Free(q)) ==
            AtDesk(row, occ - {(7, r)}, rest[q := Forgetting(7, r)])
    ensures Stepped(e, AtDesk(row, occ, rest[q := Forgetting(7, r)]), Forget(q)) ==
            AtDesk(row.(autoRoom := None), occ, rest)
  {
    assert rest[q := Forgetting(7, r)] - {q} == rest;
  }

  /** One more move. */
  lemma Next(e: Event, h: Hall, ms: seq<Transaction>, m: Transaction)
    ensures RunHall(e, h, ms + [m]) == Stepped(e, RunHall(e, h, ms), m)
  {
    assert (ms + [m])[..|ms|] == ms;
  }

  lemma OneCandidate(b: Bedroom)
    requires OneBed(b, 1)
    ensures Candidates([b], {}, {}) == [b] && CanTake({}, b)
  {
    assert Occupants({}, 1) == {};
    NoneOfGroup([b]);
    assert [b][..0] == [];
    assert VacantOpen([b], {}) == [b];
  }

  lemma TwoCandidates(a: Bedroom, b: Bedroom)
    requires OneBed(a, 1) && OneBed(b, 2) && a.rank <= b.rank
    ensures Candidates([a, b], {}, {}) == [a, b]
  {
    NoneOfGroup([a, b]);
    TwoVacant(a, b);
    TwoSorted(a, b);
    assert [] + [a, b] == [a, b];
  }

  lemma {:induction false} NoneOfGroup(rooms: seq<Bedroom>)
    ensures VacantOfGroup(rooms, {}, {}) == []
  {
    if rooms == [] {
    } else {
      NoneOfGroup(rooms[..|rooms| - 1]);
    }
  }

  lemma TwoVacant(a: Bedroom, b: Bedroom)
    requires OneBed(a, 1) && OneBed(b, 2)
    ensures VacantOpen([a, b], {}) == [a, b]
  {
    assert Occupants({}, 1) == {} && Occupants({}, 2) == {};
    assert [a, b][..1] == [a] && [a][..0] == [];
    assert VacantOpen([a], {}) == [a];
    assert VacantOpen([a, b], {}) == [a] + [b];
  }

  lemma TwoSorted(a: Bedroom, b: Bedroom)
    requires a.rank <= b.rank
    ensures Sorting.SortBy([a, b], Rank) == [a, b]
  {
    assert [a, b][..1] == [a] && [a][..0] == [];
    assert Sorting.SortBy([a], Rank) == [a];
  }

  lemma TwoBeds(a: Bedroom, b: Bedroom)
    requires OneBed(a, 1) && OneBed(b, 2)
    ensures CanTake({}, a) && !CanTake({(7, 1)}, a) && CanTake({(7, 1)}, b)
  {
    assert Occupants({}, 1) == {};
    assert Occupants({(7, 1)}, 1) == {(7, 1)} && Occupants({(7, 1)}, 2) == {};
  }

  /** A badge handed out and its bed taken. */
  function BedMoves(q: Request, st: Stamp): seq<Transaction> {
    [] + [Deliver(q, 7, st)] + [Look(q)] + [TryBed(q)]
  }

  lemma BedTakenFirst(st: Stamp, b: Bedroom)
    requires OneBed(b, 1)
    ensures RunHall(OnePerson([b]), START, BedMoves(1, st)) ==
            AtDesk(InLine(st, None), {(7, 1)}, map[1 := Holding(7, 1)])
  {
    var e := OnePerson([b]);
    RoomFoundFirst(st, b);
    OneCandidate(b);
    DeskTries(e, InLine(st, None), {}, map[], 1, [b]);
    Next(e, START, [] + [Deliver(1, 7, st)] + [Look(1)], TryBed(1));
    assert {} + {(7, 1)} == {(7, 1)};
  }

  lemma RoomFoundFirst(st: Stamp, b: Bedroom)
    requires OneBed(b, 1)
    ensures RunHall(OnePerson([b]), START, [] + [Deliver(1, 7, st)] + [Look(1)]) ==
            AtDesk(InLine(st, None), {}, map[1 := Seeking(7, [b])])
  {
    var e := OnePerson([b]);
    OneCandidate(b);
    DeskDelivers(e, None, {}, map[], 1, st);
    Next(e, START, [], Deliver(1, 7, st));
    DeskLooks(e, InLine(st, None), {}, map[], 1);
    Next(e, START, [] + [Deliver(1, 7, st)], Look(1));
  }

  /** Nobody is at work any more, and the books are wrong. */
  ghost predicate Broken(h: Hall) {
    h.work == map[] && !Inv({}, World(h.rows, h.occ))
  }

  lemma PendingWithBed(room: Room)
    ensures Broken(AtDesk(Gone(Some(room)), {(7, room)}, map[]))
  {
    assert !Tidy({}, RowOf(map[7 := Gone(Some(room))], 7), 7);
  }

  /** A bed the row does not remember. */
  lemma BedNotRemembered(row: Row, occ: Occupancy, room: Room)
    requires (7, room) in occ && row.autoRoom != Some(room)
    ensures Broken(AtDesk(row, occ, map[]))
  {
    assert !Explained({}, World(map[7 := row], occ), (7, room));
  }

  /** A room remembered without its bed. */
  lemma NoBed(row: Row, occ: Occupancy, room: Room)
    requires (7, room) !in occ && row.autoRoom == Some(room)
    ensures Broken(AtDesk(row, occ, map[]))
  {
    assert !Explained({}, World(map[7 := row], occ), (7, room));
  }

  function RememberedTooLateMoves(st: Stamp): seq<Transaction> {
    BedMoves(1, st) + [ReadReversal(2, 7)] + [TakeBack(2)] + [Remember(1)]
  }

  /** The delivery is taken back before its bed is remembered: somebody who has not arrived keeps it. */
  lemma RememberedTooLate(st: Stamp, b: Bedroom)
    requires OneBed(b, 1)
    ensures RunHall(OnePerson([b]), START, RememberedTooLateMoves(st)) == AtDesk(Gone(Some(1)), {(7, 1)}, map[])
    ensures Broken(RunHall(OnePerson([b]), START, RememberedTooLateMoves(st)))
  {
    var e := OnePerson([b]);
    BedTakenFirst(st, b);
    var m0 := BedMoves(1, st);
    DeskReads(e, InLine(st, None), {(7, 1)}, map[1 := Holding(7, 1)], 2);
    Next(e, START, m0, ReadReversal(2, 7));
    var m1 := m0 + [ReadReversal(2, 7)];
    DeskReverses(e, st, None, {(7, 1)}, map[1 := Holding(7, 1)], 2, None);
    Next(e, START, m1, TakeBack(2));
    var m2 := m1 + [TakeBack(2)];
    DeskRemembers(e, Gone(None), {(7, 1)}, map[], 1, 1);
    Next(e, START, m2, Remember(1));
    PendingWithBed(1);
  }

  function UndoneTooEarlyMoves(st: Stamp): seq<Transaction> {
    BedMoves(1, st) + [ReadUndo(2, 7)] + [Remember(1)] + [TakeBack(2)]
  }

  /** The stage is undone with the row as it was before its bed was remembered: nobody frees the bed. */
  lemma UndoneTooEarly(st: Stamp, b: Bedroom)
    requires OneBed(b, 1)
    ensures RunHall(OnePerson([b]), START, UndoneTooEarlyMoves(st)) == AtDesk(Gone(Some(1)), {(7, 1)}, map[])
    ensures Broken(RunHall(OnePerson([b]), START, UndoneTooEarlyMoves(st)))
  {
    var e := OnePerson([b]);
    BedTakenFirst(st, b);
    var m0 := BedMoves(1, st);
    DeskReads(e, InLine(st, None), {(7, 1)}, map[1 := Holding(7, 1)], 2);
    Next(e, START, m0, ReadUndo(2, 7));
    var m1 := m0 + [ReadUndo(2, 7)];
    assert map[1 := Holding(7, 1)][2 := Undoing(7, Queued, None)] ==
           map[2 := Undoing(7, Queued, None)][1 := Holding(7, 1)];
    DeskRemembers(e, InLine(st, None), {(7, 1)}, map[2 := Undoing(7, Queued, None)], 1, 1);
    Next(e, START, m1, Remember(1));
    var m2 := m1 + [Remember(1)];
    DeskUndoes(e, st, Some(1), {(7, 1)}, map[], 2, None);
    Next(e, START, m2, TakeBack(2));
    PendingWithBed(1);
  }

  function ReversedTooEarlyMoves(st: Stamp): seq<Transaction> {
    BedMoves(1, st) + [ReadReversal(2, 7)] + [Remember(1)] + [TakeBack(2)]
  }

  /** The whole delivery is reversed with such a row: it forgets a bed that nobody frees. */
  lemma ReversedTooEarly(st: Stamp, b: Bedroom)
    requires OneBed(b, 1)
    ensures RunHall(OnePerson([b]), START, ReversedTooEarlyMoves(st)) == AtDesk(Gone(None), {(7, 1)}, map[])
    ensures Broken(RunHall(OnePerson([b]), START, ReversedTooEarlyMoves(st)))
  {
    var e := OnePerson([b]);
    BedTakenFirst(st, b);
    var m0 := BedMoves(1, st);
    DeskReads(e, InLine(st, None), {(7, 1)}, map[1 := Holding(7, 1)], 2);
    Next(e, START, m0, ReadReversal(2, 7));
    var m1 := m0 + [ReadReversal(2, 7)];
    assert map[1 := Holding(7, 1)][2 := Reversing(7, None)] == map[2 := Reversing(7, None)][1 := Holding(7, 1)];
    DeskRemembers(e, InLine(st, None), {(7, 1)}, map[2 := Reversing(7, None)], 1, 1);
    Next(e, START, m1, Remember(1));
    var m2 := m1 + [Remember(1)];
    DeskReverses(e, st, Some(1), {(7, 1)}, map[], 2, None);
    Next(e, START, m2, TakeBack(2));
    BedNotRemembered(Gone(None), {(7, 1)}, 1);
  }

  function ReversedOnceMoves(st: Stamp): seq<Transaction> {
    BedMoves(1, st) + [Remember(1)] + [ReadReversal(2, 7)] + [TakeBack(2)] + [Free(2)]
  }

  /** A delivery is reversed, and its bed freed. */
  lemma ReversedOnce(st: Stamp, b: Bedroom)
    requires OneBed(b, 1)
    ensures RunHall(OnePerson([b]), START, ReversedOnceMoves(st)) == AtDesk(Gone(None), {}, map[2 := Forgetting(7, 1)])
  {
    var e := OnePerson([b]);
    BedTakenFirst(st, b);
    var m0 := BedMoves(1, st);
    DeskRemembers(e, InLine(st, None), {(7, 1)}, map[], 1, 1);
    Next(e, START, m0, Remember(1));
    var m1 := m0 + [Remember(1)];
    DeskReads(e, InLine(st, Some(1)), {(7, 1)}, map[], 2);
    Next(e, START, m1, ReadReversal(2, 7));
    var m2 := m1 + [ReadReversal(2, 7)];
    DeskReverses(e, st, Some(1), {(7, 1)}, map[], 2, Some(1));
    Next(e, START, m2, TakeBack(2));
    var m3 := m2 + [TakeBack(2)];
    DeskFrees(e, Gone(None), {(7, 1)}, map[], 2, 1);
    assert {(7, 1)} - {(7, 1)} == {};
    Next(e, START, m3, Free(2));
  }

  function ForgottenTooLateMoves(st: Stamp): seq<Transaction> {
    ReversedOnceMoves(st) + [Deliver(3, 7, st)] + [Look(3)] + [TryBed(3)] + [Remember(3)] + [Forget(2)]
  }

  /** The badge is handed out again before the reversal makes the row forget: it forgets the new bed. */
  lemma ForgottenTooLate(st: Stamp, b: Bedroom)
    requires OneBed(b, 1)
    ensures RunHall(OnePerson([b]), START, ForgottenTooLateMoves(st)) == AtDesk(InLine(st, None), {(7, 1)}, map[])
    ensures Broken(RunHall(OnePerson([b]), START, ForgottenTooLateMoves(st)))
  {
    var e := OnePerson([b]);
    ReversedOnce(st, b);
    var m0 := ReversedOnceMoves(st);
    DeskDelivers(e, None, {}, map[2 := Forgetting(7, 1)], 3, st);
    Next(e, START, m0, Deliver(3, 7, st));
    var m1 := m0 + [Deliver(3, 7, st)];
    OneCandidate(b);
    DeskLooks(e, InLine(st, None), {}, map[2 := Forgetting(7, 1)], 3);
    Next(e, START, m1, Look(3));
    var m2 := m1 + [Look(3)];
    DeskTries(e, InLine(st, None), {}, map[2 := Forgetting(7, 1)], 3, [b]);
    assert {} + {(7, 1)} == {(7, 1)};
    Next(e, START, m2, TryBed(3));
    var m3 := m2 + [TryBed(3)];
    DeskRemembers(e, InLine(st, None), {(7, 1)}, map[2 := Forgetting(7, 1)], 3, 1);
    Next(e, START, m3, Remember(3));
    var m4 := m3 + [Remember(3)];
    DeskFrees(e, InLine(st, Some(1)), {(7, 1)}, map[], 2, 1);
    Next(e, START, m4, Forget(2));
    BedNotRemembered(InLine(st, None), {(7, 1)}, 1);
  }

  function LookingTwiceMoves(st: Stamp): seq<Transaction> {
    [] + [Deliver(1, 7, st)] + [Look(1)] + [ReadReversal(2, 7)] + [TakeBack(2)] + [Deliver(3, 7, st)]
    + [Look(3)]
  }

  /** Two deliveries look for a room, the first taken back meanwhile. */
  lemma LookingTwice(st: Stamp, a: Bedroom, b: Bedroom)
    requires OneBed(a, 1) && OneBed(b, 2) && a.rank <= b.rank
    ensures RunHall(OnePerson([a, b]), START, LookingTwiceMoves(st)) ==
            AtDesk(InLine(st, None), {}, map[1 := Seeking(7, [a, b])][3 := Seeking(7, [a, b])])
  {
    var e := OnePerson([a, b]);
    TwoCandidates(a, b);
    var m0 := [];
    DeskDelivers(e, None, {}, map[], 1, st);
    Next(e, START, m0, Deliver(1, 7, st));
    var m1 := m0 + [Deliver(1, 7, st)];
    DeskLooks(e, InLine(st, None), {}, map[], 1);
    Next(e, START, m1, Look(1));
    var m2 := m1 + [Look(1)];
    DeskReads(e, InLine(st, None), {}, map[1 := Seeking(7, [a, b])], 2);
    Next(e, START, m2, ReadReversal(2, 7));
    var m3 := m2 + [ReadReversal(2, 7)];
    DeskReverses(e, st, None, {}, map[1 := Seeking(7, [a, b])], 2, None);
    Next(e, START, m3, TakeBack(2));
    var m4 := m3 + [TakeBack(2)];
    DeskDelivers(e, None, {}, map[1 := Seeking(7, [a, b])], 3, st);
    Next(e, START, m4, Deliver(3, 7, st));
    var m5 := m4 + [Deliver(3, 7, st)];
    DeskLooks(e, InLine(st, None), {}, map[1 := Seeking(7, [a, b])], 3);
    Next(e, START, m5, Look(3));
  }

  function HoldingOnceMoves(st: Stamp): seq<Transaction> {
    LookingTwiceMoves(st) + [TryBed(1)]
  }

  /** The first takes the first bed. */
  lemma HoldingOnce(st: Stamp, a: Bedroom, b: Bedroom)
    requires OneBed(a, 1) && OneBed(b, 2) && a.rank <= b.rank
    ensures RunHall(OnePerson([a, b]), START, HoldingOnceMoves(st)) ==
            AtDesk(InLine(st, None), {(7, 1)}, map[1 := Holding(7, 1)][3 := Seeking(7, [a, b])])
  {
    var e := OnePerson([a, b]);
    LookingTwice(st, a, b);
    TwoBeds(a, b);
    assert map[1 := Seeking(7, [a, b])][3 := Seeking(7, [a, b])] ==
           map[3 := Seeking(7, [a, b])][1 := Seeking(7, [a, b])];
    DeskTries(e, InLine(st, None), {}, map[3 := Seeking(7, [a, b])], 1, [a, b]);
    assert {} + {(7, 1)} == {(7, 1)};
    Next(e, START, LookingTwiceMoves(st), TryBed(1));
    assert map[3 := Seeking(7, [a, b])][1 := Holding(7, 1)] == map[1 := Holding(7, 1)][3 := Seeking(7, [a, b])];
  }

  function HoldingTwiceMoves(st: Stamp): seq<Transaction> {
    HoldingOnceMoves(st) + [TryBed(3)] + [TryBed(3)]
  }

  /** The second finds it full and takes the other. */
  lemma HoldingTwice(st: Stamp, a: Bedroom, b: Bedroom)
    requires OneBed(a, 1) && OneBed(b, 2) && a.rank <= b.rank
    ensures RunHall(OnePerson([a, b]), START, HoldingTwiceMoves(st)) ==
            AtDesk(InLine(st, None), {(7, 1), (7, 2)}, map[1 := Holding(7, 1)][3 := Holding(7, 2)])
  {
    var e := OnePerson([a, b]);
    HoldingOnce(st, a, b);
    TwoBeds(a, b);
    var m0 := HoldingOnceMoves(st);
    DeskTries(e, InLine(st, None), {(7, 1)}, map[1 := Holding(7, 1)], 3, [a, b]);
    assert [a, b][1..] == [b];
    Next(e, START, m0, TryBed(3));
    var m1 := m0 + [TryBed(3)];
    DeskTries(e, InLine(st, None), {(7, 1)}, map[1 := Holding(7, 1)], 3, [b]);
    assert {(7, 1)} + {(7, 2)} == {(7, 1), (7, 2)};
    Next(e, START, m1, TryBed(3));
  }

  function RememberedTwiceMoves(st: Stamp): seq<Transaction> {
    HoldingTwiceMoves(st) + [Remember(1)] + [Remember(3)]
  }

  /** The two remember their beds, one after the other. */
  lemma RememberedTwice(st: Stamp, a: Bedroom, b: Bedroom)
    requires OneBed(a, 1) && OneBed(b, 2) && a.rank <= b.rank
    ensures RunHall(OnePerson([a, b]), START, RememberedTwiceMoves(st)) ==
            AtDesk(InLine(st, Some(2)), {(7, 1), (7, 2)}, map[])
    ensures Broken(RunHall(OnePerson([a, b]), START, RememberedTwiceMoves(st)))
  {
    var e := OnePerson([a, b]);
    HoldingTwice(st, a, b);
    var m0 := HoldingTwiceMoves(st);
    assert map[1 := Holding(7, 1)][3 := Holding(7, 2)] == map[3 := Holding(7, 2)][1 := Holding(7, 1)];
    DeskRemembers(e, InLine(st, None), {(7, 1), (7, 2)}, map[3 := Holding(7, 2)], 1, 1);
    Next(e, START, m0, Remember(1));
    var m1 := m0 + [Remember(1)];
    DeskRemembers(e, InLine(st, Some(1)), {(7, 1), (7, 2)}, map[], 3, 2);
    Next(e, START, m1, Remember(3));
    BedNotRemembered(InLine(st, Some(2)), {(7, 1), (7, 2)}, 1);
  }

  function UndoneTwiceMoves(st: Stamp): seq<Transaction> {
    BedMoves(1, st) + [Remember(1)] + [ReadUndo(3, 7)] + [ReadUndo(2, 7)] + [TakeBack(2)]
    + [Deliver(4, 7, st)] + [Look(4)] + [TakeBack(3)]
  }

  /** Two operators undo one delivery, the badge being handed out again in between. */
  lemma UndoneTwice(st: Stamp, b: Bedroom)
    requires OneBed(b, 1)
    ensures RunHall(OnePerson([b]), START, UndoneTwiceMoves(st)) ==
            AtDesk(Gone(Some(1)), {(7, 1)}, map[2 := Freeing(7, 1)][3 := Freeing(7, 1)])
  {
    var e := OnePerson([b]);
    BedTakenFirst(st, b);
    var m0 := BedMoves(1, st);
    DeskRemembers(e, InLine(st, None), {(7, 1)}, map[], 1, 1);
    Next(e, START, m0, Remember(1));
    var m1 := m0 + [Remember(1)];
    DeskReads(e, InLine(st, Some(1)), {(7, 1)}, map[], 3);
    Next(e, START, m1, ReadUndo(3, 7));
    var m2 := m1 + [ReadUndo(3, 7)];
    DeskReads(e, InLine(st, Some(1)), {(7, 1)}, map[3 := Undoing(7, Queued, Some(1))], 2);
    Next(e, START, m2, ReadUndo(2, 7));
    var m3 := m2 + [ReadUndo(2, 7)];
    DeskUndoes(e, st, Some(1), {(7, 1)}, map[3 := Undoing(7, Queued, Some(1))], 2, Some(1));
    Next(e, START, m3, TakeBack(2));
    var m4 := m3 + [TakeBack(2)];
    DeskDelivers(e, Some(1), {(7, 1)}, map[3 := Undoing(7, Queued, Some(1))][2 := Freeing(7, 1)], 4, st);
    Next(e, START, m4, Deliver(4, 7, st));
    var m5 := m4 + [Deliver(4, 7, st)];
    assert (7, 1) in {(7, 1)};
    DeskLooks(e, InLine(st, Some(1)), {(7, 1)}, map[3 := Undoing(7, Queued, Some(1))][2 := Freeing(7, 1)], 4);
    Next(e, START, m5, Look(4));
    var m6 := m5 + [Look(4)];
    assert map[3 := Undoing(7, Queued, Some(1))][2 := Freeing(7, 1)] ==
           map[2 := Freeing(7, 1)][3 := Undoing(7, Queued, Some(1))];
    DeskUndoes(e, st, Some(1), {(7, 1)}, map[2 := Freeing(7, 1)], 3, Some(1));
    Next(e, START, m6, TakeBack(3));
  }

  function FreedOnceMoves(st: Stamp): seq<Transaction> {
    UndoneTwiceMoves(st) + [Free(2)] + [Forget(2)]
  }

  /** The first of them ends. */
  lemma FreedOnce(st: Stamp, b: Bedroom)
    requires OneBed(b, 1)
    ensures RunHall(OnePerson([b]), START, FreedOnceMoves(st)) == AtDesk(Gone(None), {}, map[3 := Freeing(7, 1)])
  {
    var e := OnePerson([b]);
    UndoneTwice(st, b);
    var m0 := UndoneTwiceMoves(st);
    assert map[2 := Freeing(7, 1)][3 := Freeing(7, 1)] == map[3 := Freeing(7, 1)][2 := Freeing(7, 1)];
    DeskFrees(e, Gone(Some(1)), {(7, 1)}, map[3 := Freeing(7, 1)], 2, 1);
    assert {(7, 1)} - {(7, 1)} == {};
    Next(e, START, m0, Free(2));
    var m1 := m0 + [Free(2)];
    DeskFrees(e, Gone(Some(1)), {}, map[3 := Freeing(7, 1)], 2, 1);
    Next(e, START, m1, Forget(2));
  }

  function HeldAgainMoves(st: Stamp): seq<Transaction> {
    FreedOnceMoves(st) + [Deliver(5, 7, st)] + [Look(5)] + [TryBed(5)]
  }

  /** A third delivery takes the bed. */
  lemma HeldAgain(st: Stamp, b: Bedroom)
    requires OneBed(b, 1)
    ensures RunHall(OnePerson([b]), START, HeldAgainMoves(st)) ==
            AtDesk(InLine(st, None), {(7, 1)}, map[3 := Freeing(7, 1)][5 := Holding(7, 1)])
  {
    var e := OnePerson([b]);
    FreedOnce(st, b);
    var m0 := FreedOnceMoves(st);
    DeskDelivers(e, None, {}, map[3 := Freeing(7, 1)], 5, st);
    Next(e, START, m0, Deliver(5, 7, st));
    var m1 := m0 + [Deliver(5, 7, st)];
    OneCandidate(b);
    DeskLooks(e, InLine(st, None), {}, map[3 := Freeing(7, 1)], 5);
    Next(e, START, m1, Look(5));
    var m2 := m1 + [Look(5)];
    DeskTries(e, InLine(st, None), {}, map[3 := Freeing(7, 1)], 5, [b]);
    assert {} + {(7, 1)} == {(7, 1)};
    Next(e, START, m2, TryBed(5));
  }

  function FreedTooLateMoves(st: Stamp): seq<Transaction> {
    HeldAgainMoves(st) + [Free(3)] + [Forget(3)] + [Remember(5)]
  }

  /** Then the second of them frees the bed that a third delivery holds. */
  lemma FreedTooLate(st: Stamp, b: Bedroom)
    requires OneBed(b, 1)
    ensures RunHall(OnePerson([b]), START, FreedTooLateMoves(st)) == AtDesk(InLine(st, Some(1)), {}, map[])
    ensures Broken(RunHall(OnePerson([b]), START, FreedTooLateMoves(st)))
  {
    var e := OnePerson([b]);
    HeldAgain(st, b);
    var m0 := HeldAgainMoves(st);
    assert map[3 := Freeing(7, 1)][5 := Holding(7, 1)] == map[5 := Holding(7, 1)][3 := Freeing(7, 1)];
    DeskFrees(e, InLine(st, None), {(7, 1)}, map[5 := Holding(7, 1)], 3, 1);
    Next(e, START, m0, Free(3));
    var m1 := m0 + [Free(3)];
    DeskFrees(e, InLine(st, None), {}, map[5 := Holding(7, 1)], 3, 1);
    Next(e, START, m1, Forget(3));
    var m2 := m1 + [Forget(3)];
    DeskRemembers(e, InLine(st, None), {}, map[], 5, 1);
    Next(e, START, m2, Remember(5));
    NoBed(InLine(st, Some(1)), {}, 1);
  }
}
