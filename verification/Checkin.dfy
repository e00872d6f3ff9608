/** The reception desk and the photo desk: four stages per person, driven by operators who
    compete, and the bedroom that handing out the badge allocates. */
module Checkin {
  import opened Wrappers
  import opened Bedrooms
  import Sorting

  type Time = int

  datatype Stamp = Stamp(at: Time, who: Operator)
  datatype Status = Pending | Queued | InProgress | Done

  datatype Row = Row(
    status: Status,
    badge: Option<Stamp>,
    called: Option<Stamp>,
    done: Option<Stamp>,
    autoRoom: Option<Room>)

  const NEW_ROW: Row := Row(Pending, None, None, None, None)

  // ---- one row -------------------------------------------------------------

  /** The updates of a check-in row; those that name a status in their filter do nothing
      to a row in another one. */
  datatype Write =
    | ToQueue(st: Stamp)
    | ToProgress(st: Stamp)
    | ToDone(st: Stamp)
    | Back(seen: Status)
    | Reset
    | SetRoom(room: Room)
    | ClearRoom

  predicate Matches(row: Row, w: Write) {
    match w
    case ToQueue(_) => row.status == Pending
    case ToProgress(_) => row.status == Queued
    case ToDone(_) => row.status == Queued || row.status == InProgress
    case Back(seen) => row.status == seen && seen != Pending
    case Reset => row.status != Pending
    case SetRoom(_) => true
    case ClearRoom => true
  }

  function Written(row: Row, w: Write): Row {
    if !Matches(row, w) then row
    else
      match w
      case ToQueue(st) => Row(Queued, Some(st), None, None, row.autoRoom)
      case ToProgress(st) => row.(status := InProgress, called := Some(st))
      case ToDone(st) => row.(status := Done, done := Some(st))
      case Back(seen) =>
        (match seen
         case Done => row.(status := InProgress, done := None)
         case InProgress => row.(status := Queued, called := None)
         case _ => row.(status := Pending, badge := None))
      case Reset => NEW_ROW
      case SetRoom(room) => row.(autoRoom := Some(room))
      case ClearRoom => row.(autoRoom := None)
  }

  function RunWrites(row: Row, ws: seq<Write>): Row {
    if ws == [] then row else Written(RunWrites(row, ws[..|ws| - 1]), ws[|ws| - 1])
  }

  /** The status says which stamps there are. Whoever is in progress or done may never
      have been called. */
  predicate Stamped(row: Row) {
    match row.status
    case Pending => row.badge.None? && row.called.None? && row.done.None?
    case Queued => row.badge.Some? && row.called.None? && row.done.None?
    case InProgress => row.badge.Some? && row.done.None?
    case Done => row.badge.Some? && row.done.Some?
  }

  /** Whatever the operators write, in whatever order their updates reach the row, the
      stamps agree with the status. */
  lemma {:induction false} StampsAgree(row: Row, ws: seq<Write>)
    requires Stamped(row)
    ensures Stamped(RunWrites(row, ws))
  {
    if ws == [] {
    } else {
      StampsAgree(row, ws[..|ws| - 1]);
    }
  }

  /** Being in progress does not mean having been called: completing straight from the
      queue and taking that back leaves no call behind. */
  lemma NeverCalled(st: Stamp)
    ensures var row := RunWrites(NEW_ROW, [ToQueue(st), ToDone(st), Back(Done)]);
            row.status == InProgress && row.called.None?
  {
    var ws := [ToQueue(st), ToDone(st), Back(Done)];
    assert ws[..2] == [ToQueue(st), ToDone(st)] && ws[..2][..1] == [ToQueue(st)] && ws[..2][..1][..0] == [];
    assert RunWrites(NEW_ROW, ws[..2][..1]) == Row(Queued, Some(st), None, None, None);
    assert RunWrites(NEW_ROW, ws[..2]) == Row(Done, Some(st), None, Some(st), None);
  }

  /** Whoever is in progress has been called. */
  predicate CalledFits(row: Row) {
    row.status.InProgress? ==> row.called.Some?
  }

  /** A completion of somebody who was never called is taken back. */
  predicate TakesBackUncalled(row: Row, w: Write) {
    w == Back(Done) && row.status.Done? && row.called.None?
  }

  lemma WriteFits(row: Row, w: Write)
    requires Stamped(row) && CalledFits(row)
    ensures CalledFits(Written(row, w)) <==> !TakesBackUncalled(row, w)
  {
  }

  predicate FitsAlong(row: Row, ws: seq<Write>) {
    CalledFits(RunWrites(row, ws)) && (ws != [] ==> FitsAlong(row, ws[..|ws| - 1]))
  }

  predicate NeverTakesBackUncalled(row: Row, ws: seq<Write>) {
    ws != [] ==>
      var n := |ws| - 1;
      NeverTakesBackUncalled(row, ws[..n]) && !TakesBackUncalled(RunWrites(row, ws[..n]), ws[n])
  }

  /** Over every sequence of updates: whoever is in progress has been called, all along, exactly
      when no completion of somebody never called is taken back. */
  lemma {:induction false} CalledExactly(row: Row, ws: seq<Write>)
    requires Stamped(row) && CalledFits(row)
    ensures FitsAlong(row, ws) <==> NeverTakesBackUncalled(row, ws)
  {
    if ws == [] {
    } else {
      var n := |ws| - 1;
      CalledExactly(row, ws[..n]);
      StampsAgree(row, ws[..n]);
      if FitsAlong(row, ws[..n]) {
        WriteFits(RunWrites(row, ws[..n]), ws[n]);
      }
    }
  }

  /** The last completion came straight from the queue, and nothing was taken back since. */
  predicate DoneFromQueue(row: Row, ws: seq<Write>) {
    ws != [] && RunWrites(row, ws).status.Done? &&
    var n := |ws| - 1;
    var before := RunWrites(row, ws[..n]);
    before.status.Queued? || (before.status.Done? && DoneFromQueue(row, ws[..n]))
  }

  /** While everybody in progress has been called, somebody done was never called exactly when
      the completion came straight from the queue. */
  lemma {:induction false} UncalledIsFromQueue(row: Row, ws: seq<Write>)
    requires Stamped(row) && !row.status.Done? && FitsAlong(row, ws)
    ensures var end := RunWrites(row, ws);
            end.status.Done? && end.called.None? <==> DoneFromQueue(row, ws)
  {
    if ws == [] {
    } else {
      var n := |ws| - 1;
      UncalledIsFromQueue(row, ws[..n]);
      StampsAgree(row, ws[..n]);
    }
  }

  // ---- whole operations ----------------------------------------------------

  /** The rooms, whether the event uses them, and who is registered, with which groups. */
  datatype Event = Event(rooms: seq<Bedroom>, bedroomsOn: bool, groups: map<User, set<Group>>)

  datatype World = World(rows: map<User, Row>, occ: Occupancy)

  datatype Outcome = Accepted | Called(user: User) | Conflict | NotFound

  /** Somebody without a row is as somebody pending. */
  function RowOf(rows: map<User, Row>, u: User): Row {
    if u in rows then rows[u] else NEW_ROW
  }

  function Put(w: World, u: User, write: Write): World {
    w.(rows := w.rows[u := Written(RowOf(w.rows, u), write)])
  }

  function Allocated(e: Event, occ: Occupancy, u: User): Option<Room> {
    if e.bedroomsOn && u in e.groups then Choice(e.rooms, occ, e.groups[u], u) else None
  }

  /** The second half of a delivery. */
  function GiveRoom(e: Event, w: World, u: User): World {
    var got := Allocated(e, w.occ, u);
    if got.None? then w else Put(w.(occ := w.occ + {(u, got.value)}), u, SetRoom(got.value))
  }

  function Deliver(e: Event, w: World, u: User, st: Stamp): (World, Outcome) {
    if u !in e.groups then (w, NotFound)
    else if RowOf(w.rows, u).status != Pending then (w, Conflict)
    else (GiveRoom(e, Put(w, u, ToQueue(st)), u), Accepted)
  }

  function Call(w: World, u: User, st: Stamp): (World, Outcome) {
    if RowOf(w.rows, u).status != Queued then (w, Conflict) else (Put(w, u, ToProgress(st)), Accepted)
  }

  function InQueue(rows: map<User, Row>, listing: seq<User>): seq<User> {
    if listing == [] then []
    else
      var u := listing[|listing| - 1];
      var before := InQueue(rows, listing[..|listing| - 1]);
      if RowOf(rows, u).status == Queued then before + [u] else before
  }

  function BadgeAt(rows: map<User, Row>): User -> Time {
    (u: User) => if RowOf(rows, u).badge.Some? then RowOf(rows, u).badge.value.at else 0
  }

  /** The queue, longest waiting first; `listing` is the order the rows come in. */
  function Waiting(rows: map<User, Row>, listing: seq<User>): seq<User> {
    Sorting.SortBy(InQueue(rows, listing), BadgeAt(rows))
  }

  function CallNext(w: World, listing: seq<User>, st: Stamp): (World, Outcome) {
    var queue := Waiting(w.rows, listing);
    if queue == [] then (w, NotFound) else (Put(w, queue[0], ToProgress(st)), Called(queue[0]))
  }

  function Complete(w: World, u: User, st: Stamp): (World, Outcome) {
    if RowOf(w.rows, u).status in {Queued, InProgress} then (Put(w, u, ToDone(st)), Accepted) else (w, Conflict)
  }

  /** `releaseAutoBedroom` */
  function Release(w: World, u: User, room: Option<Room>): World {
    if room.None? then w else Put(w.(occ := w.occ - {(u, room.value)}), u, ClearRoom)
  }

  function Undo(w: World, u: User): (World, Outcome) {
    var row := RowOf(w.rows, u);
    if row.status == Pending then (w, Conflict)
    else
      var back := Put(w, u, Back(row.status));
      (if row.status == Queued then Release(back, u, row.autoRoom) else back, Accepted)
  }

  function UndoDelivery(e: Event, w: World, u: User): (World, Outcome) {
    var row := RowOf(w.rows, u);
    if u !in e.groups then (w, NotFound)
    else if row.status == Pending then (w, Conflict)
    else (Release(Put(w, u, Reset), u, row.autoRoom), Accepted)
  }

  datatype Op =
    | DoDeliver(u: User, st: Stamp)
    | DoCall(u: User, st: Stamp)
    | DoCallNext(listing: seq<User>, st: Stamp)
    | DoComplete(u: User, st: Stamp)
    | DoUndo(u: User)
    | DoUndoDelivery(u: User)

  function Apply(e: Event, w: World, op: Op): (World, Outcome) {
    match op
    case DoDeliver(u, st) => Deliver(e, w, u, st)
    case DoCall(u, st) => Call(w, u, st)
    case DoCallNext(listing, st) => CallNext(w, listing, st)
    case DoComplete(u, st) => Complete(w, u, st)
    case DoUndo(u) => Undo(w, u)
    case DoUndoDelivery(u) => UndoDelivery(e, w, u)
  }

  function Run(e: Event, w: World, ops: seq<Op>): World {
    if ops == [] then w else Apply(e, Run(e, w, ops[..|ops| - 1]), ops[|ops| - 1]).0
  }

  // ---- rooms go back -------------------------------------------------------

  /** What holds of one person: nobody pending keeps an automatic room, and nobody with a
      room set by hand has one. */
  predicate Tidy(hand: Occupancy, row: Row, u: User) {
    && Stamped(row)
    && (row.status == Pending ==> row.autoRoom.None?)
    && (row.autoRoom.Some? ==> !HasRoom(hand, u))
  }

  /** The bed is taken by hand, or it is the automatic one of its person. */
  predicate Explained(hand: Occupancy, w: World, p: (User, Room)) {
    p in w.occ <==> p in hand || RowOf(w.rows, p.0).autoRoom == Some(p.1)
  }

  /** The rooms set by hand, and the automatic rooms the rows remember, are all there is. */
  ghost predicate Inv(hand: Occupancy, w: World) {
    && (forall u: User :: Tidy(hand, RowOf(w.rows, u), u))
    && (forall p: (User, Room) :: Explained(hand, w, p))
  }

  lemma PutKeeps(hand: Occupancy, w: World, u: User, write: Write)
    requires Inv(hand, w)
    requires !write.SetRoom? && !write.ClearRoom? && !write.Reset?
    requires write == Back(Queued) ==> RowOf(w.rows, u).autoRoom.None? || RowOf(w.rows, u).status != Queued
    ensures Inv(hand, Put(w, u, write))
  {
    var after := Put(w, u, write);
    assert Tidy(hand, RowOf(w.rows, u), u);
    forall v: User
      ensures Tidy(hand, RowOf(after.rows, v), v)
    {
      assert Tidy(hand, RowOf(w.rows, v), v);
    }
    forall p: (User, Room)
      ensures Explained(hand, after, p)
    {
      assert Explained(hand, w, p);
    }
  }

  lemma NoRoomNoneByHand(hand: Occupancy, w: World, u: User)
    requires Inv(hand, w) && !HasRoom(w.occ, u)
    ensures !HasRoom(hand, u) && RowOf(w.rows, u).autoRoom.None?
  {
    forall p | p in hand
      ensures p.0 != u
    {
      assert Explained(hand, w, p);
    }
    forall r: Room
      ensures RowOf(w.rows, u).autoRoom != Some(r)
    {
      assert Explained(hand, w, (u, r));
    }
  }

  lemma ExplainedAfterGiving(hand: Occupancy, w: World, u: User, r: Room, p: (User, Room))
    requires Explained(hand, w, p) && RowOf(w.rows, u).autoRoom.None?
    ensures Explained(hand, Put(w.(occ := w.occ + {(u, r)}), u, SetRoom(r)), p)
  {
  }

  lemma GiveRoomKeeps(e: Event, hand: Occupancy, w: World, u: User)
    requires Inv(hand, w) && RowOf(w.rows, u).status != Pending
    ensures Inv(hand, GiveRoom(e, w, u))
  {
    var got := Allocated(e, w.occ, u);
    if got.Some? {
      var b := ChoiceMeaning(e.rooms, w.occ, e.groups[u], u);
      NoRoomNoneByHand(hand, w, u);
      var after := GiveRoom(e, w, u);
      forall v: User
        ensures Tidy(hand, RowOf(after.rows, v), v)
      {
        assert Tidy(hand, RowOf(w.rows, v), v);
      }
      forall p: (User, Room)
        ensures Explained(hand, after, p)
      {
        ExplainedAfterGiving(hand, w, u, got.value, p);
      }
    }
  }

  /** Going back to pending, by either path: the stamps go, and the automatic room too. */
  lemma BackToPendingKeeps(hand: Occupancy, w: World, u: User, write: Write)
    requires Inv(hand, w)
    requires write == Reset || write == Back(Queued)
    requires Matches(RowOf(w.rows, u), write)
    ensures Inv(hand, Release(Put(w, u, write), u, RowOf(w.rows, u).autoRoom))
  {
    var row := RowOf(w.rows, u);
    var after := Release(Put(w, u, write), u, row.autoRoom);
    assert Tidy(hand, row, u);
    forall v: User
      ensures Tidy(hand, RowOf(after.rows, v), v)
    {
      assert Tidy(hand, RowOf(w.rows, v), v);
    }
    forall p: (User, Room)
      ensures Explained(hand, after, p)
    {
      assert Explained(hand, w, p);
      assert p.0 == u && p in hand ==> HasRoom(hand, u);
    }
  }

  lemma StepKeeps(e: Event, hand: Occupancy, w: World, op: Op)
    requires Inv(hand, w)
    ensures Inv(hand, Apply(e, w, op).0)
  {
    match op {
      case DoDeliver(u, st) =>
        PutKeeps(hand, w, u, ToQueue(st));
        if Deliver(e, w, u, st).1.Accepted? {
          GiveRoomKeeps(e, hand, Put(w, u, ToQueue(st)), u);
        }
      case DoCall(u, st) =>
        PutKeeps(hand, w, u, ToProgress(st));
      case DoCallNext(listing, st) =>
        if Waiting(w.rows, listing) != [] {
          PutKeeps(hand, w, Waiting(w.rows, listing)[0], ToProgress(st));
        }
      case DoComplete(u, st) =>
        PutKeeps(hand, w, u, ToDone(st));
      case DoUndo(u) =>
        UndoKeeps(hand, w, u);
      case DoUndoDelivery(u) =>
        if UndoDelivery(e, w, u).1.Accepted? {
          BackToPendingKeeps(hand, w, u, Reset);
        }
    }
  }

  lemma UndoKeeps(hand: Occupancy, w: World, u: User)
    requires Inv(hand, w)
    ensures Inv(hand, Undo(w, u).0)
  {
    var status := RowOf(w.rows, u).status;
    if status == Queued {
      BackToPendingKeeps(hand, w, u, Back(Queued));
    } else if status != Pending {
      PutKeeps(hand, w, u, Back(status));
    }
  }

  lemma {:induction false} RunKeeps(e: Event, hand: Occupancy, w: World, ops: seq<Op>)
    requires Inv(hand, w)
    ensures Inv(hand, Run(e, w, ops))
  {
    if ops == [] {
    } else {
      RunKeeps(e, hand, w, ops[..|ops| - 1]);
      StepKeeps(e, hand, Run(e, w, ops[..|ops| - 1]), ops[|ops| - 1]);
    }
  }

  /** Before the first operation: some rooms set by hand, nobody at the desk yet. */
  lemma AtFirst(hand: Occupancy)
    ensures Inv(hand, World(map[], hand))
  {
    forall u: User
      ensures Tidy(hand, RowOf(map[], u), u)
    {
    }
    forall p: (User, Room)
      ensures Explained(hand, World(map[], hand), p)
    {
    }
  }

  function RoomsOf(occ: Occupancy, u: User): Occupancy {
    set p | p in occ && p.0 == u
  }

  /** Whatever happened at both desks, whoever is pending again has exactly the rooms from
      before the delivery, namely those set by hand, and no room set by hand was touched. */
  lemma GivesBack(e: Event, hand: Occupancy, ops: seq<Op>, more: seq<Op>, u: User)
    requires RowOf(Run(e, World(map[], hand), ops).rows, u).status == Pending
    requires RowOf(Run(e, Run(e, World(map[], hand), ops), more).rows, u).status == Pending
    ensures var first := Run(e, World(map[], hand), ops);
            RoomsOf(Run(e, first, more).occ, u) == RoomsOf(first.occ, u)
    ensures RoomsOf(Run(e, World(map[], hand), ops).occ, u) == RoomsOf(hand, u)
    ensures hand <= Run(e, World(map[], hand), ops).occ
  {
    AtFirst(hand);
    RunKeeps(e, hand, World(map[], hand), ops);
    var first := Run(e, World(map[], hand), ops);
    RunKeeps(e, hand, first, more);
    PendingHasByHand(hand, first, u);
    PendingHasByHand(hand, Run(e, first, more), u);
    forall p | p in hand
      ensures p in first.occ
    {
      assert Explained(hand, first, p);
    }
  }

  lemma PendingHasByHand(hand: Occupancy, w: World, u: User)
    requires Inv(hand, w) && RowOf(w.rows, u).status == Pending
    ensures RoomsOf(w.occ, u) == RoomsOf(hand, u)
  {
    assert Tidy(hand, RowOf(w.rows, u), u);
    forall p: (User, Room)
      ensures p in RoomsOf(w.occ, u) <==> p in RoomsOf(hand, u)
    {
      assert Explained(hand, w, p);
    }
  }

  // ---- the queue -----------------------------------------------------------

  lemma {:induction false} InQueueAre(rows: map<User, Row>, listing: seq<User>, u: User)
    ensures u in InQueue(rows, listing) <==> u in listing && RowOf(rows, u).status == Queued
  {
    if listing == [] {
    } else {
      var n := |listing| - 1;
      InQueueAre(rows, listing[..n], u);
      assert listing == listing[..n] + [listing[n]];
    }
  }

  lemma WaitingAre(rows: map<User, Row>, listing: seq<User>, u: User)
    ensures u in Waiting(rows, listing) <==> u in listing && RowOf(rows, u).status == Queued
  {
    InQueueAre(rows, listing, u);
    Sorting.SortMembers(InQueue(rows, listing), BadgeAt(rows));
  }

  predicate Lists(listing: seq<User>, rows: map<User, Row>) {
    forall u :: u in rows ==> u in listing
  }

  /** Calling the next one finds nobody exactly when nobody is queued, and otherwise calls
      somebody queued whose badge was delivered no later than anybody else's there. */
  lemma NextIsFirst(hand: Occupancy, w: World, listing: seq<User>, st: Stamp)
    requires Inv(hand, w) && Lists(listing, w.rows)
    ensures CallNext(w, listing, st).1.NotFound? <==> forall u: User :: RowOf(w.rows, u).status != Queued
    ensures !CallNext(w, listing, st).1.NotFound? ==> CallNext(w, listing, st).1.Called?
    ensures CallNext(w, listing, st).1.Called? ==> Earliest(w.rows, CallNext(w, listing, st).1.user)
    ensures CallNext(w, listing, st).1.Called? ==>
              CallNext(w, listing, st).0 == Call(w, CallNext(w, listing, st).1.user, st).0
  {
    var queue := Waiting(w.rows, listing);
    forall u: User
      ensures RowOf(w.rows, u).status == Queued <==> u in queue
    {
      WaitingAre(w.rows, listing, u);
    }
    if queue != [] {
      assert queue[0] in queue;
      FirstIsEarliest(hand, w, listing);
    }
  }

  ghost predicate Earliest(rows: map<User, Row>, first: User) {
    && RowOf(rows, first).status == Queued
    && (forall u: User :: RowOf(rows, u).status == Queued ==> NoLater(RowOf(rows, first), RowOf(rows, u)))
  }

  predicate NoLater(one: Row, other: Row) {
    one.badge.Some? && other.badge.Some? && one.badge.value.at <= other.badge.value.at
  }

  lemma FirstIsEarliest(hand: Occupancy, w: World, listing: seq<User>)
    requires Inv(hand, w) && Lists(listing, w.rows) && Waiting(w.rows, listing) != []
    ensures Earliest(w.rows, Waiting(w.rows, listing)[0])
  {
    var queue := Waiting(w.rows, listing);
    Sorting.SortKeeps(InQueue(w.rows, listing), BadgeAt(w.rows));
    WaitingAre(w.rows, listing, queue[0]);
    assert Tidy(hand, RowOf(w.rows, queue[0]), queue[0]);
    forall u: User | RowOf(w.rows, u).status == Queued
      ensures NoLater(RowOf(w.rows, queue[0]), RowOf(w.rows, u))
    {
      WaitingAre(w.rows, listing, u);
      assert Tidy(hand, RowOf(w.rows, u), u);
      var k :| 0 <= k < |queue| && queue[k] == u;
      assert BadgeAt(w.rows)(queue[0]) <= BadgeAt(w.rows)(queue[k]);
    }
  }

  // ---- taking back ---------------------------------------------------------

  /** Taking back a call or a delivery restores what was before it, rooms included. */
  lemma UndoRestores(e: Event, hand: Occupancy, w: World, u: User, st: Stamp)
    requires Inv(hand, w)
    ensures Call(w, u, st).1.Accepted? ==> Undo(Call(w, u, st).0, u).0 == w
    ensures Deliver(e, w, u, st).1.Accepted? ==>
              Undo(Deliver(e, w, u, st).0, u).0 == World(w.rows[u := NEW_ROW], w.occ)
    ensures Deliver(e, w, u, st).1.Accepted? ==>
              UndoDelivery(e, Deliver(e, w, u, st).0, u).0 == World(w.rows[u := NEW_ROW], w.occ)
  {
    assert Tidy(hand, RowOf(w.rows, u), u);
    if Call(w, u, st).1.Accepted? {
      assert w.rows[u := w.rows[u]] == w.rows;
      assert Undo(Call(w, u, st).0, u).0.rows == w.rows;
    }
    if Deliver(e, w, u, st).1.Accepted? {
      DeliveryUndone(e, hand, w, u, st);
    }
  }

  lemma DeliveryUndone(e: Event, hand: Occupancy, w: World, u: User, st: Stamp)
    requires Inv(hand, w) && Deliver(e, w, u, st).1.Accepted?
    ensures Undo(Deliver(e, w, u, st).0, u).0 == World(w.rows[u := NEW_ROW], w.occ)
    ensures UndoDelivery(e, Deliver(e, w, u, st).0, u).0 == World(w.rows[u := NEW_ROW], w.occ)
  {
    assert Tidy(hand, RowOf(w.rows, u), u);
    var got := Allocated(e, w.occ, u);
    if got.Some? {
      var b := ChoiceMeaning(e.rooms, w.occ, e.groups[u], u);
      assert (u, got.value) !in w.occ;
      assert w.occ + {(u, got.value)} - {(u, got.value)} == w.occ;
    }
  }

  /** Taking back a completion restores the row exactly when the person was in progress:
      from the queue it does not lead back to the queue. */
  lemma UndoOfComplete(hand: Occupancy, w: World, u: User, st: Stamp)
    requires Inv(hand, w) && Complete(w, u, st).1.Accepted?
    ensures Undo(Complete(w, u, st).0, u).0 == w <==> RowOf(w.rows, u).status == InProgress
  {
    assert Tidy(hand, RowOf(w.rows, u), u);
    var back := Undo(Complete(w, u, st).0, u).0;
    assert RowOf(back.rows, u).status == InProgress;
    if RowOf(w.rows, u).status == InProgress {
      assert back.rows[u] == w.rows[u];
      assert back.rows == w.rows;
    }
  }

  // ---- the service ---------------------------------------------------------

  class CheckinService {
    var rows: map<User, Row>
    var occ: Occupancy

    constructor (hand: Occupancy)
      ensures State() == World(map[], hand)
    {
      rows, occ := map[], hand;
    }

    function State(): World
      reads this
    {
      World(rows, occ)
    }

    /** `allocateBedroom` */
    method AllocateBedroom(e: Event, u: User) returns (got: Option<Room>)
      requires u in e.groups
      modifies this`occ
      ensures got == Allocated(e, old(occ), u)
      ensures occ == if got.Some? then old(occ) + {(u, got.value)} else old(occ)
    {
      if !e.bedroomsOn || HasRoom(occ, u) {
        return None;
      }
      var candidates := Candidates(e.rooms, occ, e.groups[u]);
      var i := 0;
      while i < |candidates|
        invariant 0 <= i <= |candidates| && occ == old(occ)
        invariant FirstFit(candidates, occ) == FirstFit(candidates[i..], occ)
      {
        var b := candidates[i];
        if CanTake(occ, b) {
          occ := occ + {(u, b.id)};
          return Some(b.id);
        }
        assert candidates[i..][1..] == candidates[i + 1..];
        i := i + 1;
      }
      return None;
    }

    method ReleaseAutoBedroom(u: User, room: Option<Room>)
      modifies this
      ensures State() == Release(old(State()), u, room)
    {
      if room.Some? {
        occ := occ - {(u, room.value)};
        rows := rows[u := Written(RowOf(rows, u), ClearRoom)];
      }
    }

    method DeliverBadge(e: Event, u: User, st: Stamp) returns (outcome: Outcome)
      modifies this
      ensures (State(), outcome) == Deliver(e, old(State()), u, st)
    {
      if u !in e.groups {
        return NotFound;
      }
      if u !in rows {
        rows := rows[u := Row(Queued, Some(st), None, None, None)];
      } else if rows[u].status == Pending {
        rows := rows[u := rows[u].(status := Queued, badge := Some(st), called := None, done := None)];
      } else {
        return Conflict;
      }
      var got := AllocateBedroom(e, u);
      if got.Some? {
        rows := rows[u := rows[u].(autoRoom := got)];
      }
      assert rows == Deliver(e, old(State()), u, st).0.rows;
      return Accepted;
    }

    method CallOne(u: User, st: Stamp) returns (outcome: Outcome)
      modifies this
      ensures (State(), outcome) == Call(old(State()), u, st)
    {
      if u !in rows || rows[u].status != Queued {
        return Conflict;
      }
      rows := rows[u := rows[u].(status := InProgress, called := Some(st))];
      return Accepted;
    }

    /** The first of the five longest waiting that is still queued. */
    method CallTheNext(listing: seq<User>, st: Stamp) returns (outcome: Outcome)
      modifies this
      ensures (State(), outcome) == CallNext(old(State()), listing, st)
    {
      var queue := Waiting(rows, listing);
      var candidates := if |queue| > 5 then queue[..5] else queue;
      var i := 0;
      while i < |candidates|
        invariant 0 <= i <= |candidates| && State() == old(State())
        invariant i > 0 ==> RowOf(rows, queue[0]).status != Queued
      {
        var u := candidates[i];
        if u in rows && rows[u].status == Queued {
          assert i == 0 by {
            WaitingAre(rows, listing, queue[0]);
          }
          rows := rows[u := rows[u].(status := InProgress, called := Some(st))];
          return Called(u);
        }
        i := i + 1;
      }
      assert queue == [] by {
        if queue != [] {
          WaitingAre(rows, listing, queue[0]);
        }
      }
      return NotFound;
    }

    method CompleteOne(u: User, st: Stamp) returns (outcome: Outcome)
      modifies this
      ensures (State(), outcome) == Complete(old(State()), u, st)
    {
      if u !in rows || rows[u].status !in {Queued, InProgress} {
        return Conflict;
      }
      rows := rows[u := rows[u].(status := Done, done := Some(st))];
      return Accepted;
    }

    method UndoOne(u: User) returns (outcome: Outcome)
      modifies this
      ensures (State(), outcome) == Undo(old(State()), u)
    {
      if u !in rows || rows[u].status == Pending {
        return Conflict;
      }
      var current := rows[u];
      if current.status == Done {
        rows := rows[u := current.(status := InProgress, done := None)];
      } else if current.status == InProgress {
        rows := rows[u := current.(status := Queued, called := None)];
      } else {
        rows := rows[u := current.(status := Pending, badge := None)];
      }
      if current.status == Queued {
        ReleaseAutoBedroom(u, current.autoRoom);
      }
      return Accepted;
    }

    method UndoBadgeDelivery(e: Event, u: User) returns (outcome: Outcome)
      modifies this
      ensures (State(), outcome) == UndoDelivery(e, old(State()), u)
    {
      if u !in e.groups {
        return NotFound;
      }
      if u !in rows || rows[u].status == Pending {
        return Conflict;
      }
      var before := rows[u];
      rows := rows[u := NEW_ROW];
      ReleaseAutoBedroom(u, before.autoRoom);
      return Accepted;
    }
  }
}
