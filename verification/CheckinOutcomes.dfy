/** What each operation at the reception and the photo desk answers and writes, field by field.
    Somebody without a row is as somebody pending. */
module CheckinOutcomes {
  import opened Wrappers
  import opened Bedrooms
  import opened Checkin

  function StatusOf(w: World, u: User): Status {
    if u in w.rows then w.rows[u].status else Pending
  }

  /** Everybody else's row is as it was. */
  predicate OnlyRow(w: World, w': World, u: User) {
    && w'.rows.Keys == w.rows.Keys + {u}
    && forall v :: v in w.rows && v != u ==> w'.rows[v] == w.rows[v]
  }

  // ---- the room ------------------------------------------------------------

  /** Fewer people than its capacity sleep there; a room without one takes nobody. */
  predicate HasSpace(occ: Occupancy, b: Bedroom) {
    b.capacity.Some? && |set p | p in occ && p.1 == b.id| < b.capacity.value
  }

  /** It is of no group, or of one of the person's. */
  predicate MayReceive(b: Bedroom, groups: set<Group>) {
    b.groups == {} || exists g :: g in b.groups && g in groups
  }

  /** A room of the person's groups comes before one of no group; among its kind the one with the
      first name. */
  predicate NoLaterThan(b: Bedroom, other: Bedroom) {
    (b.groups != {} && other.groups == {}) || ((b.groups == {}) == (other.groups == {}) && b.rank <= other.rank)
  }

  predicate NoneFor(e: Event, w: World, u: User)
    requires u in e.groups
  {
    || !e.bedroomsOn
    || (exists p :: p in w.occ && p.0 == u)
    || forall b :: b in e.rooms && MayReceive(b, e.groups[u]) ==> !HasSpace(w.occ, b)
  }

  lemma RoomIs(occ: Occupancy, b: Bedroom, groups: set<Group>)
    ensures HasSpace(occ, b) <==> Vacant(occ, b)
    ensures MayReceive(b, groups) <==> Fits(b, groups)
    ensures MayReceive(b, groups) ==> (OfGroup(b, groups) <==> b.groups != {})
  {
    assert Occupants(occ, b.id) == set p | p in occ && p.1 == b.id;
    if g :| g in b.groups && g in groups {
      assert g in b.groups * groups;
    }
    if b.groups * groups != {} {
      var g :| g in b.groups * groups;
      assert g in b.groups && g in groups;
    }
  }

  /** A room is given when the event uses rooms, the person has none, and some room that may receive
      the person has space: the first of those. */
  lemma RoomGiven(e: Event, w: World, u: User) returns (b: Option<Bedroom>)
    requires u in e.groups
    ensures b.None? <==> NoneFor(e, w, u)
    ensures Allocated(e, w.occ, u) == if b.None? then None else Some(b.value.id)
    ensures b.Some? ==>
      && b.value in e.rooms && MayReceive(b.value, e.groups[u]) && HasSpace(w.occ, b.value)
      && forall other :: other in e.rooms && MayReceive(other, e.groups[u]) && HasSpace(w.occ, other) ==>
           NoLaterThan(b.value, other)
  {
    var groups := e.groups[u];
    forall other: Bedroom
      ensures HasSpace(w.occ, other) <==> Vacant(w.occ, other)
      ensures MayReceive(other, groups) <==> Fits(other, groups)
      ensures MayReceive(other, groups) ==> (OfGroup(other, groups) <==> other.groups != {})
    {
      RoomIs(w.occ, other, groups);
    }
    if e.bedroomsOn && !HasRoom(w.occ, u) {
      NoRoomMeaning(e.rooms, w.occ, groups, u);
    }
    if Allocated(e, w.occ, u).Some? {
      var given := ChoiceMeaning(e.rooms, w.occ, groups, u);
      b := Some(given);
    } else {
      b := None;
    }
  }

  // ---- delivering ----------------------------------------------------------

  /** A badge is handed out to whoever is registered and pending, which puts them in the queue with
      the stamp of now and no other, and gives them a room if there is one for them. */
  lemma DeliverWrites(e: Event, w: World, u: User, st: Stamp) returns (b: Option<Bedroom>)
    ensures var (w', outcome) := Deliver(e, w, u, st);
      && (outcome == NotFound <==> u !in e.groups)
      && (outcome == Conflict <==> u in e.groups && StatusOf(w, u) != Pending)
      && (outcome == Accepted <==> u in e.groups && StatusOf(w, u) == Pending)
      && (outcome != Accepted ==> w' == w)
      && (outcome == Accepted ==>
        && OnlyRow(w, w', u)
        && (b.None? <==> NoneFor(e, w, u))
        && (b.Some? ==> b.value in e.rooms && MayReceive(b.value, e.groups[u]) && HasSpace(w.occ, b.value))
        && w'.occ == w.occ + (if b.Some? then {(u, b.value.id)} else {})
        && w'.rows[u] == Row(Queued, Some(st), None, None,
             if b.Some? then Some(b.value.id) else if u in w.rows then w.rows[u].autoRoom else None))
  {
    b := None;
    if u in e.groups {
      b := RoomGiven(e, w, u);
    }
  }

  // ---- the photo desk ------------------------------------------------------

  /** Only somebody queued is called, and is in progress then, with the stamp of now. */
  lemma CallWrites(w: World, u: User, st: Stamp)
    ensures var (w', outcome) := Call(w, u, st);
      && (outcome == Accepted <==> StatusOf(w, u) == Queued) && (outcome == Conflict <==> StatusOf(w, u) != Queued)
      && (outcome == Conflict ==> w' == w)
      && (outcome == Accepted ==>
        && OnlyRow(w, w', u) && w'.occ == w.occ
        && w'.rows[u] == w.rows[u].(status := InProgress, called := Some(st)))
  {
  }

  /** Calling the next one calls somebody queued, whose badge nobody queued had before. */
  lemma CallNextWrites(w: World, listing: seq<User>, st: Stamp)
    requires forall u :: u in w.rows ==> u in listing
    ensures var (w', outcome) := CallNext(w, listing, st);
      && (outcome == NotFound <==> forall u :: u in w.rows ==> w.rows[u].status != Queued)
      && (outcome == NotFound ==> w' == w)
      && (outcome != NotFound ==>
        && outcome.Called? && outcome.user in w.rows && w.rows[outcome.user].status == Queued
        && OnlyRow(w, w', outcome.user) && w'.occ == w.occ
        && w'.rows[outcome.user] == w.rows[outcome.user].(status := InProgress, called := Some(st)))
  {
    var queue := Waiting(w.rows, listing);
    forall u: User
      ensures u in queue <==> u in listing && RowOf(w.rows, u).status == Queued
    {
      WaitingAre(w.rows, listing, u);
    }
    if queue != [] {
      assert queue[0] in queue;
    }
    forall u | u in w.rows && w.rows[u].status == Queued
      ensures queue != []
    {
      assert u in queue;
    }
  }

  /** Somebody queued or in progress is done, with the stamp of now. */
  lemma CompleteWrites(w: World, u: User, st: Stamp)
    ensures var (w', outcome) := Complete(w, u, st);
      && (outcome == Accepted <==> StatusOf(w, u) == Queued || StatusOf(w, u) == InProgress)
      && (outcome == Conflict <==> StatusOf(w, u) == Pending || StatusOf(w, u) == Done)
      && (outcome == Conflict ==> w' == w)
      && (outcome == Accepted ==>
        && OnlyRow(w, w', u) && w'.occ == w.occ
        && w'.rows[u] == w.rows[u].(status := Done, done := Some(st)))
  {
  }

  // ---- taking back ---------------------------------------------------------

  /** One stage is taken back, with its stamp; with the first one the automatic bed goes as well. */
  lemma UndoWrites(w: World, u: User)
    ensures var (w', outcome) := Undo(w, u);
      && (outcome == Conflict <==> StatusOf(w, u) == Pending) && (outcome == Accepted <==> StatusOf(w, u) != Pending)
      && (outcome == Conflict ==> w' == w)
      && (outcome == Accepted ==>
        var row := w.rows[u];
        && OnlyRow(w, w', u)
        && (row.status == Done ==> w'.rows[u] == row.(status := InProgress, done := None) && w'.occ == w.occ)
        && (row.status == InProgress ==> w'.rows[u] == row.(status := Queued, called := None) && w'.occ == w.occ)
        && (row.status == Queued ==>
          && w'.rows[u] == row.(status := Pending, badge := None, autoRoom := None)
          && w'.occ == w.occ - (if row.autoRoom.Some? then {(u, row.autoRoom.value)} else {})))
  {
  }

  /** All stages are taken back at once, with all stamps and the automatic bed. */
  lemma UndoDeliveryWrites(e: Event, w: World, u: User)
    ensures var (w', outcome) := UndoDelivery(e, w, u);
      && (outcome == NotFound <==> u !in e.groups)
      && (outcome == Conflict <==> u in e.groups && StatusOf(w, u) == Pending)
      && (outcome == Accepted <==> u in e.groups && StatusOf(w, u) != Pending)
      && (outcome != Accepted ==> w' == w)
      && (outcome == Accepted ==>
        && OnlyRow(w, w', u)
        && w'.rows[u] == Row(Pending, None, None, None, None)
        && w'.occ == w.occ - (if w.rows[u].autoRoom.Some? then {(u, w.rows[u].autoRoom.value)} else {}))
  {
  }
}
