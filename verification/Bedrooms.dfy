/** Choosing a bedroom for somebody who just got the badge: the rooms of the person's
    groups first, then the open ones, each list in the order of the names, every room up
    to its capacity. */
module Bedrooms {
  import opened Wrappers
  import Sorting

  type User = nat
  type Room = nat
  type Group = nat

  /** `rank` is the place of the name in the order people read room names in. */
  datatype Bedroom = Bedroom(id: Room, rank: int, capacity: Option<int>, groups: set<Group>)

  /** Who sleeps where. */
  type Occupancy = set<(User, Room)>

  function Occupants(occ: Occupancy, r: Room): Occupancy {
    set p | p in occ && p.1 == r
  }

  predicate HasRoom(occ: Occupancy, u: User) {
    exists p :: p in occ && p.0 == u
  }

  /** `comVaga`: a room without a capacity takes nobody. */
  predicate Vacant(occ: Occupancy, b: Bedroom) {
    b.capacity.Some? && b.capacity.value != 0 && |Occupants(occ, b.id)| < b.capacity.value
  }

  predicate OfGroup(b: Bedroom, groups: set<Group>) {
    b.groups * groups != {}
  }

  predicate Open(b: Bedroom) {
    b.groups == {}
  }

  function VacantOfGroup(rooms: seq<Bedroom>, occ: Occupancy, groups: set<Group>): seq<Bedroom> {
    if rooms == [] then []
    else
      var b := rooms[|rooms| - 1];
      var before := VacantOfGroup(rooms[..|rooms| - 1], occ, groups);
      if Vacant(occ, b) && OfGroup(b, groups) then before + [b] else before
  }

  function VacantOpen(rooms: seq<Bedroom>, occ: Occupancy): seq<Bedroom> {
    if rooms == [] then []
    else
      var b := rooms[|rooms| - 1];
      var before := VacantOpen(rooms[..|rooms| - 1], occ);
      if Vacant(occ, b) && Open(b) then before + [b] else before
  }

  function Rank(b: Bedroom): int {
    b.rank
  }

  /** `candidateBedrooms` */
  function Candidates(rooms: seq<Bedroom>, occ: Occupancy, groups: set<Group>): seq<Bedroom> {
    Sorting.SortBy(VacantOfGroup(rooms, occ, groups), Rank) + Sorting.SortBy(VacantOpen(rooms, occ), Rank)
  }

  /** One locked transaction: count again, and move in if there is still room. */
  predicate CanTake(occ: Occupancy, b: Bedroom) {
    b.capacity.Some? && |Occupants(occ, b.id)| < b.capacity.value
  }

  /** The loop of `allocateBedroom` over the candidates. */
  function FirstFit(candidates: seq<Bedroom>, occ: Occupancy): Option<Room> {
    if candidates == [] then None
    else if CanTake(occ, candidates[0]) then Some(candidates[0].id)
    else FirstFit(candidates[1..], occ)
  }

  /** `allocateBedroom`, with nobody else allocating meanwhile. */
  function Choice(rooms: seq<Bedroom>, occ: Occupancy, groups: set<Group>, u: User): Option<Room> {
    if HasRoom(occ, u) then None else FirstFit(Candidates(rooms, occ, groups), occ)
  }

  // ---- which room ----------------------------------------------------------

  /** The room may receive somebody of these groups. */
  predicate Fits(b: Bedroom, groups: set<Group>) {
    OfGroup(b, groups) || Open(b)
  }

  /** `b` is tried before `other`. */
  predicate Before(b: Bedroom, other: Bedroom, groups: set<Group>) {
    if OfGroup(b, groups) != OfGroup(other, groups) then OfGroup(b, groups) else b.rank <= other.rank
  }

  lemma {:induction false} VacantOfGroupAre(rooms: seq<Bedroom>, occ: Occupancy, groups: set<Group>, b: Bedroom)
    ensures b in VacantOfGroup(rooms, occ, groups) <==> b in rooms && Vacant(occ, b) && OfGroup(b, groups)
  {
    if rooms == [] {
    } else {
      var last := |rooms| - 1;
      VacantOfGroupAre(rooms[..last], occ, groups, b);
      assert rooms == rooms[..last] + [rooms[last]];
    }
  }

  lemma {:induction false} VacantOpenAre(rooms: seq<Bedroom>, occ: Occupancy, b: Bedroom)
    ensures b in VacantOpen(rooms, occ) <==> b in rooms && Vacant(occ, b) && Open(b)
  {
    if rooms == [] {
    } else {
      var last := |rooms| - 1;
      VacantOpenAre(rooms[..last], occ, b);
      assert rooms == rooms[..last] + [rooms[last]];
    }
  }

  /** The candidates are exactly the rooms with a vacancy that may receive the person. */
  lemma CandidatesAre(rooms: seq<Bedroom>, occ: Occupancy, groups: set<Group>, b: Bedroom)
    ensures b in Candidates(rooms, occ, groups) <==> b in rooms && Vacant(occ, b) && Fits(b, groups)
  {
    VacantOfGroupAre(rooms, occ, groups, b);
    VacantOpenAre(rooms, occ, b);
    Sorting.SortMembers(VacantOfGroup(rooms, occ, groups), Rank);
    Sorting.SortMembers(VacantOpen(rooms, occ), Rank);
  }

  /** The first candidate is the one to be tried before all others. */
  lemma FirstIsBefore(rooms: seq<Bedroom>, occ: Occupancy, groups: set<Group>, other: Bedroom)
    requires other in Candidates(rooms, occ, groups)
    ensures Before(Candidates(rooms, occ, groups)[0], other, groups)
  {
    var own := Sorting.SortBy(VacantOfGroup(rooms, occ, groups), Rank);
    var open := Sorting.SortBy(VacantOpen(rooms, occ), Rank);
    Sorting.SortKeeps(VacantOfGroup(rooms, occ, groups), Rank);
    Sorting.SortKeeps(VacantOpen(rooms, occ), Rank);
    Sorting.SortMembers(VacantOfGroup(rooms, occ, groups), Rank);
    Sorting.SortMembers(VacantOpen(rooms, occ), Rank);
    var first := (own + open)[0];
    VacantOfGroupAre(rooms, occ, groups, first);
    VacantOpenAre(rooms, occ, first);
    VacantOfGroupAre(rooms, occ, groups, other);
    VacantOpenAre(rooms, occ, other);
    if own != [] {
      assert first == own[0] && first in own;
    } else {
      assert own + open == open;
      assert first == open[0] && first in open;
    }
  }

  /** With nobody else allocating, the second count finds what the first one found, so
      the first candidate is taken. */
  lemma ChoiceIsFirst(rooms: seq<Bedroom>, occ: Occupancy, groups: set<Group>, u: User)
    requires !HasRoom(occ, u)
    ensures var c := Candidates(rooms, occ, groups);
            Choice(rooms, occ, groups, u) == if c == [] then None else Some(c[0].id)
  {
    var c := Candidates(rooms, occ, groups);
    if c != [] {
      CandidatesAre(rooms, occ, groups, c[0]);
    }
  }

  /** Somebody without a room stays without one exactly when every room that may receive
      the person is full or has no capacity. */
  lemma NoRoomMeaning(rooms: seq<Bedroom>, occ: Occupancy, groups: set<Group>, u: User)
    requires !HasRoom(occ, u)
    ensures Choice(rooms, occ, groups, u).None? <==> forall b :: b in rooms && Fits(b, groups) ==> !Vacant(occ, b)
  {
    ChoiceIsFirst(rooms, occ, groups, u);
    var c := Candidates(rooms, occ, groups);
    if c != [] {
      CandidatesAre(rooms, occ, groups, c[0]);
      assert c[0] in rooms && Fits(c[0], groups);
    }
    forall b | b in rooms && Fits(b, groups)
      ensures c == [] ==> !Vacant(occ, b)
    {
      CandidatesAre(rooms, occ, groups, b);
    }
  }

  /** The room given has a vacancy and may receive the person; every room that would have
      been tried before it is full, and the person had no room. */
  lemma ChoiceMeaning(rooms: seq<Bedroom>, occ: Occupancy, groups: set<Group>, u: User) returns (b: Bedroom)
    requires Choice(rooms, occ, groups, u).Some?
    ensures !HasRoom(occ, u)
    ensures b in rooms && Choice(rooms, occ, groups, u) == Some(b.id) && Vacant(occ, b) && Fits(b, groups)
    ensures forall other :: other in rooms && Fits(other, groups) && Vacant(occ, other) ==> Before(b, other, groups)
  {
    ChoiceIsFirst(rooms, occ, groups, u);
    b := Candidates(rooms, occ, groups)[0];
    CandidatesAre(rooms, occ, groups, b);
    forall other | other in rooms && Fits(other, groups) && Vacant(occ, other)
      ensures Before(b, other, groups)
    {
      CandidatesAre(rooms, occ, groups, other);
      FirstIsBefore(rooms, occ, groups, other);
    }
  }

  // ---- how full ------------------------------------------------------------

  predicate DistinctRooms(rooms: seq<Bedroom>) {
    forall i, j :: 0 <= i < j < |rooms| ==> rooms[i].id != rooms[j].id
  }

  /** The capacity of a room; 0 when the room is unknown or has none. */
  function CapacityOf(rooms: seq<Bedroom>, r: Room): int {
    if rooms == [] then 0
    else if rooms[|rooms| - 1].id == r then
      var c := rooms[|rooms| - 1].capacity;
      if c.Some? then c.value else 0
    else CapacityOf(rooms[..|rooms| - 1], r)
  }

  lemma {:induction false} CapacityIs(rooms: seq<Bedroom>, b: Bedroom)
    requires DistinctRooms(rooms) && b in rooms && b.capacity.Some?
    ensures CapacityOf(rooms, b.id) == b.capacity.value
  {
    if rooms[|rooms| - 1].id == b.id {
      var k :| 0 <= k < |rooms| && rooms[k] == b;
      assert k == |rooms| - 1;
    } else {
      CapacityIs(rooms[..|rooms| - 1], b);
    }
  }

  /** The most people a room may hold, given how many it held at the start. */
  function Ceiling(rooms: seq<Bedroom>, start: Occupancy, r: Room): int {
    if CapacityOf(rooms, r) > |Occupants(start, r)| then CapacityOf(rooms, r) else |Occupants(start, r)|
  }

  predicate Within(rooms: seq<Bedroom>, start: Occupancy, occ: Occupancy, r: Room) {
    |Occupants(occ, r)| <= Ceiling(rooms, start, r)
  }

  /** Moving in under the lock never passes the ceiling, whatever was read before it. */
  lemma TakeWithin(rooms: seq<Bedroom>, start: Occupancy, occ: Occupancy, b: Bedroom, u: User, r: Room)
    requires DistinctRooms(rooms) && b in rooms && CanTake(occ, b)
    requires Within(rooms, start, occ, r)
    ensures Within(rooms, start, occ + {(u, b.id)}, r)
  {
    var after := occ + {(u, b.id)};
    if r == b.id {
      CapacityIs(rooms, b);
      assert Occupants(after, r) == Occupants(occ, r) + {(u, r)};
    } else {
      assert Occupants(after, r) == Occupants(occ, r);
    }
  }

  lemma LeaveWithin(rooms: seq<Bedroom>, start: Occupancy, occ: Occupancy, gone: (User, Room), r: Room)
    requires Within(rooms, start, occ, r)
    ensures Within(rooms, start, occ - {gone}, r)
  {
    Fewer(Occupants(occ - {gone}, r), Occupants(occ, r));
  }

  lemma Fewer(a: Occupancy, b: Occupancy)
    requires a <= b
    ensures |a| <= |b|
  {
    assert |b| == |a| + |b - a| by {
      assert b == a + (b - a);
    }
  }

  // ---- operators at the same time ------------------------------------------

  type Operator = nat

  /** An allocation on its way: it looked for a room of the person, read the candidates,
      and tries them one locked transaction at a time. */
  datatype Job =
    | Checked(user: User, groups: set<Group>)
    | Trying(user: User, left: seq<Bedroom>)
    | Ended(user: User, got: Option<Room>)

  datatype Floor = Floor(occ: Occupancy, jobs: map<Operator, Job>)

  datatype Move =
    | Begin(op: Operator, user: User, groups: set<Group>)
    | Read(op: Operator)
    | TryNext(op: Operator)
    | Leave(user: User, room: Room)

  /** What one operator's next transaction does; the moves of all of them interleave. */
  function Moved(rooms: seq<Bedroom>, f: Floor, m: Move): Floor {
    match m
    case Begin(op, u, groups) =>
      f.(jobs := f.jobs[op := if HasRoom(f.occ, u) then Ended(u, None) else Checked(u, groups)])
    case Read(op) =>
      if op in f.jobs && f.jobs[op].Checked? then
        f.(jobs := f.jobs[op := Trying(f.jobs[op].user, Candidates(rooms, f.occ, f.jobs[op].groups))])
      else f
    case TryNext(op) =>
      if op in f.jobs && f.jobs[op].Trying? then Tried(f, op, f.jobs[op]) else f
    case Leave(u, r) => f.(occ := f.occ - {(u, r)})
  }

  /** A person already in that room makes the insertion fail, which ends the allocation. */
  function Tried(f: Floor, op: Operator, job: Job): Floor
    requires job.Trying?
  {
    if job.left == [] then f.(jobs := f.jobs[op := Ended(job.user, None)])
    else
      var b := job.left[0];
      if !CanTake(f.occ, b) then f.(jobs := f.jobs[op := Trying(job.user, job.left[1..])])
      else if (job.user, b.id) in f.occ then f.(jobs := f.jobs[op := Ended(job.user, None)])
      else Floor(f.occ + {(job.user, b.id)}, f.jobs[op := Ended(job.user, Some(b.id))])
  }

  function RunMoves(rooms: seq<Bedroom>, f: Floor, moves: seq<Move>): Floor {
    if moves == [] then f else Moved(rooms, RunMoves(rooms, f, moves[..|moves| - 1]), moves[|moves| - 1])
  }

  predicate Listed(rooms: seq<Bedroom>, job: Job) {
    job.Trying? ==> forall b :: b in job.left ==> b in rooms
  }

  ghost predicate FloorInv(rooms: seq<Bedroom>, start: Occupancy, f: Floor) {
    && (forall op :: op in f.jobs ==> Listed(rooms, f.jobs[op]))
    && (forall r: Room :: Within(rooms, start, f.occ, r))
  }

  lemma ReadLists(rooms: seq<Bedroom>, occ: Occupancy, groups: set<Group>, u: User)
    ensures Listed(rooms, Trying(u, Candidates(rooms, occ, groups)))
  {
    forall b | b in Candidates(rooms, occ, groups)
      ensures b in rooms
    {
      CandidatesAre(rooms, occ, groups, b);
    }
  }

  lemma TriedKeeps(rooms: seq<Bedroom>, start: Occupancy, f: Floor, op: Operator)
    requires DistinctRooms(rooms) && FloorInv(rooms, start, f)
    requires op in f.jobs && f.jobs[op].Trying?
    ensures FloorInv(rooms, start, Tried(f, op, f.jobs[op]))
  {
    var job := f.jobs[op];
    assert Listed(rooms, job);
    if job.left != [] {
      var b := job.left[0];
      assert Listed(rooms, Trying(job.user, job.left[1..]));
      if CanTake(f.occ, b) {
        forall r: Room
          ensures Within(rooms, start, f.occ + {(job.user, b.id)}, r)
        {
          TakeWithin(rooms, start, f.occ, b, job.user, r);
        }
      }
    }
  }

  lemma MoveKeeps(rooms: seq<Bedroom>, start: Occupancy, f: Floor, m: Move)
    requires DistinctRooms(rooms) && FloorInv(rooms, start, f)
    ensures FloorInv(rooms, start, Moved(rooms, f, m))
  {
    match m {
      case Begin(op, u, groups) =>
      case Read(op) =>
        if op in f.jobs && f.jobs[op].Checked? {
          ReadLists(rooms, f.occ, f.jobs[op].groups, f.jobs[op].user);
        }
      case TryNext(op) =>
        if op in f.jobs && f.jobs[op].Trying? {
          TriedKeeps(rooms, start, f, op);
        }
      case Leave(u, r) =>
        forall x: Room
          ensures Within(rooms, start, f.occ - {(u, r)}, x)
        {
          LeaveWithin(rooms, start, f.occ, (u, r), x);
        }
    }
  }

  /** However the operators' transactions interleave, no room ends up with more people
      than its capacity, or than it had at the start when that was already more. */
  lemma {:induction false} NeverOverfilled(rooms: seq<Bedroom>, start: Occupancy, moves: seq<Move>)
    requires DistinctRooms(rooms)
    ensures FloorInv(rooms, start, RunMoves(rooms, Floor(start, map[]), moves))
  {
    if moves == [] {
      assert forall r: Room :: Within(rooms, start, start, r);
    } else {
      NeverOverfilled(rooms, start, moves[..|moves| - 1]);
      MoveKeeps(rooms, start, RunMoves(rooms, Floor(start, map[]), moves[..|moves| - 1]), moves[|moves| - 1]);
    }
  }

  /** Two operators after the last vacancy of a room: the first to lock it gets it, and the
      second, who read the same vacancy, goes on to the next candidate. */
  lemma LastVacancy(rooms: seq<Bedroom>, f: Floor, one: Operator, two: Operator, b: Bedroom)
    requires one != two && one in f.jobs && two in f.jobs
    requires f.jobs[one].Trying? && f.jobs[one].left != [] && f.jobs[one].left[0] == b
    requires f.jobs[two].Trying? && f.jobs[two].left != [] && f.jobs[two].left[0] == b
    requires b.capacity.Some? && |Occupants(f.occ, b.id)| == b.capacity.value - 1
    requires (f.jobs[one].user, b.id) !in f.occ
    ensures var g := Moved(rooms, Moved(rooms, f, TryNext(one)), TryNext(two));
            && g.jobs[one] == Ended(f.jobs[one].user, Some(b.id))
            && g.jobs[two] == Trying(f.jobs[two].user, f.jobs[two].left[1..])
  {
    var after := f.occ + {(f.jobs[one].user, b.id)};
    assert Occupants(after, b.id) == Occupants(f.occ, b.id) + {(f.jobs[one].user, b.id)};
  }
}
