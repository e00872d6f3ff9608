/** The queue of PDF generations: one at a time, first come first served.

    Between the moment a request is given the slot and the moment its continuation runs
    it is neither waiting nor generating; it is kept in `granted`. `arrivals`, `served`
    and `gone` are history: who was let into the queue, who was given the slot, in that
    order, and who gave up while waiting. */
module PdfQueue {
  import opened Wrappers

  type Id = nat
  type Code = nat

  /** `SIMULTANEAS` and `MAXIMO_NA_FILA` */
  const SLOTS: nat := 1
  const MAX_WAITING: nat := 20

  datatype Request = Request(id: Id, code: Code)

  datatype Queue = Queue(
    waiting: seq<Request>,
    generating: set<Code>,
    taken: nat,
    granted: seq<Request>,
    running: seq<Request>,
    arrivals: seq<Id>,
    served: seq<Id>,
    gone: set<Id>)

  const EMPTY: Queue := Queue([], {}, 0, [], [], [], [], {})

  datatype Event =
    | Arrive(r: Request)
    | Abort(id: Id)
    | Resume(id: Id)
    | Finish(id: Id)

  function IndexOf(rs: seq<Request>, id: Id): (k: Option<nat>)
    ensures k.Some? ==> k.value < |rs| && rs[k.value].id == id
    ensures k.None? ==> forall j :: 0 <= j < |rs| ==> rs[j].id != id
  {
    if rs == [] then None
    else if IndexOf(rs[..|rs| - 1], id).Some? then IndexOf(rs[..|rs| - 1], id)
    else if rs[|rs| - 1].id == id then Some(|rs| - 1)
    else None
  }

  function Without(rs: seq<Request>, k: nat): seq<Request>
    requires k < |rs|
  {
    rs[..k] + rs[k + 1..]
  }

  /** A request comes: it takes a free slot, or waits, or is told to try later. */
  function OnArrive(q: Queue, r: Request): Queue {
    if r.id in q.arrivals then q
    else if q.taken < SLOTS then
      q.(taken := q.taken + 1, generating := q.generating + {r.code}, running := q.running + [r],
         arrivals := q.arrivals + [r.id], served := q.served + [r.id])
    else if |q.waiting| >= MAX_WAITING then q
    else q.(waiting := q.waiting + [r], arrivals := q.arrivals + [r.id])
  }

  /** Whoever waits may leave; whoever had the slot given goes on. */
  function OnAbort(q: Queue, id: Id): Queue {
    var k := IndexOf(q.waiting, id);
    if k.None? then q else q.(waiting := Without(q.waiting, k.value), gone := q.gone + {id})
  }

  /** The continuation of a request that was given the slot runs. */
  function OnResume(q: Queue, id: Id): Queue {
    var k := IndexOf(q.granted, id);
    if k.None? then q
    else
      var r := q.granted[k.value];
      q.(granted := Without(q.granted, k.value), running := q.running + [r], generating := q.generating + {r.code})
  }

  /** The generation ends, well or not: the slot goes straight to the next in line. */
  function OnFinish(q: Queue, id: Id): Queue {
    var k := IndexOf(q.running, id);
    if k.None? then q
    else
      var left := q.(running := Without(q.running, k.value), generating := q.generating - {q.running[k.value].code});
      if q.waiting == [] then left.(taken := if q.taken > 0 then q.taken - 1 else 0)
      else
        left.(waiting := q.waiting[1..], granted := q.granted + [q.waiting[0]], served := q.served + [q.waiting[0].id])
  }

  function Apply(q: Queue, e: Event): Queue {
    match e
    case Arrive(r) => OnArrive(q, r)
    case Abort(id) => OnAbort(q, id)
    case Resume(id) => OnResume(q, id)
    case Finish(id) => OnFinish(q, id)
  }

  function Run(q: Queue, es: seq<Event>): Queue {
    if es == [] then q else Apply(Run(q, es[..|es| - 1]), es[|es| - 1])
  }

  // ---- what every run keeps ------------------------------------------------

  function Ids(rs: seq<Request>): (ids: seq<Id>)
    ensures |ids| == |rs| && forall k :: 0 <= k < |rs| ==> ids[k] == rs[k].id
  {
    seq(|rs|, k requires 0 <= k < |rs| => rs[k].id)
  }

  function Codes(rs: seq<Request>): set<Code> {
    set r | r in rs :: r.code
  }

  lemma CodesOf(r: Request)
    ensures Codes([r]) == {r.code} && Codes([]) == {}
  {
    assert r in [r];
  }

  /** Those of `ids` that stayed, in their order. */
  function Stayed(ids: seq<Id>, gone: set<Id>): seq<Id> {
    if ids == [] then []
    else Stayed(ids[..|ids| - 1], gone) + if ids[|ids| - 1] in gone then [] else [ids[|ids| - 1]]
  }

  predicate Distinct(ids: seq<Id>) {
    forall j, k :: 0 <= j < k < |ids| ==> ids[j] != ids[k]
  }

  ghost predicate Inv(q: Queue) {
    // one slot, held by exactly the request that was given it or is running
    && |q.granted| + |q.running| == q.taken <= SLOTS
    && q.generating == Codes(q.running)
    && (q.waiting != [] ==> q.taken == SLOTS)
    && |q.waiting| <= MAX_WAITING
    // first come, first served, among those who stayed
    && Distinct(q.arrivals)
    && Stayed(q.arrivals, q.gone) == q.served + Ids(q.waiting)
    && (forall id :: id in q.gone ==> id in q.arrivals)
    && (forall k :: 0 <= k < |q.granted| ==> q.granted[k].id in q.served)
    && (forall k :: 0 <= k < |q.running| ==> q.running[k].id in q.served)
  }

  lemma {:induction false} StayedMembers(ids: seq<Id>, gone: set<Id>, id: Id)
    ensures id in Stayed(ids, gone) <==> id in ids && id !in gone
  {
    if ids == [] {
    } else {
      var n := |ids| - 1;
      StayedMembers(ids[..n], gone, id);
      assert ids == ids[..n] + [ids[n]];
    }
  }

  lemma {:induction false} StayedDistinct(ids: seq<Id>, gone: set<Id>)
    requires Distinct(ids)
    ensures Distinct(Stayed(ids, gone))
  {
    if ids == [] {
    } else {
      var n := |ids| - 1;
      StayedDistinct(ids[..n], gone);
      var before := Stayed(ids[..n], gone);
      forall j | 0 <= j < |before|
        ensures before[j] != ids[n]
      {
        StayedMembers(ids[..n], gone, before[j]);
        assert before[j] in ids[..n];
      }
    }
  }

  /** When one leaves, the others keep their order. */
  lemma {:induction false} StayedLeave(ids: seq<Id>, gone: set<Id>, a: seq<Id>, id: Id, b: seq<Id>)
    requires Distinct(ids) && Stayed(ids, gone) == a + [id] + b
    ensures Stayed(ids, gone + {id}) == a + b
  {
    StayedDistinct(ids, gone);
    assert |Stayed(ids, gone)| == |a| + 1 + |b|;
    assert ids != [];
    var n := |ids| - 1;
    var before := Stayed(ids[..n], gone);
    if ids[n] == id {
      assert id in a + [id] + b;
      StayedMembers(ids, gone, id);
      var whole := a + [id] + b;
      assert whole[|a|] == whole[|whole| - 1] == id;
      assert b == [];
      assert whole[..|a|] == a && whole[..|whole| - 1] == before;
      StayedWithout(ids[..n], gone, id);
    } else if ids[n] in gone {
      StayedLeave(ids[..n], gone, a, id, b);
    } else {
      var whole := Stayed(ids, gone);
      assert whole[|a| + |b|] == ids[n];
      assert b != [] && b[|b| - 1] == ids[n];
      assert whole[..|whole| - 1] == before;
      assert whole[..|whole| - 1] == a + [id] + b[..|b| - 1];
      StayedLeave(ids[..n], gone, a, id, b[..|b| - 1]);
      assert a + b == a + b[..|b| - 1] + [ids[n]];
    }
  }

  lemma {:induction false} StayedWithout(ids: seq<Id>, gone: set<Id>, id: Id)
    requires id !in ids
    ensures Stayed(ids, gone + {id}) == Stayed(ids, gone)
  {
    if ids == [] {
    } else {
      assert ids[|ids| - 1] in ids;
      StayedWithout(ids[..|ids| - 1], gone, id);
    }
  }

  lemma ArriveKeeps(q: Queue, r: Request)
    requires Inv(q)
    ensures Inv(OnArrive(q, r))
  {
    var q' := OnArrive(q, r);
    if q' != q {
      StayedArrive(q.arrivals, q.gone, r.id);
      assert r.id !in q.gone;
      if q.taken < SLOTS {
        assert q.running == [] && q'.running == [r];
        CodesOf(r);
        assert Ids(q.waiting) == [] && Ids(q'.waiting) == [];
        assert q.served + Ids(q.waiting) == q.served && q'.served + Ids(q'.waiting) == q'.served;
      } else {
        assert Ids(q'.waiting) == Ids(q.waiting) + [r.id];
        assert q.served + Ids(q.waiting) + [r.id] == q.served + Ids(q'.waiting);
      }
    }
  }

  lemma StayedArrive(ids: seq<Id>, gone: set<Id>, id: Id)
    requires id !in gone
    ensures Stayed(ids + [id], gone) == Stayed(ids, gone) + [id]
  {
    assert (ids + [id])[..|ids|] == ids;
  }

  lemma AbortKeeps(q: Queue, id: Id)
    requires Inv(q)
    ensures Inv(OnAbort(q, id))
  {
    var k := IndexOf(q.waiting, id);
    if k.Some? {
      var w := Ids(q.waiting);
      var a, b := q.served + w[..k.value], w[k.value + 1..];
      assert q.served + w == a + [id] + b;
      StayedLeave(q.arrivals, q.gone, a, id, b);
      assert a + b == q.served + Ids(Without(q.waiting, k.value));
      assert id in a + [id] + b;
      StayedMembers(q.arrivals, q.gone, id);
    }
  }

  lemma ResumeKeeps(q: Queue, id: Id)
    requires Inv(q)
    ensures Inv(OnResume(q, id))
  {
    var k := IndexOf(q.granted, id);
    if k.Some? {
      assert q.running == [] && OnResume(q, id).running == [q.granted[0]];
      CodesOf(q.granted[0]);
    }
  }

  lemma FinishKeeps(q: Queue, id: Id)
    requires Inv(q)
    ensures Inv(OnFinish(q, id))
  {
    var k := IndexOf(q.running, id);
    var q' := OnFinish(q, id);
    if k.Some? {
      assert q.running == [q.running[0]] && q'.running == [];
      CodesOf(q.running[0]);
      if q.waiting != [] {
        assert q.served + Ids(q.waiting) == q'.served + Ids(q'.waiting);
      }
    }
  }

  lemma StepKeeps(q: Queue, e: Event)
    requires Inv(q)
    ensures Inv(Apply(q, e))
  {
    match e
    case Arrive(r) => ArriveKeeps(q, r);
    case Abort(id) => AbortKeeps(q, id);
    case Resume(id) => ResumeKeeps(q, id);
    case Finish(id) => FinishKeeps(q, id);
  }

  /** Over every run of arrivals, departures and ends: at most one generation runs, no
      slot is lost or made up, nobody waits while the slot is free, the line is never
      longer than its limit, and the slot is given in order of arrival. */
  lemma {:induction false} RunKeeps(q: Queue, es: seq<Event>)
    requires Inv(q)
    ensures Inv(Run(q, es))
  {
    if es == [] {
    } else {
      RunKeeps(q, es[..|es| - 1]);
      StepKeeps(Run(q, es[..|es| - 1]), es[|es| - 1]);
    }
  }

  /** Who gave up while waiting is never given the slot, and takes none away. */
  lemma GoneNeverServed(q: Queue, es: seq<Event>, id: Id)
    requires Inv(q) && id in Run(q, es).gone
    ensures var q' := Run(q, es);
      && id !in q'.served
      && (forall k :: 0 <= k < |q'.granted| ==> q'.granted[k].id != id)
      && (forall k :: 0 <= k < |q'.running| ==> q'.running[k].id != id)
  {
    RunKeeps(q, es);
    var q' := Run(q, es);
    StayedMembers(q'.arrivals, q'.gone, id);
    assert id in q'.served ==> id in q'.served + Ids(q'.waiting);
  }

  // ---- progress ------------------------------------------------------------

  /** 1 is next in line; 0 is not waiting. */
  function Position(q: Queue, id: Id): nat {
    var k := IndexOf(q.waiting, id);
    if k.None? then 0 else k.value + 1
  }

  /** The event ends a generation. */
  predicate Ends(q: Queue, e: Event) {
    e.Finish? && IndexOf(q.running, e.id).Some?
  }

  function Ended(q: Queue, es: seq<Event>): nat {
    if es == [] then 0
    else
      var n := |es| - 1;
      Ended(q, es[..n]) + if Ends(Run(q, es[..n]), es[n]) then 1 else 0
  }

  lemma WaitingDistinct(q: Queue)
    requires Inv(q)
    ensures Distinct(Ids(q.waiting))
    ensures forall k :: 0 <= k < |q.waiting| ==> q.waiting[k].id !in q.served
  {
    StayedDistinct(q.arrivals, q.gone);
    var w := Ids(q.waiting);
    var line := q.served + w;
    forall j, k | 0 <= j < k < |w|
      ensures w[j] != w[k]
    {
      assert line[|q.served| + j] != line[|q.served| + k];
    }
    forall k | 0 <= k < |w|
      ensures w[k] !in q.served
    {
      forall j | 0 <= j < |q.served|
        ensures q.served[j] != w[k]
      {
        assert line[j] != line[|q.served| + k];
      }
    }
  }

  lemma PositionIs(q: Queue, k: nat)
    requires Inv(q) && k < |q.waiting|
    ensures Position(q, q.waiting[k].id) == k + 1
  {
    WaitingDistinct(q);
    var j := IndexOf(q.waiting, q.waiting[k].id).value;
    assert Ids(q.waiting)[j] == Ids(q.waiting)[k];
  }

  lemma AbortAdvances(q: Queue, other: Id, id: Id)
    requires Inv(q) && Position(q, id) > 0 && other != id
    ensures 0 < Position(OnAbort(q, other), id) <= Position(q, id)
  {
    AbortKeeps(q, other);
    var a, k := IndexOf(q.waiting, other), Position(q, id) - 1;
    if a.Some? {
      PositionIs(OnAbort(q, other), if a.value < k then k - 1 else k);
    }
  }

  lemma FinishAdvances(q: Queue, other: Id, id: Id)
    requires Inv(q) && Position(q, id) > 0 && IndexOf(q.running, other).Some?
    ensures var q' := OnFinish(q, other);
      if Position(q, id) == 1 then id in q'.served else Position(q', id) == Position(q, id) - 1
  {
    FinishKeeps(q, other);
    var q', k := OnFinish(q, other), Position(q, id) - 1;
    if k > 0 {
      assert q'.waiting[k - 1] == q.waiting[k];
      PositionIs(q', k - 1);
    }
  }

  lemma ArriveAdvances(q: Queue, r: Request, id: Id)
    requires Inv(q) && Position(q, id) > 0
    ensures 0 < Position(OnArrive(q, r), id) <= Position(q, id)
  {
    ArriveKeeps(q, r);
    PositionIs(OnArrive(q, r), Position(q, id) - 1);
  }

  /** A step never puts a waiter further back, and every end of a generation moves every
      waiter strictly forward: the first one gets the slot. */
  lemma StepAdvances(q: Queue, e: Event, id: Id)
    requires Inv(q) && Position(q, id) > 0 && e != Abort(id)
    ensures var q' := Apply(q, e);
      if Ends(q, e) then
        if Position(q, id) == 1 then id in q'.served else Position(q', id) == Position(q, id) - 1
      else 0 < Position(q', id) <= Position(q, id)
  {
    match e
    case Arrive(r) => ArriveAdvances(q, r, id);
    case Abort(other) => AbortAdvances(q, other, id);
    case Resume(_) =>
    case Finish(other) =>
      if Ends(q, e) {
        FinishAdvances(q, other, id);
      }
  }

  /** After `ended` ends a waiter that started at `position` was given the slot, or is
      at least that many places further. */
  predicate Advanced(q: Queue, id: Id, position: nat, ended: nat) {
    id in q.served || (ended < position && 0 < Position(q, id) <= position - ended)
  }

  lemma AdvancedStep(q: Queue, e: Event, id: Id, position: nat, ended: nat)
    requires Inv(q) && Advanced(q, id, position, ended) && e != Abort(id)
    ensures Advanced(Apply(q, e), id, position, ended + if Ends(q, e) then 1 else 0)
  {
    if id in q.served {
      assert id in Apply(q, e).served;
    } else {
      StepAdvances(q, e, id);
    }
  }

  /** Nobody starves: in every run, a waiter that stays has the slot once as many
      generations ended as its position said, and until then it only moves forward. */
  lemma {:induction false} EveryoneIsServed(q: Queue, es: seq<Event>, id: Id)
    requires Inv(q) && Position(q, id) > 0 && Abort(id) !in es
    ensures Advanced(Run(q, es), id, Position(q, id), Ended(q, es))
    ensures Ended(q, es) >= Position(q, id) ==> id in Run(q, es).served
  {
    if es == [] {
    } else {
      var n := |es| - 1;
      EveryoneIsServed(q, es[..n], id);
      RunKeeps(q, es[..n]);
      AdvancedStep(Run(q, es[..n]), es[n], id, Position(q, id), Ended(q, es[..n]));
    }
  }

  /** Whoever waits, waits for somebody who holds the slot and can end. */
  lemma NoDeadlock(q: Queue, es: seq<Event>)
    requires Inv(q) && Run(q, es).waiting != []
    ensures var q' := Run(q, es); (|q'.running| == 1 && q'.granted == []) || (|q'.granted| == 1 && q'.running == [])
  {
    RunKeeps(q, es);
  }

  // ---- what the front is told ----------------------------------------------

  datatype Situation = InLine(position: nat) | Generating | Unknown

  predicate HasCode(rs: seq<Request>, code: Code) {
    exists k :: 0 <= k < |rs| && rs[k].code == code
  }

  /** `situacaoNaFila` knows a code that waits or is being generated. */
  predicate Known(q: Queue, code: Code) {
    HasCode(q.waiting, code) || code in q.generating
  }

  /** The request is somewhere between its arrival and its end. */
  predicate Here(q: Queue, r: Request) {
    r in q.waiting || r in q.granted || r in q.running
  }

  /** The event lets the request into the queue. */
  predicate LetsIn(q: Queue, e: Event, r: Request) {
    e == Arrive(r) && r.id !in q.arrivals && r.id in OnArrive(q, r).arrivals
  }

  predicate Accepted(q: Queue, es: seq<Event>, r: Request) {
    es != [] &&
    var n := |es| - 1;
    Accepted(q, es[..n], r) || LetsIn(Run(q, es[..n]), es[n], r)
  }

  predicate Finished(q: Queue, es: seq<Event>, id: Id) {
    es != [] &&
    var n := |es| - 1;
    Finished(q, es[..n], id) || (es[n] == Finish(id) && Ends(Run(q, es[..n]), es[n]))
  }

  /** No two requests in the queue have one id. */
  lemma OneEach(q: Queue, r: Request, r': Request)
    requires Inv(q) && Here(q, r) && Here(q, r') && r.id == r'.id
    ensures r == r' && (r in q.waiting ==> r.id !in q.served) && (r !in q.waiting ==> r.id in q.served)
  {
    WaitingDistinct(q);
    assert r !in q.waiting ==> r.id in q.served;
    assert r' !in q.waiting ==> r'.id in q.served;
    if r in q.waiting {
      var j :| 0 <= j < |q.waiting| && q.waiting[j] == r;
      var k :| 0 <= k < |q.waiting| && q.waiting[k] == r';
      assert Ids(q.waiting)[j] == Ids(q.waiting)[k];
    }
  }

  /** Whoever has left: gone while waiting, or ended. */
  predicate LeavesNow(q: Queue, e: Event, r: Request) {
    (e == Abort(r.id) && r in q.waiting) || (e == Finish(r.id) && r in q.running)
  }

  lemma InWithout(rs: seq<Request>, k: nat, r: Request)
    requires k < |rs| && Distinct(Ids(rs))
    ensures r in Without(rs, k) <==> r in rs && r != rs[k]
  {
    if r in rs && r != rs[k] {
      var j :| 0 <= j < |rs| && rs[j] == r;
      assert Without(rs, k)[if j < k then j else j - 1] == r;
    }
    forall j | 0 <= j < |rs| && j != k
      ensures rs[j] != rs[k]
    {
      assert Ids(rs)[j] != Ids(rs)[k];
    }
  }

  lemma AbortHere(q: Queue, id: Id, r: Request)
    requires Inv(q)
    ensures Here(OnAbort(q, id), r) <==> Here(q, r) && !(r.id == id && r in q.waiting)
  {
    WaitingDistinct(q);
    var k := IndexOf(q.waiting, id);
    if k.Some? {
      InWithout(q.waiting, k.value, r);
      if r in q.waiting && r.id == id {
        OneEach(q, r, q.waiting[k.value]);
        assert r.id !in q.served;
      }
    }
  }

  lemma ResumeHere(q: Queue, id: Id, r: Request)
    requires Inv(q)
    ensures Here(OnResume(q, id), r) <==> Here(q, r)
  {
    if IndexOf(q.granted, id).Some? {
      assert q.granted == [q.granted[0]] && q.running == [];
    }
  }

  lemma FinishHere(q: Queue, id: Id, r: Request)
    requires Inv(q)
    ensures Here(OnFinish(q, id), r) <==> Here(q, r) && !(r.id == id && r in q.running)
  {
    var k := IndexOf(q.running, id);
    if k.Some? {
      var q' := OnFinish(q, id);
      assert q.running == [q.running[0]] && q.granted == [] && q'.running == [];
      if Here(q, r) && r in q.waiting {
        OneEach(q, r, r);
        assert r != q.running[0];
        assert q.waiting == [q.waiting[0]] + q.waiting[1..];
      }
    }
  }

  lemma StepHere(q: Queue, e: Event, r: Request)
    requires Inv(q)
    ensures Here(Apply(q, e), r) <==> (Here(q, r) && !LeavesNow(q, e, r)) || LetsIn(q, e, r)
  {
    match e
    case Arrive(_) =>
    case Abort(id) => AbortHere(q, id, r);
    case Resume(id) => ResumeHere(q, id, r);
    case Finish(id) => FinishHere(q, id, r);
  }

  /** Over every run the requests in the queue are those accepted that neither gave up nor
      ended. */
  lemma {:induction false} HereExactly(es: seq<Event>, r: Request)
    ensures var q := Run(EMPTY, es);
            && Inv(q)
            && (Here(q, r) <==> Accepted(EMPTY, es, r) && r.id !in q.gone && !Finished(EMPTY, es, r.id))
            && (Accepted(EMPTY, es, r) || Finished(EMPTY, es, r.id) ==> r.id in q.arrivals)
            && (Finished(EMPTY, es, r.id) ==> r.id in q.served)
  {
    EmptyInv();
    RunKeeps(EMPTY, es);
    if es == [] {
    } else {
      var n := |es| - 1;
      HereExactly(es[..n], r);
      var q := Run(EMPTY, es[..n]);
      RunKeeps(EMPTY, es[..n]);
      StepHere(q, es[n], r);
      HistoryGrows(q, es[n], r.id);
      if Here(q, r) {
        LeavesExactly(q, es[n], r);
      }
    }
  }

  lemma EmptyInv()
    ensures Inv(EMPTY)
  {
    assert Ids([]) == [];
  }

  lemma GoneIsNotHere(q: Queue, r: Request)
    requires Inv(q) && Here(q, r)
    ensures r.id !in q.gone
  {
    StayedMembers(q.arrivals, q.gone, r.id);
    OneEach(q, r, r);
    if r in q.waiting {
      var k :| 0 <= k < |q.waiting| && q.waiting[k] == r;
      assert Ids(q.waiting)[k] == r.id;
    }
    assert r.id in q.served + Ids(q.waiting);
  }

  /** Who was here leaves by giving up or by ending. */
  lemma LeavesExactly(q: Queue, e: Event, r: Request)
    requires Inv(q) && Here(q, r)
    ensures LeavesNow(q, e, r) <==> r.id in Apply(q, e).gone || (e == Finish(r.id) && Ends(q, e))
  {
    GoneIsNotHere(q, r);
    OneEach(q, r, r);
    match e
    case Abort(id) =>
      var k := IndexOf(q.waiting, id);
      if k.Some? && id == r.id {
        OneEach(q, r, q.waiting[k.value]);
      }
    case Finish(id) =>
      var k := IndexOf(q.running, id);
      if k.Some? && id == r.id {
        OneEach(q, r, q.running[k.value]);
      }
    case _ =>
  }

  /** What was let in, given up, served or ended stays so. */
  lemma HistoryGrows(q: Queue, e: Event, id: Id)
    requires Inv(q)
    ensures id in q.gone ==> id in Apply(q, e).gone
    ensures id in q.served ==> id in Apply(q, e).served && id in q.arrivals
    ensures id in q.arrivals ==> id in Apply(q, e).arrivals
    ensures e == Finish(id) && Ends(q, e) ==> id in q.served
  {
    StayedMembers(q.arrivals, q.gone, id);
    assert id in q.served ==> id in q.served + Ids(q.waiting);
  }

  lemma GeneratingIs(q: Queue, code: Code)
    requires Inv(q)
    ensures code in q.generating <==> HasCode(q.running, code)
  {
    if q.running == [] {
      CodesOf(Request(0, 0));
    } else {
      assert q.running == [q.running[0]];
      CodesOf(q.running[0]);
      assert q.running[0].code == code ==> HasCode(q.running, code);
    }
  }

  /** An accepted request that neither gave up nor ended is answered "unknown" exactly when it
      was given the slot and has not resumed, and nobody with its code waits or runs. */
  lemma UnknownExactly(es: seq<Event>, r: Request)
    requires Accepted(EMPTY, es, r) && r.id !in Run(EMPTY, es).gone && !Finished(EMPTY, es, r.id)
    ensures var q := Run(EMPTY, es);
            !Known(q, r.code) <==> r in q.granted && !HasCode(q.waiting, r.code) && !HasCode(q.running, r.code)
  {
    HereExactly(es, r);
    var q := Run(EMPTY, es);
    GeneratingIs(q, r.code);
  }

  lemma Next(q: Queue, es: seq<Event>, e: Event)
    ensures Run(q, es + [e]) == Apply(Run(q, es), e)
    ensures forall r :: Accepted(q, es + [e], r) <==> Accepted(q, es, r) || LetsIn(Run(q, es), e, r)
  {
    assert (es + [e])[..|es|] == es;
  }

  /** It does happen: of two requests the first ends, and the second has the slot. */
  lemma UnknownThough(one: Code, two: Code)
    ensures var es := [] + [Arrive(Request(1, one))] + [Arrive(Request(2, two))] + [Finish(1)];
            var q := Run(EMPTY, es);
            && Accepted(EMPTY, es, Request(2, two)) && 2 !in q.gone && !Finished(EMPTY, es, 2)
            && !Known(q, two)
  {
    var first, second := Request(1, one), Request(2, two);
    var es1 := [] + [Arrive(first)];
    Next(EMPTY, [], Arrive(first));
    var q1 := Queue([], {one}, 1, [], [first], [1], [1], {});
    assert Run(EMPTY, es1) == q1;
    var es2 := es1 + [Arrive(second)];
    Next(EMPTY, es1, Arrive(second));
    var q2 := q1.(waiting := [second], arrivals := [1, 2]);
    assert Run(EMPTY, es2) == q2;
    Next(EMPTY, es2, Finish(1));
    EndsFirst(q2, first, second);
    HereExactly(es2 + [Finish(1)], second);
  }

  lemma EndsFirst(q: Queue, first: Request, second: Request)
    requires first.id == 1 && second.id == 2
    requires q == Queue([second], {first.code}, 1, [], [first], [1, 2], [1], {})
    ensures OnFinish(q, 1) == Queue([], {}, 1, [second], [], [1, 2], [1, 2], {})
  {
    assert q.running[..0] == [] && IndexOf([], 1).None?;
    assert IndexOf(q.running, 1) == Some(0);
  }

  /** The module state of `fila.ts`, in place. */
  class PdfQueue {
    var waiting: seq<Request>
    var generating: set<Code>
    var taken: nat
    ghost var granted: seq<Request>
    ghost var running: seq<Request>
    ghost var arrivals: seq<Id>
    ghost var served: seq<Id>
    ghost var gone: set<Id>

    ghost function State(): Queue
      reads this
    {
      Queue(waiting, generating, taken, granted, running, arrivals, served, gone)
    }

    constructor ()
      ensures State() == EMPTY && Inv(State())
    {
      waiting, generating, taken := [], {}, 0;
      granted, running, arrivals, served, gone := [], [], [], [], {};
      new;
      assert Ids([]) == [];
    }

    /** `naFilaDePdf`, up to its first suspension; false is "too many requests". */
    method Enter(r: Request) returns (accepted: bool)
      requires Inv(State()) && r.id !in arrivals
      modifies this
      ensures State() == OnArrive(old(State()), r) && Inv(State())
      ensures accepted <==> old(taken) < SLOTS || |old(waiting)| < MAX_WAITING
    {
      ArriveKeeps(State(), r);
      if taken < SLOTS {
        taken := taken + 1;
        generating := generating + {r.code};
        running, served := running + [r], served + [r.id];
      } else {
        if |waiting| >= MAX_WAITING {
          return false;
        }
        waiting := waiting + [r];
      }
      arrivals := arrivals + [r.id];
      return true;
    }

    /** The `abort` listener of a waiting request. */
    method GiveUp(id: Id)
      requires Inv(State())
      modifies this
      ensures State() == OnAbort(old(State()), id) && Inv(State())
    {
      AbortKeeps(State(), id);
      var k := IndexOf(waiting, id);
      if k.None? {
        return;
      }
      waiting := waiting[..k.value] + waiting[k.value + 1..];
      gone := gone + {id};
    }

    /** The continuation after the wait: `r` was given the slot. */
    method Continue(r: Request)
      requires Inv(State()) && r in granted
      modifies this
      ensures State() == OnResume(old(State()), r.id) && Inv(State())
    {
      ResumeKeeps(State(), r.id);
      assert granted == [r];
      generating := generating + {r.code};
      granted, running := [], running + [r];
    }

    /** The `finally` block. */
    method Leave(r: Request)
      requires Inv(State()) && r in running
      modifies this
      ensures State() == OnFinish(old(State()), r.id) && Inv(State())
    {
      FinishKeeps(State(), r.id);
      assert running == [r];
      generating := generating - {r.code};
      running := [];
      if waiting != [] {
        granted, served := granted + [waiting[0]], served + [waiting[0].id];
        waiting := waiting[1..];
      } else {
        taken := taken - 1;
      }
    }

    /** `situacaoNaFila`: the first place in line of the code, or that it is being
        generated. A request that was just given the slot is neither. */
    method Ask(code: Code) returns (s: Situation)
      requires Inv(State())
      ensures s.InLine? <==> exists k :: 0 <= k < |waiting| && waiting[k].code == code
      ensures s.InLine? ==> 1 <= s.position <= |waiting| && waiting[s.position - 1].code == code
      ensures s.InLine? ==> Position(State(), waiting[s.position - 1].id) == s.position
      ensures s.InLine? ==> forall k :: 0 <= k < s.position - 1 ==> waiting[k].code != code
      ensures s.Unknown? <==> !Known(State(), code)
      ensures s.Generating? <==> !s.InLine? && exists k :: 0 <= k < |running| && running[k].code == code
    {
      var k := 0;
      while k < |waiting|
        invariant k <= |waiting| && forall j :: 0 <= j < k ==> waiting[j].code != code
      {
        if waiting[k].code == code {
          PositionIs(State(), k);
          return InLine(k + 1);
        }
        k := k + 1;
      }
      if running != [] {
        assert running == [running[0]];
        CodesOf(running[0]);
      }
      return if code in generating then Generating else Unknown;
    }
  }
}
