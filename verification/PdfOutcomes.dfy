/** What each event does to the queue of PDF generations, field by field. */
module PdfOutcomes {
  import opened Wrappers
  import opened PdfQueue

  predicate SlotFree(q: Queue) {
    q.granted == [] && q.running == []
  }

  /** A new request runs at once when the slot is free, waits at the end of the line when fewer than
      twenty do, and is not let in otherwise. */
  lemma ArriveWrites(q: Queue, r: Request)
    requires Inv(q) && r.id !in q.arrivals
    ensures var q' := OnArrive(q, r);
      && (SlotFree(q) ==>
        && q'.running == [r] && q'.granted == [] && q'.waiting == q.waiting && q'.generating == {r.code}
        && q'.arrivals == q.arrivals + [r.id] && q'.served == q.served + [r.id] && q'.gone == q.gone)
      && (!SlotFree(q) && |q.waiting| < 20 ==>
        && q'.waiting == q.waiting + [r] && q'.running == q.running && q'.granted == q.granted
        && q'.generating == q.generating && q'.arrivals == q.arrivals + [r.id] && q'.served == q.served
        && q'.gone == q.gone)
      && (!SlotFree(q) && |q.waiting| >= 20 ==> q' == q)
  {
    if q.running == [] {
      CodesOf(r);
    }
  }

  /** Whoever waits leaves the line and the others keep their order; nobody else can leave. */
  lemma AbortWrites(q: Queue, id: Id, k: nat)
    requires Inv(q)
    ensures k < |q.waiting| && q.waiting[k].id == id ==>
      OnAbort(q, id) == q.(waiting := q.waiting[..k] + q.waiting[k + 1..], gone := q.gone + {id})
    ensures (forall j :: 0 <= j < |q.waiting| ==> q.waiting[j].id != id) ==> OnAbort(q, id) == q
  {
    if k < |q.waiting| && q.waiting[k].id == id {
      PositionIs(q, k);
    }
  }

  /** Whoever was given the slot starts to generate. */
  lemma ResumeWrites(q: Queue, r: Request)
    requires Inv(q)
    ensures q.granted == [r] ==>
      OnResume(q, r.id) == q.(granted := [], running := [r], generating := {r.code})
    ensures q.granted == [] ==> OnResume(q, r.id) == q
  {
    if q.granted == [r] {
      assert IndexOf([], r.id).None? && q.granted[..0] == [];
      assert q.running == [] && IndexOf(q.granted, r.id) == Some(0);
      CodesOf(r);
    }
  }

  /** The end of a generation gives the slot to the first in line, or leaves it free. */
  lemma FinishWrites(q: Queue, r: Request)
    requires Inv(q) && q.running == [r]
    ensures var q' := OnFinish(q, r.id);
      && q'.running == [] && q'.generating == {} && q'.arrivals == q.arrivals && q'.gone == q.gone
      && (q.waiting == [] ==> q'.granted == [] && q'.waiting == [] && q'.served == q.served && q'.taken == 0)
      && (q.waiting != [] ==>
        && q'.granted == [q.waiting[0]] && q'.waiting == q.waiting[1..]
        && q'.served == q.served + [q.waiting[0].id] && q'.taken == 1)
  {
    assert q.running[..0] == [] && q.granted == [];
    assert IndexOf(q.running, r.id) == Some(0);
    CodesOf(r);
  }
}
