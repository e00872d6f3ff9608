/** People reconciling at the same time: each request reads, checks what it read, and writes
    later, one row at a time. Only a unique constraint guards the link. */
module ReconciliationRaces {
  import opened Wrappers
  import opened Reconciliation

  type Request = nat

  /** What a request that passed its checks is still to write. */
  datatype Plan =
    | LinkThem(bank: Id, manual: Id, category: Id, tither: Option<Id>)
    | Inherit(bank: Id, category: Id, tither: Option<Id>)
    | Unlink(manual: Id)
    | PutMark(manual: Id, notInBank: bool)

  datatype Office = Office(l: Ledger, plans: map<Request, Plan>)

  datatype Move =
    | ReadToLink(q: Request, church: Id, bank: Id, manual: Id)
    | ReadToUndo(q: Request, church: Id, manual: Id)
    | ReadToMark(q: Request, church: Id, manual: Id, notInBank: bool)
    | Write(q: Request)

  /** The bank's entry takes the category of the manual, and its tither when it has one. */
  function PlanOf(l: Ledger, bank: Id, manual: Id): Plan
    requires bank in l && manual in l
  {
    LinkThem(bank, manual, l[manual].category, if l[manual].tither.Some? then l[manual].tither else l[bank].tither)
  }

  /** The unique constraint: another entry already points to this one of the bank. */
  predicate Taken(l: Ledger, bank: Id, manual: Id) {
    exists n :: n in l && n != manual && l[n].reconciledWith == Some(bank)
  }

  function Over(o: Office, q: Request): Office {
    o.(plans := o.plans - {q})
  }

  /** The next write of a request; an entry that is not there makes it fail. */
  function Written(o: Office, q: Request, plan: Plan): Office {
    match plan
    case LinkThem(bank, manual, category, tither) =>
      if manual !in o.l || Taken(o.l, bank, manual) then Over(o, q)
      else
        Office(
          o.l[manual := o.l[manual].(reconciledWith := Some(bank), notInBank := false)],
          o.plans[q := Inherit(bank, category, tither)])
    case Inherit(bank, category, tither) =>
      if bank !in o.l then Over(o, q)
      else Over(o.(l := o.l[bank := o.l[bank].(category := category, tither := tither)]), q)
    case Unlink(manual) =>
      if manual !in o.l then Over(o, q) else Over(o.(l := o.l[manual := o.l[manual].(reconciledWith := None)]), q)
    case PutMark(manual, notInBank) =>
      if manual !in o.l then Over(o, q)
      else Over(o.(l := o.l[manual := o.l[manual].(notInBank := notInBank)]), q)
  }

  function Planned(o: Office, q: Request, plan: Plan): Office {
    if q in o.plans then o else o.(plans := o.plans[q := plan])
  }

  function Stepped(o: Office, m: Move): Office {
    match m
    case ReadToLink(q, church, bank, manual) =>
      if Refusal(o.l, church, bank, manual).None? then Planned(o, q, PlanOf(o.l, bank, manual)) else o
    case ReadToUndo(q, church, manual) =>
      if Undo(o.l, church, manual).Success? then Planned(o, q, Unlink(manual)) else o
    case ReadToMark(q, church, manual, notInBank) =>
      if Mark(o.l, church, manual, notInBank).Success? then Planned(o, q, PutMark(manual, notInBank)) else o
    case Write(q) => if q in o.plans then Written(o, q, o.plans[q]) else o
  }

  function RunOffice(o: Office, ms: seq<Move>): Office {
    if ms == [] then o else Stepped(RunOffice(o, ms[..|ms| - 1]), ms[|ms| - 1])
  }

  // ---- what the writes keep ------------------------------------------------

  /** What was read and never changes still fits the plan. */
  predicate Fits(l: Ledger, plan: Plan) {
    plan.LinkThem? ==>
      && plan.bank in l && plan.manual in l
      && l[plan.bank].source == Bank && l[plan.manual].source == Manual
      && l[plan.bank].church == l[plan.manual].church && l[plan.bank].income == l[plan.manual].income
  }

  ghost predicate Good(o: Office) {
    Linked(o.l) && forall q :: q in o.plans ==> Fits(o.l, o.plans[q])
  }

  /** The one write that can break the links: a mark put on an entry reconciled by then. */
  predicate Safe(o: Office, m: Move) {
    m.Write? && m.q in o.plans && o.plans[m.q].PutMark? && o.plans[m.q].manual in o.l && o.plans[m.q].notInBank ==>
      o.l[o.plans[m.q].manual].reconciledWith.None?
  }

  /** Source, church and type of an entry are never written. */
  predicate SameNature(l: Ledger, l': Ledger) {
    l.Keys == l'.Keys && forall id :: id in l ==>
      l'[id].source == l[id].source && l'[id].church == l[id].church && l'[id].income == l[id].income
  }

  lemma PlansStillFit(o: Office, l: Ledger, q: Request)
    requires Good(o) && SameNature(o.l, l)
    ensures forall k :: k in o.plans ==> Fits(l, o.plans[k])
  {
    forall k | k in o.plans
      ensures Fits(l, o.plans[k])
    {
      assert Fits(o.l, o.plans[k]);
    }
  }

  lemma LinkGood(o: Office, q: Request)
    requires Good(o) && q in o.plans && o.plans[q].LinkThem? && !Taken(o.l, o.plans[q].bank, o.plans[q].manual)
    ensures Good(Written(o, q, o.plans[q]))
  {
    var bank, manual := o.plans[q].bank, o.plans[q].manual;
    assert Fits(o.l, o.plans[q]);
    var l := o.l[manual := o.l[manual].(reconciledWith := Some(bank), notInBank := false)];
    forall m | m in l
      ensures GoodLink(l, m)
    {
      assert GoodLink(o.l, m);
    }
    PlansStillFit(o, l, q);
  }

  lemma FactsGood(o: Office, l: Ledger, q: Request)
    requires Good(o) && SameNature(o.l, l)
    requires forall id :: id in l ==>
      (l[id].reconciledWith == o.l[id].reconciledWith || l[id].reconciledWith.None?)
      && (l[id].notInBank ==> o.l[id].notInBank || l[id].reconciledWith.None?)
    ensures Good(Over(o.(l := l), q))
  {
    forall m | m in l
      ensures GoodLink(l, m)
    {
      assert GoodLink(o.l, m);
    }
    PlansStillFit(o, l, q);
  }

  lemma WriteExact(o: Office, q: Request)
    requires Good(o) && q in o.plans
    ensures Good(Written(o, q, o.plans[q])) <==> Safe(o, Write(q))
  {
    var plan := o.plans[q];
    assert Fits(o.l, plan);
    match plan
    case LinkThem(bank, manual, _, _) =>
      if !Taken(o.l, bank, manual) {
        LinkGood(o, q);
      }
    case PutMark(manual, notInBank) =>
      if manual in o.l {
        var l := o.l[manual := o.l[manual].(notInBank := notInBank)];
        MarkedLinks(o.l, manual, notInBank);
        if Safe(o, Write(q)) {
          FactsGood(o, l, q);
        }
      }
    case Inherit(bank, category, tither) =>
      if bank in o.l {
        FactsGood(o, o.l[bank := o.l[bank].(category := category, tither := tither)], q);
      }
    case Unlink(manual) =>
      if manual in o.l {
        FactsGood(o, o.l[manual := o.l[manual].(reconciledWith := None)], q);
      }
  }

  lemma StepExact(o: Office, m: Move)
    requires Good(o)
    ensures Good(Stepped(o, m)) <==> Safe(o, m)
  {
    if m.Write? && m.q in o.plans {
      WriteExact(o, m.q);
    }
  }

  ghost predicate GoodAlong(o: Office, ms: seq<Move>) {
    Good(RunOffice(o, ms)) && (ms != [] ==> GoodAlong(o, ms[..|ms| - 1]))
  }

  predicate SafeAlong(o: Office, ms: seq<Move>) {
    ms != [] ==> SafeAlong(o, ms[..|ms| - 1]) && Safe(RunOffice(o, ms[..|ms| - 1]), ms[|ms| - 1])
  }

  /** However the reads and the writes of any number of requests interleave, the links stay an
      injective map between entries of one church and type, never on an entry marked as not in
      the bank, exactly when no mark is put on an entry that was reconciled since it was read. */
  lemma {:induction false} RunExact(o: Office, ms: seq<Move>)
    requires Good(o)
    ensures GoodAlong(o, ms) <==> SafeAlong(o, ms)
  {
    if ms == [] {
    } else {
      var n := |ms| - 1;
      RunExact(o, ms[..n]);
      if GoodAlong(o, ms[..n]) {
        StepExact(RunOffice(o, ms[..n]), ms[n]);
      }
    }
  }

  // ---- whole operations ----------------------------------------------------

  /** Undisturbed, the read and the two writes of a request are the whole operation. */
  lemma WholeLink(o: Office, q: Request, church: Id, bank: Id, manual: Id)
    requires o.plans == map[]
    ensures Stepped(Stepped(Stepped(o, ReadToLink(q, church, bank, manual)), Write(q)), Write(q)) ==
      Office(Apply(o.l, Reconciling(church, bank, manual)), map[])
  {
    if Refusal(o.l, church, bank, manual).None? {
      assert !Taken(o.l, bank, manual);
      var end := Stepped(Stepped(Stepped(o, ReadToLink(q, church, bank, manual)), Write(q)), Write(q));
      assert end.plans == map[];
      assert end.l == Link(o.l, bank, manual);
    }
  }

  lemma WholeOthers(o: Office, q: Request, church: Id, manual: Id, notInBank: bool)
    requires o.plans == map[]
    ensures Stepped(Stepped(o, ReadToUndo(q, church, manual)), Write(q)) ==
      Office(Apply(o.l, Undoing(church, manual)), map[])
    ensures Stepped(Stepped(o, ReadToMark(q, church, manual, notInBank)), Write(q)) ==
      Office(Apply(o.l, Marking(church, manual, notInBank)), map[])
  {
    assert map[q := Unlink(manual)] - {q} == map[];
    assert map[q := PutMark(manual, notInBank)] - {q} == map[];
  }
}
