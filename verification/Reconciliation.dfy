/** Reconciliation of the ledger: what came from the bank against what was entered by
    hand. The manual entry of a reconciled pair points to the bank's; the pair is the
    same money written twice. */
module Reconciliation {
  import opened Wrappers
  import opened Sorting
  import M = Matching

  type Id = nat

  datatype Source = Bank | Manual

  /** `administrative` and `distributed` stand for the account and the existence of
      allocations, which keep an entry out of the listing. */
  datatype Entry = Entry(
    church: Id,
    source: Source,
    income: bool,
    cents: int,
    day: int,
    tither: Option<Id>,
    category: Id,
    administrative: bool,
    distributed: bool,
    reconciledWith: Option<Id>,
    notInBank: bool)

  type Ledger = map<Id, Entry>

  datatype Problem = NotFound | NotABankEntry | NotAManualEntry | DifferentTypes | AlreadyReconciled

  /** `reconciledBy` is not null: some entry points to `b`. */
  predicate PointedTo(l: Ledger, b: Id) {
    exists m :: m in l && l[m].reconciledWith == Some(b)
  }

  predicate IsReconciled(l: Ledger, id: Id)
    requires id in l
  {
    l[id].reconciledWith.Some? || PointedTo(l, id)
  }

  // ---- the steps -----------------------------------------------------------

  /** Why `conciliar` refuses, in the order of its checks. */
  function Refusal(l: Ledger, church: Id, bank: Id, manual: Id): Option<Problem> {
    if !(bank in l && l[bank].church == church && manual in l && l[manual].church == church) then Some(NotFound)
    else if l[bank].source != Bank then Some(NotABankEntry)
    else if l[manual].source != Manual then Some(NotAManualEntry)
    else if l[bank].income != l[manual].income then Some(DifferentTypes)
    else if PointedTo(l, bank) || l[manual].reconciledWith.Some? then Some(AlreadyReconciled)
    else None
  }

  /** The manual points to the bank's entry, which inherits its category and tither. */
  function Link(l: Ledger, bank: Id, manual: Id): Ledger
    requires bank in l && manual in l && bank != manual
  {
    var tither := if l[manual].tither.Some? then l[manual].tither else l[bank].tither;
    l[manual := l[manual].(reconciledWith := Some(bank), notInBank := false)]
     [bank := l[bank].(category := l[manual].category, tither := tither)]
  }

  function Reconcile(l: Ledger, church: Id, bank: Id, manual: Id): Result<Ledger, Problem> {
    var why := Refusal(l, church, bank, manual);
    if why.Some? then Failure(why.value) else Success(Link(l, bank, manual))
  }

  /** `desfazer` */
  function Undo(l: Ledger, church: Id, manual: Id): Result<Ledger, Problem> {
    if manual in l && l[manual].church == church && l[manual].reconciledWith.Some? then
      Success(l[manual := l[manual].(reconciledWith := None)])
    else Failure(NotFound)
  }

  /** `marcarNaoConsta` */
  function Mark(l: Ledger, church: Id, manual: Id, notInBank: bool): Result<Ledger, Problem> {
    if !(manual in l && l[manual].church == church) then Failure(NotFound)
    else if l[manual].source != Manual then Failure(NotAManualEntry)
    else if l[manual].reconciledWith.Some? then Failure(AlreadyReconciled)
    else Success(l[manual := l[manual].(notInBank := notInBank)])
  }

  datatype Step =
    | Reconciling(church: Id, bank: Id, manual: Id)
    | Undoing(church: Id, manual: Id)
    | Marking(church: Id, manual: Id, notInBank: bool)

  function Apply(l: Ledger, op: Step): Ledger {
    var r :=
      match op
      case Reconciling(church, bank, manual) => Reconcile(l, church, bank, manual)
      case Undoing(church, manual) => Undo(l, church, manual)
      case Marking(church, manual, notInBank) => Mark(l, church, manual, notInBank);
    if r.Success? then r.value else l
  }

  function Run(l: Ledger, ops: seq<Step>): Ledger {
    if ops == [] then l else Apply(Run(l, ops[..|ops| - 1]), ops[|ops| - 1])
  }

  // ---- the links over every run --------------------------------------------

  /** A link joins a manual entry to a bank entry of its church and type, and is never
      together with "not in the bank". */
  predicate GoodLink(l: Ledger, m: Id)
    requires m in l
  {
    l[m].reconciledWith.Some? ==>
      var b := l[m].reconciledWith.value;
      && b in l
      && l[m].source == Manual && l[b].source == Bank
      && l[m].church == l[b].church && l[m].income == l[b].income
      && !l[m].notInBank
  }

  /** One bank entry, one manual entry. */
  ghost predicate Linked(l: Ledger) {
    && (forall m :: m in l ==> GoodLink(l, m))
    && forall m, n :: m in l && n in l && l[m].reconciledWith.Some? ==>
      l[m].reconciledWith == l[n].reconciledWith ==> m == n
  }

  lemma LinkKeeps(l: Ledger, church: Id, bank: Id, manual: Id)
    requires Linked(l) && Refusal(l, church, bank, manual).None?
    ensures Linked(Link(l, bank, manual))
  {
    var l' := Link(l, bank, manual);
    forall m | m in l'
      ensures GoodLink(l', m)
    {
      assert GoodLink(l, m);
    }
  }

  lemma StepKeeps(l: Ledger, op: Step)
    requires Linked(l)
    ensures Linked(Apply(l, op))
  {
    if op.Reconciling? && Reconcile(l, op.church, op.bank, op.manual).Success? {
      LinkKeeps(l, op.church, op.bank, op.manual);
    } else {
      var l' := Apply(l, op);
      forall m | m in l'
        ensures GoodLink(l', m)
      {
        assert GoodLink(l, m);
      }
    }
  }

  /** Over every run the links are an injective map from manual to bank entries of the
      same church and type, and no linked entry is marked as not in the bank. */
  lemma {:induction false} RunKeepsLinks(l: Ledger, ops: seq<Step>)
    requires Linked(l)
    ensures Linked(Run(l, ops))
  {
    if ops == [] {
    } else {
      RunKeepsLinks(l, ops[..|ops| - 1]);
      StepKeeps(Run(l, ops[..|ops| - 1]), ops[|ops| - 1]);
    }
  }

  /** Undoing a pair gives back the manual entry without its mark, and the bank entry
      keeps the category and tither it inherited; nothing else moves. */
  lemma UndoRestores(l: Ledger, church: Id, bank: Id, manual: Id)
    requires Refusal(l, church, bank, manual).None?
    ensures var linked := Link(l, bank, manual);
      Undo(linked, church, manual) == Success(
        l[manual := l[manual].(notInBank := false)]
         [bank := l[bank].(category := l[manual].category,
                           tither := if l[manual].tither.Some? then l[manual].tither else l[bank].tither)])
  {
    var linked := Link(l, bank, manual);
    var undone := linked[manual := linked[manual].(reconciledWith := None)];
    assert undone == l[manual := l[manual].(notInBank := false)][bank := linked[bank]];
  }

  // ---- a mark written late -------------------------------------------------

  /** The `k`-th step reconciles the manual entry. */
  predicate LinksAt(l: Ledger, ops: seq<Step>, k: nat, manual: Id) {
    && k < |ops| && ops[k].Reconciling? && ops[k].manual == manual
    && Refusal(Run(l, ops[..k]), ops[k].church, ops[k].bank, manual).None?
  }

  /** The `k`-th step undoes the pair of the manual entry. */
  predicate UndoesAt(l: Ledger, ops: seq<Step>, k: nat, manual: Id) {
    && k < |ops| && ops[k].Undoing? && ops[k].manual == manual
    && Undo(Run(l, ops[..k]), ops[k].church, manual).Success?
  }

  /** The manual entry was reconciled at `k`, and not undone after it. */
  ghost predicate LinkedSince(l: Ledger, ops: seq<Step>, manual: Id, k: nat) {
    LinksAt(l, ops, k, manual) && forall j: nat :: k < j ==> !UndoesAt(l, ops, j, manual)
  }

  ghost predicate LinkedMeanwhile(l: Ledger, ops: seq<Step>, manual: Id) {
    exists k :: LinkedSince(l, ops, manual, k)
  }

  lemma SameEarlier(l: Ledger, ops: seq<Step>, k: nat, manual: Id)
    requires k < |ops| - 1
    ensures LinksAt(l, ops, k, manual) <==> LinksAt(l, ops[..|ops| - 1], k, manual)
    ensures UndoesAt(l, ops, k, manual) <==> UndoesAt(l, ops[..|ops| - 1], k, manual)
  {
    assert ops[..|ops| - 1][..k] == ops[..k];
  }

  lemma MeanwhileStep(l: Ledger, ops: seq<Step>, manual: Id)
    requires ops != []
    ensures var n := |ops| - 1;
      LinkedMeanwhile(l, ops, manual) <==>
      LinksAt(l, ops, n, manual) || (LinkedMeanwhile(l, ops[..n], manual) && !UndoesAt(l, ops, n, manual))
  {
    var n := |ops| - 1;
    forall k: nat | k < n
      ensures LinksAt(l, ops, k, manual) <==> LinksAt(l, ops[..n], k, manual)
      ensures UndoesAt(l, ops, k, manual) <==> UndoesAt(l, ops[..n], k, manual)
    {
      SameEarlier(l, ops, k, manual);
    }
    if LinksAt(l, ops, n, manual) {
      assert LinkedSince(l, ops, manual, n);
    }
    if k :| LinkedSince(l, ops[..n], manual, k) && !UndoesAt(l, ops, n, manual) {
      assert LinkedSince(l, ops, manual, k);
    }
    if k :| LinkedSince(l, ops, manual, k) && k != n {
      assert LinkedSince(l, ops[..n], manual, k);
    }
  }

  lemma StepLinks(l: Ledger, op: Step, manual: Id)
    requires manual in l
    ensures manual in Apply(l, op)
    ensures Apply(l, op)[manual].reconciledWith.Some? <==>
      (op.Reconciling? && op.manual == manual && Refusal(l, op.church, op.bank, manual).None?)
      || (l[manual].reconciledWith.Some?
        && !(op.Undoing? && op.manual == manual && Undo(l, op.church, manual).Success?))
  {
  }

  /** An entry not reconciled at first is reconciled after a run exactly when it was
      reconciled in it and not undone since. */
  lemma {:induction false} LinkedThen(l: Ledger, ops: seq<Step>, manual: Id)
    requires manual in l && l[manual].reconciledWith.None?
    ensures manual in Run(l, ops)
    ensures Run(l, ops)[manual].reconciledWith.Some? <==> LinkedMeanwhile(l, ops, manual)
  {
    if ops == [] {
    } else {
      var n := |ops| - 1;
      LinkedThen(l, ops[..n], manual);
      MeanwhileStep(l, ops, manual);
      StepLinks(Run(l, ops[..n]), ops[n], manual);
    }
  }

  lemma MarkedLinks(l: Ledger, manual: Id, notInBank: bool)
    requires Linked(l) && manual in l
    ensures Linked(l[manual := l[manual].(notInBank := notInBank)]) <==> !(notInBank && l[manual].reconciledWith.Some?)
  {
    var l' := l[manual := l[manual].(notInBank := notInBank)];
    if notInBank && l[manual].reconciledWith.Some? {
      assert !GoodLink(l', manual);
    } else {
      forall m | m in l'
        ensures GoodLink(l', m)
      {
        assert GoodLink(l, m);
      }
    }
  }

  /** `marcarNaoConsta` reads the entry and writes it in two steps. Whatever steps come in
      between, the late write keeps the links good exactly when it takes the mark off, or the
      entry was not reconciled meanwhile, or that was undone before the write. */
  lemma LateMark(l: Ledger, church: Id, manual: Id, notInBank: bool, between: seq<Step>)
    requires Linked(l) && Mark(l, church, manual, notInBank).Success?
    ensures manual in Run(l, between)
    ensures Linked(Run(l, between)[manual := Run(l, between)[manual].(notInBank := notInBank)]) <==>
      !(notInBank && LinkedMeanwhile(l, between, manual))
  {
    RunKeepsLinks(l, between);
    LinkedThen(l, between, manual);
    MarkedLinks(Run(l, between), manual, notInBank);
  }

  /** It does happen: the entry is reconciled between the reading and the writing, and ends up
      both reconciled and marked as not in the bank. */
  lemma MarkedAndLinked()
    ensures var bank := Entry(1, Bank, true, 500, 0, None, 1, false, false, None, false);
      var manual := Entry(1, Manual, true, 500, 0, None, 2, false, false, None, false);
      var l := map[1 := bank, 2 := manual];
      var now := Run(l, [Reconciling(1, 1, 2)]);
      && Linked(l) && Mark(l, 1, 2, true).Success?
      && 2 in now && now[2].reconciledWith == Some(1) && !Linked(now[2 := now[2].(notInBank := true)])
  {
    var bank := Entry(1, Bank, true, 500, 0, None, 1, false, false, None, false);
    var manual := Entry(1, Manual, true, 500, 0, None, 2, false, false, None, false);
    var l := map[1 := bank, 2 := manual];
    var ops := [Reconciling(1, 1, 2)];
    assert ops[..0] == [] && ops[..|ops| - 1] == ops[..0];
    assert Run(l, ops[..0]) == l;
    assert LinksAt(l, ops, 0, 2);
    assert LinkedSince(l, ops, 2, 0);
    LateMark(l, 1, 2, true, ops);
    assert Run(l, ops) == Link(l, 1, 2);
  }

  // ---- the listing ---------------------------------------------------------

  datatype Period = Period(church: Id, from: int, to: int)

  predicate InPeriod(l: Ledger, p: Period, id: Id) {
    && id in l && l[id].church == p.church
    && l[id].administrative && !l[id].distributed
    && p.from <= l[id].day <= p.to
  }

  /** `id` is the other end of a pair of which one end is in the period. */
  ghost predicate OtherEnd(l: Ledger, p: Period, id: Id) {
    && id in l && l[id].church == p.church
    && exists x :: InPeriod(l, p, x) && (l[x].reconciledWith == Some(id) || l[id].reconciledWith == Some(x))
  }

  /** `all` is the database's answer to the two queries of `listar`, in some order. */
  ghost predicate Lists(l: Ledger, p: Period, all: seq<Id>) {
    && (forall j, k :: 0 <= j < k < |all| ==> all[j] != all[k])
    && forall id :: id in all <==> InPeriod(l, p, id) || OtherEnd(l, p, id)
  }

  predicate PendingBank(l: Ledger, id: Id) {
    id in l && l[id].source == Bank && !IsReconciled(l, id)
  }

  predicate PendingManual(l: Ledger, id: Id) {
    id in l && l[id].source == Manual && !IsReconciled(l, id) && !l[id].notInBank
  }

  /** `paraSugestao` */
  function Facts(l: Ledger, id: Id): M.Entry
    requires id in l
  {
    M.Entry(id, l[id].income, l[id].cents, l[id].day, l[id].tither)
  }

  function BankSide(l: Ledger, all: seq<Id>): seq<M.Entry> {
    if all == [] then []
    else
      var id := all[|all| - 1];
      BankSide(l, all[..|all| - 1]) + if PendingBank(l, id) then [Facts(l, id)] else []
  }

  function ManualSide(l: Ledger, all: seq<Id>): seq<M.Entry> {
    if all == [] then []
    else
      var id := all[|all| - 1];
      ManualSide(l, all[..|all| - 1]) + if PendingManual(l, id) then [Facts(l, id)] else []
  }

  /** The suggested lines of the listing. */
  function Suggested(l: Ledger, all: seq<Id>): seq<M.Pair> {
    M.Suggest(BankSide(l, all), ManualSide(l, all), M.TOLERANCE)
  }

  lemma {:induction false} SidesAre(l: Ledger, all: seq<Id>, e: M.Entry)
    ensures e in BankSide(l, all) <==> e.id in all && PendingBank(l, e.id) && e == Facts(l, e.id)
    ensures e in ManualSide(l, all) <==> e.id in all && PendingManual(l, e.id) && e == Facts(l, e.id)
  {
    if all == [] {
    } else {
      var n := |all| - 1;
      SidesAre(l, all[..n], e);
      assert all == all[..n] + [all[n]];
    }
  }

  lemma SidesKeyed(l: Ledger, all: seq<Id>)
    ensures M.Keyed(BankSide(l, all), ManualSide(l, all))
  {
    forall e | e in BankSide(l, all) || e in ManualSide(l, all)
      ensures e.id in l && e == Facts(l, e.id)
      ensures e in BankSide(l, all) ==> l[e.id].source == Bank
      ensures e in ManualSide(l, all) ==> l[e.id].source == Manual
    {
      SidesAre(l, all, e);
    }
  }

  /** `p` can still be reconciled. */
  predicate Open(l: Ledger, p: M.Pair) {
    && PendingBank(l, p.bank) && PendingManual(l, p.manual)
    && l[p.bank].income == l[p.manual].income
  }

  lemma SuggestedOpen(l: Ledger, all: seq<Id>)
    ensures M.Disjoint(Suggested(l, all))
    ensures forall k :: 0 <= k < |Suggested(l, all)| ==>
      var p := Suggested(l, all)[k]; Open(l, p) && p.bank in all && p.manual in all
  {
    SidesKeyed(l, all);
    M.SuggestIsMatching(BankSide(l, all), ManualSide(l, all), M.TOLERANCE);
    var pairs := Suggested(l, all);
    forall k | 0 <= k < |pairs|
      ensures Open(l, pairs[k]) && pairs[k].bank in all && pairs[k].manual in all
    {
      assert M.Legit(BankSide(l, all), ManualSide(l, all), M.TOLERANCE, pairs[k]);
      var b, m :| b in BankSide(l, all) && m in ManualSide(l, all)
        && b.id == pairs[k].bank && m.id == pairs[k].manual && M.Qualifies(b, m, M.TOLERANCE);
      SidesAre(l, all, b);
      SidesAre(l, all, m);
    }
  }

  // ---- reconciling every suggestion ----------------------------------------

  /** The pairs are reconciled one after the other. */
  function LinkAll(l: Ledger, pairs: seq<M.Pair>): Ledger {
    if pairs == [] then l
    else
      var before := LinkAll(l, pairs[..|pairs| - 1]);
      var p := pairs[|pairs| - 1];
      if p.bank in before && p.manual in before && p.bank != p.manual then Link(before, p.bank, p.manual)
      else before
  }

  /** Nothing the listing or the suggestion looks at changed, but links and marks. */
  ghost predicate SameFacts(l: Ledger, l': Ledger) {
    && l'.Keys == l.Keys
    && forall id :: id in l ==>
      && l'[id].church == l[id].church && l'[id].source == l[id].source
      && l'[id].income == l[id].income && l'[id].cents == l[id].cents && l'[id].day == l[id].day
      && l'[id].administrative == l[id].administrative && l'[id].distributed == l[id].distributed
  }

  predicate Names(pairs: seq<M.Pair>, manual: Id) {
    exists k :: 0 <= k < |pairs| && pairs[k].manual == manual
  }

  /** Exactly the given pairs were linked. */
  ghost predicate LinkedSoFar(l: Ledger, pairs: seq<M.Pair>, l': Ledger) {
    && SameFacts(l, l')
    && (forall id :: id in l && !Names(pairs, id) ==>
      l'[id].reconciledWith == l[id].reconciledWith && l'[id].notInBank == l[id].notInBank)
    && (forall k :: 0 <= k < |pairs| ==>
      pairs[k].manual in l && l'[pairs[k].manual].reconciledWith == Some(pairs[k].bank))
  }

  lemma LinkTouches(l: Ledger, bank: Id, manual: Id, id: Id)
    requires bank in l && manual in l && bank != manual && id in l
    ensures SameFacts(l, Link(l, bank, manual))
    ensures Link(l, bank, manual)[id].reconciledWith == if id == manual then Some(bank) else l[id].reconciledWith
    ensures id != manual ==> Link(l, bank, manual)[id].notInBank == l[id].notInBank
  {
  }

  lemma NamesGrow(pairs: seq<M.Pair>, p: M.Pair, id: Id)
    ensures Names(pairs + [p], id) <==> Names(pairs, id) || p.manual == id
  {
    var more := pairs + [p];
    assert more[|pairs|] == p;
    if Names(pairs, id) {
      var k :| 0 <= k < |pairs| && pairs[k].manual == id;
      assert more[k].manual == id;
    }
  }

  lemma LinkOneMore(l: Ledger, pairs: seq<M.Pair>, before: Ledger, p: M.Pair)
    requires LinkedSoFar(l, pairs, before) && M.Disjoint(pairs + [p])
    requires p.bank in l && p.manual in l && p.bank != p.manual
    ensures LinkedSoFar(l, pairs + [p], Link(before, p.bank, p.manual))
  {
    var l' := Link(before, p.bank, p.manual);
    var more := pairs + [p];
    LinkTouches(before, p.bank, p.manual, p.bank);
    assert SameFacts(l, l');
    assert more[|pairs|] == p;
    forall id | id in l && !Names(more, id)
      ensures l'[id].reconciledWith == l[id].reconciledWith && l'[id].notInBank == l[id].notInBank
    {
      LinkTouches(before, p.bank, p.manual, id);
      NamesGrow(pairs, p, id);
    }
    forall k | 0 <= k < |more|
      ensures more[k].manual in l && l'[more[k].manual].reconciledWith == Some(more[k].bank)
    {
      LinkTouches(before, p.bank, p.manual, more[k].manual);
    }
  }

  lemma {:induction false} LinkAllLinks(l: Ledger, pairs: seq<M.Pair>)
    requires M.Disjoint(pairs) && forall k :: 0 <= k < |pairs| ==> Open(l, pairs[k])
    ensures LinkedSoFar(l, pairs, LinkAll(l, pairs))
  {
    if pairs == [] {
    } else {
      var n := |pairs| - 1;
      LinkAllLinks(l, pairs[..n]);
      assert pairs == pairs[..n] + [pairs[n]];
      assert Open(l, pairs[n]);
      assert forall k :: 0 <= k < n ==> Open(l, pairs[k]) && pairs[..n][k] == pairs[k];
      LinkOneMore(l, pairs[..n], LinkAll(l, pairs[..n]), pairs[n]);
    }
  }

  /** A bank entry is pointed to after the links iff it was before, or it is in a pair. */
  lemma PointedAfter(l: Ledger, pairs: seq<M.Pair>, l': Ledger, b: Id)
    requires LinkedSoFar(l, pairs, l') && forall k :: 0 <= k < |pairs| ==> Open(l, pairs[k])
    ensures PointedTo(l', b) <==> PointedTo(l, b) || exists k :: 0 <= k < |pairs| && pairs[k].bank == b
  {
    forall m | m in l && l'[m].reconciledWith == Some(b)
      ensures l[m].reconciledWith == Some(b) || exists k :: 0 <= k < |pairs| && pairs[k].bank == b
    {
      if Names(pairs, m) {
        var k :| 0 <= k < |pairs| && pairs[k].manual == m;
        assert l'[pairs[k].manual].reconciledWith == Some(pairs[k].bank);
      }
    }
    if m :| m in l && l[m].reconciledWith == Some(b) {
      assert forall k :: 0 <= k < |pairs| ==> Open(l, pairs[k]) && pairs[k].manual != m;
      assert !Names(pairs, m);
      assert l'[m].reconciledWith == Some(b);
    }
    if k :| 0 <= k < |pairs| && pairs[k].bank == b {
      assert l'[pairs[k].manual].reconciledWith == Some(b);
    }
  }

  /** No suggested pair is refused, however many were reconciled before it. */
  lemma NextSucceeds(l: Ledger, church: Id, pairs: seq<M.Pair>, k: nat)
    requires M.Disjoint(pairs) && forall j :: 0 <= j < |pairs| ==> Open(l, pairs[j])
    requires k < |pairs| && Open(l, pairs[k])
    requires l[pairs[k].bank].church == church && l[pairs[k].manual].church == church
    ensures Reconcile(LinkAll(l, pairs[..k]), church, pairs[k].bank, pairs[k].manual) ==
      Success(LinkAll(l, pairs[..k + 1]))
  {
    var done := pairs[..k];
    LinkAllLinks(l, done);
    PointedAfter(l, done, LinkAll(l, done), pairs[k].bank);
    assert pairs[..k + 1][..k] == done;
    assert Open(l, pairs[k]);
    assert forall j :: 0 <= j < k ==>
      done[j] == pairs[j] && done[j].bank != pairs[k].bank && done[j].manual != pairs[k].manual;
    assert !Names(done, pairs[k].manual) && !Names(done, pairs[k].bank);
  }

  /** What is pending after the links was pending, and listed, before them. */
  lemma StillPending(l: Ledger, p: Period, pairs: seq<M.Pair>, l': Ledger, again: seq<Id>, id: Id)
    requires LinkedSoFar(l, pairs, l') && Lists(l', p, again) && id in again
    requires forall k :: 0 <= k < |pairs| ==> Open(l, pairs[k])
    requires PendingBank(l', id) || PendingManual(l', id)
    ensures InPeriod(l, p, id)
    ensures PendingBank(l', id) ==> PendingBank(l, id)
    ensures PendingManual(l', id) ==> PendingManual(l, id)
    ensures forall k :: 0 <= k < |pairs| ==> pairs[k].bank != id && pairs[k].manual != id
  {
    OtherEndsAreReconciled(l', p, id);
    PointedAfter(l, pairs, l', id);
    assert forall k :: 0 <= k < |pairs| ==> l'[pairs[k].manual].reconciledWith.Some?;
    assert forall k :: 0 <= k < |pairs| ==> pairs[k].manual != id;
    assert !Names(pairs, id);
  }

  lemma OtherEndsAreReconciled(l: Ledger, p: Period, id: Id)
    ensures OtherEnd(l, p, id) ==> IsReconciled(l, id)
  {
  }

  /** `pairs` are the suggestions, in whatever order they are applied. */
  ghost predicate Applies(l: Ledger, all: seq<Id>, pairs: seq<M.Pair>) {
    M.Disjoint(pairs) && multiset(pairs) == multiset(Suggested(l, all))
  }

  lemma AppliedOpen(l: Ledger, all: seq<Id>, pairs: seq<M.Pair>)
    requires Applies(l, all, pairs)
    ensures forall q :: q in pairs <==> q in Suggested(l, all)
    ensures forall k :: 0 <= k < |pairs| ==> Open(l, pairs[k]) && pairs[k].bank in all && pairs[k].manual in all
  {
    SuggestedOpen(l, all);
    forall q
      ensures q in pairs <==> q in Suggested(l, all)
    {
      assert q in pairs <==> q in multiset(pairs);
    }
    forall k | 0 <= k < |pairs|
      ensures Open(l, pairs[k]) && pairs[k].bank in all && pairs[k].manual in all
    {
      assert pairs[k] in Suggested(l, all);
    }
  }

  /** No pair of entries still pending qualifies. */
  lemma NoPairQualifies(l: Ledger, p: Period, all: seq<Id>, pairs: seq<M.Pair>, again: seq<Id>, b: M.Entry, m: M.Entry)
    requires Lists(l, p, all) && Applies(l, all, pairs) && Lists(LinkAll(l, pairs), p, again)
    requires b in BankSide(LinkAll(l, pairs), again) && m in ManualSide(LinkAll(l, pairs), again)
    ensures !M.Qualifies(b, m, M.TOLERANCE)
  {
    var l' := LinkAll(l, pairs);
    AppliedOpen(l, all, pairs);
    LinkAllLinks(l, pairs);
    SidesAre(l', again, b);
    SidesAre(l', again, m);
    StillPending(l, p, pairs, l', again, b.id);
    StillPending(l, p, pairs, l', again, m.id);
    var b', m' := Facts(l, b.id), Facts(l, m.id);
    SidesAre(l, all, b');
    SidesAre(l, all, m');
    SomeSuggestion(l, all, b', m');
    forall q | q in Suggested(l, all)
      ensures q.bank != b'.id && q.manual != m'.id
    {
      assert q in pairs;
    }
  }

  lemma SomeSuggestion(l: Ledger, all: seq<Id>, b: M.Entry, m: M.Entry)
    requires b in BankSide(l, all) && m in ManualSide(l, all)
    ensures M.Qualifies(b, m, M.TOLERANCE) ==>
      exists q :: q in Suggested(l, all) && (q.bank == b.id || q.manual == m.id)
  {
    SidesKeyed(l, all);
    if M.Qualifies(b, m, M.TOLERANCE) {
      M.SuggestIsMaximal(BankSide(l, all), ManualSide(l, all), M.TOLERANCE, b, m);
    }
  }

  lemma SomePairQualifies(l: Ledger, all: seq<Id>)
    ensures Suggested(l, all) != [] ==>
      exists b, m :: b in BankSide(l, all) && m in ManualSide(l, all) && M.Qualifies(b, m, M.TOLERANCE)
  {
    SidesKeyed(l, all);
    M.SuggestIsMatching(BankSide(l, all), ManualSide(l, all), M.TOLERANCE);
    if Suggested(l, all) != [] {
      assert M.Legit(BankSide(l, all), ManualSide(l, all), M.TOLERANCE, Suggested(l, all)[0]);
    }
  }

  /** After every suggestion of a period was reconciled, listing the period again, in
      any order, suggests nothing. */
  lemma NothingLeftToSuggest(l: Ledger, p: Period, all: seq<Id>, pairs: seq<M.Pair>, again: seq<Id>)
    requires Lists(l, p, all) && Applies(l, all, pairs) && Lists(LinkAll(l, pairs), p, again)
    ensures Suggested(LinkAll(l, pairs), again) == []
  {
    var l' := LinkAll(l, pairs);
    forall b, m | b in BankSide(l', again) && m in ManualSide(l', again)
      ensures !M.Qualifies(b, m, M.TOLERANCE)
    {
      NoPairQualifies(l, p, all, pairs, again, b, m);
    }
    SomePairQualifies(l', again);
  }

  // ---- the lines of the listing --------------------------------------------

  /** `EstadoDaLinha` */
  datatype State = IsSuggested | OnlyBank | OnlyManual | NotInBank | Reconciled

  datatype Line = Line(state: State, bank: Option<Id>, manual: Option<Id>)

  /** `ORDEM` */
  function Rank(state: State): int {
    match state
    case IsSuggested => 0
    case OnlyBank => 1
    case OnlyManual => 2
    case NotInBank => 3
    case Reconciled => 4
  }

  predicate Mentions(line: Line, id: Id) {
    line.bank == Some(id) || line.manual == Some(id)
  }

  /** How many lines show an entry. */
  function Shown(lines: seq<Line>, id: Id): nat {
    if lines == [] then 0
    else Shown(lines[..|lines| - 1], id) + if Mentions(lines[|lines| - 1], id) then 1 else 0
  }

  /** One loop of `listar`: a line for each element that `pick` gives one. */
  function LinesOf<T>(s: seq<T>, pick: T -> Option<Line>): seq<Line> {
    if s == [] then []
    else
      var line := pick(s[|s| - 1]);
      LinesOf(s[..|s| - 1], pick) + if line.Some? then [line.value] else []
  }

  function PickReconciled(l: Ledger, all: seq<Id>): Id -> Option<Line> {
    (m: Id) =>
      if m in l && l[m].source == Manual && l[m].reconciledWith.Some? then
        var b := l[m].reconciledWith.value;
        Some(Line(Reconciled, if b in all then Some(b) else None, Some(m)))
      else None
  }

  function PickSuggested(): M.Pair -> Option<Line> {
    (p: M.Pair) => Some(Line(IsSuggested, Some(p.bank), Some(p.manual)))
  }

  predicate InPairs(pairs: seq<M.Pair>, id: Id) {
    exists k :: 0 <= k < |pairs| && (pairs[k].bank == id || pairs[k].manual == id)
  }

  function PickBank(l: Ledger, pairs: seq<M.Pair>): Id -> Option<Line> {
    (b: Id) => if PendingBank(l, b) && !InPairs(pairs, b) then Some(Line(OnlyBank, Some(b), None)) else None
  }

  function PickManual(l: Ledger, pairs: seq<M.Pair>): Id -> Option<Line> {
    (m: Id) => if PendingManual(l, m) && !InPairs(pairs, m) then Some(Line(OnlyManual, None, Some(m))) else None
  }

  function PickMarked(l: Ledger): Id -> Option<Line> {
    (m: Id) =>
      if m in l && l[m].source == Manual && !IsReconciled(l, m) && l[m].notInBank
      then Some(Line(NotInBank, None, Some(m)))
      else None
  }

  function Unsorted(l: Ledger, all: seq<Id>): seq<Line> {
    var pairs := Suggested(l, all);
    LinesOf(all, PickReconciled(l, all)) + LinesOf(pairs, PickSuggested())
    + LinesOf(all, PickBank(l, pairs)) + LinesOf(all, PickManual(l, pairs)) + LinesOf(all, PickMarked(l))
  }

  /** The date a line is sorted by, newest first. */
  function ByDate(l: Ledger): Line -> int {
    (line: Line) =>
      if line.bank.Some? && line.bank.value in l then -l[line.bank.value].day
      else if line.manual.Some? && line.manual.value in l then -l[line.manual.value].day
      else 0
  }

  function ByState(): Line -> int {
    (line: Line) => Rank(line.state)
  }

  /** `listar`: the stable sort by state, and by date within a state. */
  function Lines(l: Ledger, all: seq<Id>): seq<Line> {
    SortBy(SortBy(Unsorted(l, all), ByDate(l)), ByState())
  }

  lemma {:induction false} ShownConcat(a: seq<Line>, b: seq<Line>, id: Id)
    ensures Shown(a + b, id) == Shown(a, id) + Shown(b, id)
  {
    if b == [] {
      assert a + b == a;
    } else {
      var n := |b| - 1;
      ShownConcat(a, b[..n], id);
      assert (a + b)[..|a| + n] == a + b[..n];
    }
  }

  lemma {:induction false} ShownInsert(lines: seq<Line>, x: Line, key: Line -> int, id: Id)
    ensures Shown(Insert(lines, x, key), id) == Shown(lines, id) + if Mentions(x, id) then 1 else 0
  {
    ShownConcat(lines, [x], id);
    assert [x][..0] == [];
    assert Shown([x], id) == if Mentions(x, id) then 1 else 0;
    if lines != [] && key(lines[|lines| - 1]) > key(x) {
      var n := |lines| - 1;
      ShownInsert(lines[..n], x, key, id);
      var t := Insert(lines[..n], x, key);
      assert (t + [lines[n]])[..|t|] == t;
    }
  }

  lemma {:induction false} ShownSorted(lines: seq<Line>, key: Line -> int, id: Id)
    ensures Shown(SortBy(lines, key), id) == Shown(lines, id)
  {
    if lines == [] {
    } else {
      var n := |lines| - 1;
      ShownSorted(lines[..n], key, id);
      ShownInsert(SortBy(lines[..n], key), lines[n], key, id);
    }
  }

  predicate Picks<T>(pick: T -> Option<Line>, x: T, id: Id) {
    pick(x).Some? && Mentions(pick(x).value, id)
  }

  lemma {:induction false} ShownNever<T>(s: seq<T>, pick: T -> Option<Line>, id: Id)
    requires forall k :: 0 <= k < |s| ==> !Picks(pick, s[k], id)
    ensures Shown(LinesOf(s, pick), id) == 0
  {
    if s == [] {
    } else {
      var n := |s| - 1;
      ShownNever(s[..n], pick, id);
      ShownMore(s, pick, id);
      assert !Picks(pick, s[n], id);
    }
  }

  lemma ShownMore<T>(s: seq<T>, pick: T -> Option<Line>, id: Id)
    requires s != []
    ensures var n := |s| - 1;
      Shown(LinesOf(s, pick), id) == Shown(LinesOf(s[..n], pick), id) + if Picks(pick, s[n], id) then 1 else 0
  {
    var before := LinesOf(s[..|s| - 1], pick);
    var line := pick(s[|s| - 1]);
    if line.Some? {
      assert (before + [line.value])[..|before|] == before;
    } else {
      assert before + [] == before;
    }
  }

  lemma {:induction false} ShownOnce<T>(s: seq<T>, pick: T -> Option<Line>, id: Id, k: nat)
    requires k < |s| && Picks(pick, s[k], id)
    requires forall j :: 0 <= j < |s| && j != k ==> !Picks(pick, s[j], id)
    ensures Shown(LinesOf(s, pick), id) == 1
  {
    var n := |s| - 1;
    ShownMore(s, pick, id);
    if k == n {
      ShownNever(s[..n], pick, id);
    } else {
      ShownOnce(s[..n], pick, id, k);
      assert !Picks(pick, s[n], id);
    }
  }

  /** A line of one entry shows that entry and no other. */
  lemma ShownOwn(all: seq<Id>, pick: Id -> Option<Line>, id: Id)
    requires (forall j, k :: 0 <= j < k < |all| ==> all[j] != all[k]) && id in all
    requires forall x: Id :: Picks(pick, x, id) ==> x == id
    ensures Shown(LinesOf(all, pick), id) == if Picks(pick, id, id) then 1 else 0
  {
    var k :| 0 <= k < |all| && all[k] == id;
    if Picks(pick, id, id) {
      ShownOnce(all, pick, id, k);
    } else {
      ShownNever(all, pick, id);
    }
  }

  /** Both ends of a pair with one end in the listing are in the listing. */
  lemma PairListed(l: Ledger, p: Period, all: seq<Id>, b: Id, m: Id)
    requires Linked(l) && Lists(l, p, all) && m in l && l[m].reconciledWith == Some(b)
    ensures b in all <==> m in all
  {
    assert GoodLink(l, m) && GoodLink(l, b);
    assert InPeriod(l, p, b) ==> OtherEnd(l, p, m);
    assert InPeriod(l, p, m) ==> OtherEnd(l, p, b);
    if OtherEnd(l, p, b) {
      var x :| InPeriod(l, p, x) && (l[x].reconciledWith == Some(b) || l[b].reconciledWith == Some(x));
      assert x == m;
    }
    if OtherEnd(l, p, m) {
      var x :| InPeriod(l, p, x) && (l[x].reconciledWith == Some(m) || l[m].reconciledWith == Some(x));
      assert GoodLink(l, x);
      assert x == b;
    }
  }

  lemma ReconciledShown(l: Ledger, p: Period, all: seq<Id>, id: Id)
    requires Linked(l) && Lists(l, p, all) && id in all
    ensures Shown(LinesOf(all, PickReconciled(l, all)), id) == if IsReconciled(l, id) then 1 else 0
  {
    var pick := PickReconciled(l, all);
    assert GoodLink(l, id);
    if l[id].reconciledWith.Some? {
      ReconciledOwner(l, all, id, id);
    } else if m :| m in l && l[m].reconciledWith == Some(id) {
      PairListed(l, p, all, id, m);
      ReconciledOwner(l, all, id, m);
    } else {
      ShownNever(all, pick, id);
    }
  }

  lemma ReconciledOwner(l: Ledger, all: seq<Id>, id: Id, m: Id)
    requires Linked(l) && m in all && m in l && id in all
    requires forall j, k :: 0 <= j < k < |all| ==> all[j] != all[k]
    requires l[m].reconciledWith.Some? && (id == m || l[m].reconciledWith == Some(id))
    ensures Shown(LinesOf(all, PickReconciled(l, all)), id) == 1
  {
    var pick := PickReconciled(l, all);
    assert GoodLink(l, m);
    forall x | Picks(pick, x, id)
      ensures x == m
    {
      assert GoodLink(l, x);
    }
    var k :| 0 <= k < |all| && all[k] == m;
    ShownOnce(all, pick, id, k);
  }

  lemma SuggestedShown(l: Ledger, all: seq<Id>, id: Id)
    ensures Shown(LinesOf(Suggested(l, all), PickSuggested()), id) == if InPairs(Suggested(l, all), id) then 1 else 0
  {
    var pairs := Suggested(l, all);
    SuggestedOpen(l, all);
    if k :| 0 <= k < |pairs| && (pairs[k].bank == id || pairs[k].manual == id) {
      assert Open(l, pairs[k]);
      forall j | 0 <= j < |pairs| && j != k
        ensures !Picks(PickSuggested(), pairs[j], id)
      {
        assert Open(l, pairs[j]);
      }
      ShownOnce(pairs, PickSuggested(), id, k);
    } else {
      ShownNever(pairs, PickSuggested(), id);
    }
  }

  lemma ShownParts(l: Ledger, all: seq<Id>, id: Id)
    ensures var pairs := Suggested(l, all);
      Shown(Lines(l, all), id) ==
        Shown(LinesOf(all, PickReconciled(l, all)), id) + Shown(LinesOf(pairs, PickSuggested()), id)
        + Shown(LinesOf(all, PickBank(l, pairs)), id) + Shown(LinesOf(all, PickManual(l, pairs)), id)
        + Shown(LinesOf(all, PickMarked(l)), id)
  {
    var pairs := Suggested(l, all);
    var s1, s2 := LinesOf(all, PickReconciled(l, all)), LinesOf(pairs, PickSuggested());
    var s3, s4, s5 := LinesOf(all, PickBank(l, pairs)), LinesOf(all, PickManual(l, pairs)), LinesOf(all, PickMarked(l));
    ShownConcat(s1, s2, id);
    ShownConcat(s1 + s2, s3, id);
    ShownConcat(s1 + s2 + s3, s4, id);
    ShownConcat(s1 + s2 + s3 + s4, s5, id);
    ShownSorted(Unsorted(l, all), ByDate(l), id);
    ShownSorted(SortBy(Unsorted(l, all), ByDate(l)), ByState(), id);
  }

  lemma PickMeaning(l: Ledger, pairs: seq<M.Pair>, id: Id)
    requires id in l
    ensures forall x: Id :: Picks(PickBank(l, pairs), x, id) <==> x == id && PendingBank(l, id) && !InPairs(pairs, id)
    ensures forall x: Id :: Picks(PickManual(l, pairs), x, id) <==>
      x == id && PendingManual(l, id) && !InPairs(pairs, id)
    ensures forall x: Id :: Picks(PickMarked(l), x, id) <==>
      x == id && l[id].source == Manual && !IsReconciled(l, id) && l[id].notInBank
  {
  }

  /** The listing shows every entry of the period, and the other ends of its pairs, in
      exactly one line. */
  lemma EveryEntryOnce(l: Ledger, p: Period, all: seq<Id>, id: Id)
    requires Linked(l) && Lists(l, p, all) && id in all
    ensures Shown(Lines(l, all), id) == 1
  {
    var pairs := Suggested(l, all);
    ShownParts(l, all, id);
    ReconciledShown(l, p, all, id);
    SuggestedShown(l, all, id);
    PickMeaning(l, pairs, id);
    ShownOwn(all, PickBank(l, pairs), id);
    ShownOwn(all, PickManual(l, pairs), id);
    ShownOwn(all, PickMarked(l), id);
    PairsPending(l, all, id);
  }

  lemma PairsPending(l: Ledger, all: seq<Id>, id: Id)
    ensures InPairs(Suggested(l, all), id) ==> PendingBank(l, id) || PendingManual(l, id)
  {
    SuggestedOpen(l, all);
    var pairs := Suggested(l, all);
    if k :| 0 <= k < |pairs| && (pairs[k].bank == id || pairs[k].manual == id) {
      assert Open(l, pairs[k]);
    }
  }

  // ---- the suggested lines, in the order they are shown --------------------

  function PairOf(line: Line): seq<M.Pair> {
    if line.state == IsSuggested && line.bank.Some? && line.manual.Some?
    then [M.Pair(line.bank.value, line.manual.value)] else []
  }

  function LinePairs(lines: seq<Line>): seq<M.Pair> {
    if lines == [] then [] else LinePairs(lines[..|lines| - 1]) + PairOf(lines[|lines| - 1])
  }

  lemma LinePairsMore(lines: seq<Line>, x: Line)
    ensures LinePairs(lines + [x]) == LinePairs(lines) + PairOf(x)
  {
    assert (lines + [x])[..|lines|] == lines;
  }

  lemma Associates(a: seq<M.Pair>, b: seq<M.Pair>, c: seq<M.Pair>)
    ensures (a + b) + c == a + (b + c)
  {
  }

  lemma {:induction false} LinePairsConcat(a: seq<Line>, b: seq<Line>)
    ensures LinePairs(a + b) == LinePairs(a) + LinePairs(b)
  {
    if b == [] {
      assert a + b == a;
    } else {
      var n := |b| - 1;
      LinePairsConcat(a, b[..n]);
      assert a + b == a + b[..n] + [b[n]];
      assert b == b[..n] + [b[n]];
      LinePairsMore(a + b[..n], b[n]);
      LinePairsMore(b[..n], b[n]);
      Associates(LinePairs(a), LinePairs(b[..n]), PairOf(b[n]));
    }
  }

  lemma {:induction false} LinePairsInsert(lines: seq<Line>, x: Line, key: Line -> int)
    ensures multiset(LinePairs(Insert(lines, x, key))) == multiset(LinePairs(lines)) + multiset(PairOf(x))
  {
    if lines == [] || key(lines[|lines| - 1]) <= key(x) {
      LinePairsMore(lines, x);
    } else {
      var n := |lines| - 1;
      LinePairsInsert(lines[..n], x, key);
      LinePairsMore(Insert(lines[..n], x, key), lines[n]);
    }
  }

  lemma {:induction false} LinePairsSorted(lines: seq<Line>, key: Line -> int)
    ensures multiset(LinePairs(SortBy(lines, key))) == multiset(LinePairs(lines))
  {
    if lines == [] {
    } else {
      var n := |lines| - 1;
      LinePairsSorted(lines[..n], key);
      LinePairsInsert(SortBy(lines[..n], key), lines[n], key);
    }
  }

  lemma {:induction false} LinePairsNone<T>(s: seq<T>, pick: T -> Option<Line>)
    requires forall x :: pick(x).Some? ==> pick(x).value.state != IsSuggested
    ensures LinePairs(LinesOf(s, pick)) == []
  {
    if s == [] {
    } else {
      var n := |s| - 1;
      LinePairsNone(s[..n], pick);
      var line := pick(s[n]);
      if line.Some? {
        LinePairsMore(LinesOf(s[..n], pick), line.value);
      } else {
        assert LinesOf(s[..n], pick) + [] == LinesOf(s[..n], pick);
      }
    }
  }

  lemma {:induction false} LinePairsAll(pairs: seq<M.Pair>)
    ensures LinePairs(LinesOf(pairs, PickSuggested())) == pairs
  {
    if pairs == [] {
    } else {
      var n := |pairs| - 1;
      LinePairsAll(pairs[..n]);
      LinePairsMore(LinesOf(pairs[..n], PickSuggested()), PickSuggested()(pairs[n]).value);
    }
  }

  lemma {:induction false} OnceInDisjoint(pairs: seq<M.Pair>, q: M.Pair)
    requires M.Disjoint(pairs)
    ensures multiset(pairs)[q] <= 1
  {
    if pairs == [] {
    } else {
      var n := |pairs| - 1;
      OnceInDisjoint(pairs[..n], q);
      assert pairs == pairs[..n] + [pairs[n]];
      assert pairs[n] == q ==> q !in pairs[..n];
      assert q in pairs[..n] <==> q in multiset(pairs[..n]);
    }
  }

  lemma DisjointReordered(a: seq<M.Pair>, b: seq<M.Pair>)
    requires M.Disjoint(a) && multiset(a) == multiset(b)
    ensures M.Disjoint(b)
  {
    forall i, j | 0 <= i < j < |b|
      ensures b[i].bank != b[j].bank && b[i].manual != b[j].manual
    {
      OnceInDisjoint(a, b[i]);
      assert b == b[..j] + [b[j]] + b[j + 1..];
      assert b[i] in multiset(b[..j]) && b[i] in multiset(b) && b[j] in multiset(b);
      assert b[i] in a && b[j] in a;
    }
  }

  /** The suggested lines are the suggestions, each once. */
  lemma LinesApply(l: Ledger, all: seq<Id>)
    ensures Applies(l, all, LinePairs(Lines(l, all)))
  {
    var pairs := Suggested(l, all);
    var s1, s2 := LinesOf(all, PickReconciled(l, all)), LinesOf(pairs, PickSuggested());
    var s3, s4, s5 := LinesOf(all, PickBank(l, pairs)), LinesOf(all, PickManual(l, pairs)), LinesOf(all, PickMarked(l));
    LinePairsNone(all, PickReconciled(l, all));
    LinePairsAll(pairs);
    LinePairsNone(all, PickBank(l, pairs));
    LinePairsNone(all, PickManual(l, pairs));
    LinePairsNone(all, PickMarked(l));
    LinePairsConcat(s1, s2);
    LinePairsConcat(s1 + s2, s3);
    LinePairsConcat(s1 + s2 + s3, s4);
    LinePairsConcat(s1 + s2 + s3 + s4, s5);
    LinePairsSorted(Unsorted(l, all), ByDate(l));
    LinePairsSorted(SortBy(Unsorted(l, all), ByDate(l)), ByState());
    SuggestedOpen(l, all);
    DisjointReordered(pairs, LinePairs(Lines(l, all)));
  }

  // ---- the service ---------------------------------------------------------

  class ReconciliationService {
    var entries: Ledger

    /** `conciliar`: the manual is written first, then the bank's entry. */
    method ReconcilePair(church: Id, bank: Id, manual: Id) returns (error: Option<Problem>)
      modifies this
      ensures error == Refusal(old(entries), church, bank, manual)
      ensures entries == if error.None? then Link(old(entries), bank, manual) else old(entries)
    {
      if !(bank in entries && entries[bank].church == church && manual in entries && entries[manual].church == church) {
        return Some(NotFound);
      }
      var b, m := entries[bank], entries[manual];
      if b.source != Bank {
        return Some(NotABankEntry);
      }
      if m.source != Manual {
        return Some(NotAManualEntry);
      }
      if b.income != m.income {
        return Some(DifferentTypes);
      }
      if PointedTo(entries, bank) || m.reconciledWith.Some? {
        return Some(AlreadyReconciled);
      }
      entries := entries[manual := m.(reconciledWith := Some(bank), notInBank := false)];
      entries := entries[bank := entries[bank].(
        category := m.category,
        tither := if m.tither.Some? then m.tither else b.tither)];
      return None;
    }

    /** `desfazer` */
    method UndoPair(church: Id, manual: Id) returns (error: Option<Problem>)
      modifies this
      ensures entries == Apply(old(entries), Undoing(church, manual))
      ensures error.None? <==> Undo(old(entries), church, manual).Success?
    {
      if !(manual in entries && entries[manual].church == church && entries[manual].reconciledWith.Some?) {
        return Some(NotFound);
      }
      entries := entries[manual := entries[manual].(reconciledWith := None)];
      return None;
    }

    /** `marcarNaoConsta` */
    method MarkNotInBank(church: Id, manual: Id, notInBank: bool) returns (error: Option<Problem>)
      modifies this
      ensures entries == Apply(old(entries), Marking(church, manual, notInBank))
      ensures error.None? <==> Mark(old(entries), church, manual, notInBank).Success?
    {
      if !(manual in entries && entries[manual].church == church) {
        return Some(NotFound);
      }
      if entries[manual].source != Manual {
        return Some(NotAManualEntry);
      }
      if entries[manual].reconciledWith.Some? {
        return Some(AlreadyReconciled);
      }
      entries := entries[manual := entries[manual].(notInBank := notInBank)];
      return None;
    }

    /** `listar`: the five loops and the sort. */
    method List(all: seq<Id>) returns (lines: seq<Line>)
      ensures lines == Lines(entries, all)
    {
      var bank, manual := BankSide(entries, all), ManualSide(entries, all);
      var pairs := M.SuggestPairs(bank, manual);
      var reconciled := Collect(all, PickReconciled(entries, all));
      var suggested := Collect(pairs, PickSuggested());
      var onlyBank := Collect(all, PickBank(entries, pairs));
      var onlyManual := Collect(all, PickManual(entries, pairs));
      var marked := Collect(all, PickMarked(entries));
      lines := reconciled + suggested + onlyBank + onlyManual + marked;
      lines := SortBy(SortBy(lines, ByDate(entries)), ByState());
    }

    /** The body of the loop below: a suggested line is reconciled, any other is skipped. */
    method ReconcileLine(church: Id, line: Line) returns (done: nat, error: Option<Problem>)
      modifies this
      ensures PairOf(line) == [] ==> done == 0 && error.None? && entries == old(entries)
      ensures PairOf(line) != [] ==> done == 1
      ensures PairOf(line) != [] ==> (error.None? <==> OnePair(old(entries), church, line).Success?)
      ensures PairOf(line) != [] && error.None? ==> entries == OnePair(old(entries), church, line).value
    {
      done, error := 0, None;
      if line.state == IsSuggested && line.bank.Some? && line.manual.Some? {
        error := ReconcilePair(church, line.bank.value, line.manual.value);
        done := 1;
      }
    }

    /** The loop of `conciliarSugeridos` over the listed lines. */
    method ReconcileLines(p: Period, all: seq<Id>, lines: seq<Line>) returns (count: nat, error: Option<Problem>)
      requires Lists(entries, p, all) && lines == Lines(entries, all)
      modifies this
      ensures error.None? && Reached(old(entries), lines, |lines|, count, entries)
    {
      ghost var l := entries;
      count, error := 0, None;
      var k := 0;
      while k < |lines| && error.None?
        invariant k <= |lines| && error.None?
        invariant Reached(l, lines, k, count, entries)
      {
        SuggestedStep(l, p, all, lines, k, count, entries);
        var done: nat;
        done, error := ReconcileLine(p.church, lines[k]);
        count, k := count + done, k + 1;
      }
    }

    /** `conciliarSugeridos`: none of the listed pairs is refused. */
    method ReconcileSuggested(p: Period, all: seq<Id>) returns (count: nat, error: Option<Problem>)
      requires Lists(entries, p, all)
      modifies this
      ensures error.None? && count == |Suggested(old(entries), all)|
      ensures entries == LinkAll(old(entries), LinePairs(Lines(old(entries), all)))
    {
      ghost var l := entries;
      var lines := List(all);
      count, error := ReconcileLines(p, all, lines);
      ReachedEnd(l, lines, count, entries);
      SuggestedCount(l, all);
    }

    /** One of those loops: a line pushed for each element that has one. */
    static method Collect<T>(s: seq<T>, pick: T -> Option<Line>) returns (lines: seq<Line>)
      ensures lines == LinesOf(s, pick)
    {
      lines := [];
      var k := 0;
      while k < |s|
        invariant k <= |s|
        invariant lines == LinesOf(s[..k], pick)
      {
        assert s[..k + 1][..k] == s[..k];
        var line := pick(s[k]);
        if line.Some? {
          lines := lines + [line.value];
        }
        k := k + 1;
      }
      assert s[..k] == s;
    }
  }

  /** The next suggested line is the next pair. */
  lemma NextLine(lines: seq<Line>, k: nat)
    requires k < |lines|
    ensures var done := LinePairs(lines[..k]);
      && LinePairs(lines[..k + 1]) == done + PairOf(lines[k])
      && |done + PairOf(lines[k])| <= |LinePairs(lines)|
      && (PairOf(lines[k]) != [] ==> LinePairs(lines)[|done|] == PairOf(lines[k])[0])
  {
    LinePairsMore(lines[..k], lines[k]);
    assert lines[..k] + [lines[k]] == lines[..k + 1];
    LinePairsConcat(lines[..k + 1], lines[k + 1..]);
    assert lines == lines[..k + 1] + lines[k + 1..];
    assert LinePairs(lines) == LinePairs(lines[..k]) + PairOf(lines[k]) + LinePairs(lines[k + 1..]);
  }

  function OnePair(l: Ledger, church: Id, line: Line): Result<Ledger, Problem> {
    if PairOf(line) == [] then Success(l) else Reconcile(l, church, PairOf(line)[0].bank, PairOf(line)[0].manual)
  }

  /** The pairs of the first `k` lines, `count` of them, are linked. */
  ghost predicate Reached(l: Ledger, lines: seq<Line>, k: nat, count: nat, now: Ledger)
    requires k <= |lines|
  {
    count == |LinePairs(lines[..k])| <= |LinePairs(lines)| && now == LinkAll(l, LinePairs(lines)[..count])
  }

  lemma ReachedEnd(l: Ledger, lines: seq<Line>, count: nat, now: Ledger)
    requires Reached(l, lines, |lines|, count, now)
    ensures count == |LinePairs(lines)| && now == LinkAll(l, LinePairs(lines))
  {
    assert lines[..|lines|] == lines;
    assert LinePairs(lines)[..count] == LinePairs(lines);
  }

  lemma SuggestedCount(l: Ledger, all: seq<Id>)
    ensures |LinePairs(Lines(l, all))| == |Suggested(l, all)|
  {
    LinesApply(l, all);
    assert |multiset(LinePairs(Lines(l, all)))| == |multiset(Suggested(l, all))|;
  }

  /** The next suggested line is the next pair, and it is not refused. */
  lemma SuggestedStep(l: Ledger, p: Period, all: seq<Id>, lines: seq<Line>, k: nat, count: nat, now: Ledger)
    requires Lists(l, p, all) && lines == Lines(l, all) && k < |lines| && Reached(l, lines, k, count, now)
    ensures PairOf(lines[k]) == [] ==> Reached(l, lines, k + 1, count, now)
    ensures PairOf(lines[k]) != [] ==> OnePair(now, p.church, lines[k]).Success?
    ensures PairOf(lines[k]) != [] && OnePair(now, p.church, lines[k]).Success? ==>
      Reached(l, lines, k + 1, count + 1, OnePair(now, p.church, lines[k]).value)
  {
    var pairs := LinePairs(lines);
    NextLine(lines, k);
    if PairOf(lines[k]) != [] {
      LinesApply(l, all);
      AppliedOpen(l, all, pairs);
      ListedChurch(l, p, all, pairs, count);
      NextSucceeds(l, p.church, pairs, count);
    }
  }

  lemma ListedChurch(l: Ledger, p: Period, all: seq<Id>, pairs: seq<M.Pair>, k: nat)
    requires Lists(l, p, all) && Applies(l, all, pairs) && k < |pairs|
    ensures Open(l, pairs[k]) && l[pairs[k].bank].church == p.church && l[pairs[k].manual].church == p.church
  {
    AppliedOpen(l, all, pairs);
  }
}
