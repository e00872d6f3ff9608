/** What the listing shows and what the steps of the reconciliation write, field by field. */
module ReconciliationOutcomes {
  import opened Wrappers
  import opened Sorting
  import opened Reconciliation
  import M = Matching

  // ---- the lines -----------------------------------------------------------

  /** What is listed: the church's own entries of the period that were not distributed, and the
      other ends of their pairs in the church. */
  lemma ListedAre(l: Ledger, p: Period, all: seq<Id>, id: Id)
    requires Lists(l, p, all)
    ensures id in all <==>
      && id in l && l[id].church == p.church
      && ((l[id].administrative && !l[id].distributed && p.from <= l[id].day <= p.to)
          || exists x ::
               && x in l && l[x].church == p.church && l[x].administrative && !l[x].distributed
               && p.from <= l[x].day <= p.to
               && (l[x].reconciledWith == Some(id) || l[id].reconciledWith == Some(x)))
  {
    if id in l && OtherEnd(l, p, id) {
      var x :| InPeriod(l, p, x) && (l[x].reconciledWith == Some(id) || l[id].reconciledWith == Some(x));
      assert x in l;
    }
    if x :| x in l && l[x].church == p.church && l[x].administrative && !l[x].distributed
            && p.from <= l[x].day <= p.to && id in l
            && (l[x].reconciledWith == Some(id) || l[id].reconciledWith == Some(x)) {
      assert InPeriod(l, p, x);
    }
  }

  /** Every ledger and period has a listing. */
  lemma SomeListing(l: Ledger, p: Period) returns (all: seq<Id>)
    ensures Lists(l, p, all)
  {
    all := InSomeOrder(set id | id in l.Keys && (InPeriod(l, p, id) || OtherEnd(l, p, id)));
  }

  lemma {:induction false} PickedLines<T>(s: seq<T>, pick: T -> Option<Line>, line: Line)
    ensures line in LinesOf(s, pick) <==> exists k :: 0 <= k < |s| && pick(s[k]) == Some(line)
  {
    if s == [] {
    } else {
      var n := |s| - 1;
      PickedLines(s[..n], pick, line);
      if k: nat :| k < n && pick(s[..n][k]) == Some(line) {
        assert pick(s[k]) == Some(line);
      }
      if k: nat :| k < |s| && pick(s[k]) == Some(line) {
        assert k == n || pick(s[..n][k]) == Some(line);
      }
    }
  }

  lemma SortedLines(l: Ledger, all: seq<Id>, line: Line)
    ensures line in Lines(l, all) <==> line in Unsorted(l, all)
  {
    SortMembers(SortBy(Unsorted(l, all), ByDate(l)), ByState());
    SortMembers(Unsorted(l, all), ByDate(l));
  }

  /** The entry is in no pair. */
  predicate Unpaired(l: Ledger, id: Id)
    requires id in l
  {
    l[id].reconciledWith.None? && forall m :: m in l ==> l[m].reconciledWith != Some(id)
  }

  predicate HasPair(l: Ledger, all: seq<Id>, id: Id) {
    exists k :: 0 <= k < |Suggested(l, all)| && (Suggested(l, all)[k].bank == id || Suggested(l, all)[k].manual == id)
  }

  /** What a line of each state shows. */
  predicate ShowsRight(l: Ledger, all: seq<Id>, line: Line) {
    match line.state
    case Reconciled =>
      && line.manual.Some? && line.manual.value in all && line.manual.value in l
      && l[line.manual.value].source == Manual && l[line.manual.value].reconciledWith.Some?
      && line.bank == (if l[line.manual.value].reconciledWith.value in all then l[line.manual.value].reconciledWith
                       else None)
    case IsSuggested =>
      && line.bank.Some? && line.manual.Some?
      && M.Pair(line.bank.value, line.manual.value) in Suggested(l, all)
    case OnlyBank =>
      && line.manual.None? && line.bank.Some? && line.bank.value in all && line.bank.value in l
      && l[line.bank.value].source == Bank && Unpaired(l, line.bank.value) && !HasPair(l, all, line.bank.value)
    case OnlyManual =>
      && line.bank.None? && line.manual.Some? && line.manual.value in all && line.manual.value in l
      && l[line.manual.value].source == Manual && Unpaired(l, line.manual.value)
      && !l[line.manual.value].notInBank && !HasPair(l, all, line.manual.value)
    case NotInBank =>
      && line.bank.None? && line.manual.Some? && line.manual.value in all && line.manual.value in l
      && l[line.manual.value].source == Manual && Unpaired(l, line.manual.value) && l[line.manual.value].notInBank
  }

  lemma ReconciledLines(l: Ledger, all: seq<Id>, line: Line)
    ensures line in LinesOf(all, PickReconciled(l, all)) <==> line.state == Reconciled && ShowsRight(l, all, line)
  {
    PickedLines(all, PickReconciled(l, all), line);
    if line.state == Reconciled && ShowsRight(l, all, line) {
      var k :| 0 <= k < |all| && all[k] == line.manual.value;
      assert PickReconciled(l, all)(all[k]) == Some(line);
    }
  }

  lemma SuggestedLines(l: Ledger, all: seq<Id>, line: Line)
    ensures line in LinesOf(Suggested(l, all), PickSuggested()) <==>
      line.state == IsSuggested && ShowsRight(l, all, line)
  {
    var pairs := Suggested(l, all);
    PickedLines(pairs, PickSuggested(), line);
    if line.state == IsSuggested && ShowsRight(l, all, line) {
      var k :| 0 <= k < |pairs| && pairs[k] == M.Pair(line.bank.value, line.manual.value);
      assert PickSuggested()(pairs[k]) == Some(line);
    }
  }

  lemma BankLines(l: Ledger, all: seq<Id>, line: Line)
    ensures line in LinesOf(all, PickBank(l, Suggested(l, all))) <==>
      line.state == OnlyBank && ShowsRight(l, all, line)
  {
    var pick := PickBank(l, Suggested(l, all));
    PickedLines(all, pick, line);
    if line.state == OnlyBank && ShowsRight(l, all, line) {
      var k :| 0 <= k < |all| && all[k] == line.bank.value;
      assert pick(all[k]) == Some(line);
    }
  }

  lemma ManualLines(l: Ledger, all: seq<Id>, line: Line)
    ensures line in LinesOf(all, PickManual(l, Suggested(l, all))) <==>
      line.state == OnlyManual && ShowsRight(l, all, line)
  {
    var pick := PickManual(l, Suggested(l, all));
    PickedLines(all, pick, line);
    if line.state == OnlyManual && ShowsRight(l, all, line) {
      var k :| 0 <= k < |all| && all[k] == line.manual.value;
      assert pick(all[k]) == Some(line);
    }
  }

  lemma MarkedLines(l: Ledger, all: seq<Id>, line: Line)
    ensures line in LinesOf(all, PickMarked(l)) <==> line.state == NotInBank && ShowsRight(l, all, line)
  {
    PickedLines(all, PickMarked(l), line);
    if line.state == NotInBank && ShowsRight(l, all, line) {
      var k :| 0 <= k < |all| && all[k] == line.manual.value;
      assert PickMarked(l)(all[k]) == Some(line);
    }
  }

  /** The listing has exactly the lines that the sources, the links, the marks and the suggested
      pairs of the entries call for. */
  lemma LinesExactly(l: Ledger, all: seq<Id>, line: Line)
    ensures line in Lines(l, all) <==> ShowsRight(l, all, line)
  {
    SortedLines(l, all, line);
    ReconciledLines(l, all, line);
    SuggestedLines(l, all, line);
    BankLines(l, all, line);
    ManualLines(l, all, line);
    MarkedLines(l, all, line);
  }

  // ---- their order ---------------------------------------------------------

  /** What asks for an action comes first. */
  function Place(state: State): int {
    if state == IsSuggested then 1
    else if state == OnlyBank then 2
    else if state == OnlyManual then 3
    else if state == NotInBank then 4
    else 5
  }

  /** The bank's date, or that of the entry made by hand. */
  predicate Dated(l: Ledger, line: Line, day: int) {
    if line.bank.Some? then line.bank.value in l && day == l[line.bank.value].day
    else line.manual.Some? && line.manual.value in l && day == l[line.manual.value].day
  }

  /** Suggested lines first, then what is only in the bank, only in the ledger, not in the bank,
      and at the end what is reconciled; the newest first among those of one state. */
  lemma LinesInOrder(l: Ledger, all: seq<Id>, i: nat, j: nat, day: int, later: int)
    requires i < j < |Lines(l, all)| && Dated(l, Lines(l, all)[i], day) && Dated(l, Lines(l, all)[j], later)
    ensures var a, b := Lines(l, all)[i], Lines(l, all)[j];
      Place(a.state) < Place(b.state) || (a.state == b.state && day >= later)
  {
    SortKeeps(Unsorted(l, all), ByDate(l));
    SortTwice(SortBy(Unsorted(l, all), ByDate(l)), ByState(), ByDate(l));
    InOrder(l, Lines(l, all), i, j, day, later);
  }

  lemma InOrder(l: Ledger, lines: seq<Line>, i: nat, j: nat, day: int, later: int)
    requires OrderedBy(lines, ByState(), ByDate(l)) && i < j < |lines|
    requires Dated(l, lines[i], day) && Dated(l, lines[j], later)
    ensures Place(lines[i].state) < Place(lines[j].state) || (lines[i].state == lines[j].state && day >= later)
  {
    assert ByState()(lines[i]) == Place(lines[i].state) - 1 && ByState()(lines[j]) == Place(lines[j].state) - 1;
    assert ByDate(l)(lines[i]) == -day && ByDate(l)(lines[j]) == -later;
  }

  // ---- the suggested pairs -------------------------------------------------

  /** Two entries that nobody reconciled or marked, of one type and one amount, at most three days
      apart. */
  predicate Could(l: Ledger, b: Id, m: Id) {
    && b in l && m in l && l[b].source == Bank && l[m].source == Manual
    && Unpaired(l, b) && Unpaired(l, m) && !l[m].notInBank
    && l[b].income == l[m].income && l[b].cents == l[m].cents && -3 <= l[b].day - l[m].day <= 3
  }

  predicate SameGiver(l: Ledger, b: Id, m: Id)
    requires b in l && m in l
  {
    l[b].tither.Some? && l[b].tither == l[m].tither
  }

  function Apart(l: Ledger, b: Id, m: Id): int
    requires b in l && m in l
  {
    if l[b].day < l[m].day then l[m].day - l[b].day else l[b].day - l[m].day
  }

  lemma UnpairedIs(l: Ledger, id: Id)
    requires id in l
    ensures Unpaired(l, id) <==> !IsReconciled(l, id)
  {
  }

  lemma CouldQualify(l: Ledger, all: seq<Id>, b: Id, m: Id)
    ensures (b in l && m in l && Facts(l, b) in BankSide(l, all) && Facts(l, m) in ManualSide(l, all)
             && M.Qualifies(Facts(l, b), Facts(l, m), M.TOLERANCE))
      <==> b in all && m in all && Could(l, b, m)
  {
    if b in l && m in l {
      SidesAre(l, all, Facts(l, b));
      SidesAre(l, all, Facts(l, m));
      UnpairedIs(l, b);
      UnpairedIs(l, m);
    }
  }

  /** Every suggested pair is of two entries listed that could be one, and no entry is in two. */
  lemma SuggestedCould(l: Ledger, all: seq<Id>, i: nat, j: nat)
    requires i < |Suggested(l, all)| && j < |Suggested(l, all)|
    ensures var p, q := Suggested(l, all)[i], Suggested(l, all)[j];
      && p.bank in all && p.manual in all && Could(l, p.bank, p.manual)
      && (i != j ==> p.bank != q.bank && p.manual != q.manual)
  {
    SidesKeyed(l, all);
    M.SuggestIsMatching(BankSide(l, all), ManualSide(l, all), M.TOLERANCE);
    var p := Suggested(l, all)[i];
    assert M.Legit(BankSide(l, all), ManualSide(l, all), M.TOLERANCE, p);
    var b, m :| b in BankSide(l, all) && m in ManualSide(l, all) && b.id == p.bank && m.id == p.manual
      && M.Qualifies(b, m, M.TOLERANCE);
    SidesAre(l, all, b);
    SidesAre(l, all, m);
    CouldQualify(l, all, p.bank, p.manual);
  }

  /** Of two entries listed that could be one, one at least is in a suggested pair whose dates are
      no further apart; and if they are as far apart, and the two have the same giver, so has it. */
  lemma SuggestedBest(l: Ledger, all: seq<Id>, b: Id, m: Id) returns (b': Id, m': Id)
    requires b in all && m in all && Could(l, b, m)
    ensures b' in l && m' in l && M.Pair(b', m') in Suggested(l, all) && (b' == b || m' == m)
    ensures Apart(l, b', m') < Apart(l, b, m)
      || (Apart(l, b', m') == Apart(l, b, m) && (SameGiver(l, b, m) ==> SameGiver(l, b', m')))
  {
    SidesKeyed(l, all);
    CouldQualify(l, all, b, m);
    var e, f := M.SuggestIsStable(BankSide(l, all), ManualSide(l, all), M.TOLERANCE, Facts(l, b), Facts(l, m));
    SidesAre(l, all, e);
    SidesAre(l, all, f);
    b', m' := e.id, f.id;
    M.ScoreOrder(e, f, Facts(l, b), Facts(l, m));
  }

  // ---- what the steps write ------------------------------------------------

  /** A pair is made of an unreconciled bank entry and an unreconciled entry made by hand, of this
      church and of one type. Then the latter points to the former and loses its mark, the former
      has its category, and its tither when it has one; nothing else changes. */
  lemma ReconcileWrites(l: Ledger, church: Id, bank: Id, manual: Id, id: Id)
    ensures var r := Reconcile(l, church, bank, manual);
      && (r.Success? <==>
        && bank in l && manual in l && l[bank].church == church && l[manual].church == church
        && l[bank].source == Bank && l[manual].source == Manual && l[bank].income == l[manual].income
        && l[manual].reconciledWith.None? && forall m :: m in l ==> l[m].reconciledWith != Some(bank))
      && (r.Success? ==>
        && r.value.Keys == l.Keys
        && r.value[manual] == l[manual].(reconciledWith := Some(bank), notInBank := false)
        && r.value[bank].category == l[manual].category
        && r.value[bank].tither == (if l[manual].tither.Some? then l[manual].tither else l[bank].tither)
        && r.value[bank].(category := l[bank].category, tither := l[bank].tither) == l[bank]
        && (id in l && id != bank && id != manual ==> r.value[id] == l[id]))
  {
    if bank in l && manual in l && bank != manual {
      assert Link(l, bank, manual).Keys == l.Keys;
    }
  }

  /** Which refusal, in the order of the checks. */
  lemma ReconcileRefuses(l: Ledger, church: Id, bank: Id, manual: Id)
    ensures var r := Reconcile(l, church, bank, manual);
      var known := bank in l && manual in l && l[bank].church == church && l[manual].church == church;
      && (r == Failure(NotFound) <==> !known)
      && (r == Failure(NotABankEntry) <==> known && l[bank].source != Bank)
      && (r == Failure(NotAManualEntry) <==> known && l[bank].source == Bank && l[manual].source != Manual)
      && (r == Failure(DifferentTypes) <==>
        known && l[bank].source == Bank && l[manual].source == Manual && l[bank].income != l[manual].income)
  {
  }

  /** Undoing needs a reconciled entry of this church, and takes its link off and nothing else. */
  lemma UndoWrites(l: Ledger, church: Id, manual: Id)
    ensures var r := Undo(l, church, manual);
      && (r.Success? <==> manual in l && l[manual].church == church && l[manual].reconciledWith.Some?)
      && (r.Success? ==> r.value == l[manual := l[manual].(reconciledWith := None)])
      && (r.Failure? ==> r.error == NotFound)
  {
  }

  /** The mark needs an entry made by hand, of this church and not reconciled, and is written as
      asked for. */
  lemma MarkWrites(l: Ledger, church: Id, manual: Id, notInBank: bool)
    ensures var r := Mark(l, church, manual, notInBank);
      && (r.Success? <==>
        manual in l && l[manual].church == church && l[manual].source == Manual && l[manual].reconciledWith.None?)
      && (r.Success? ==> r.value == l[manual := l[manual].(notInBank := notInBank)])
      && (r == Failure(NotFound) <==> manual !in l || l[manual].church != church)
      && (r == Failure(NotAManualEntry) <==>
        manual in l && l[manual].church == church && l[manual].source != Manual)
  {
  }
}
