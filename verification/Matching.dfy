/** Suggested pairs between the bank statement and the ledger: a greedy matching over
    the candidate pairs, best score first.

    Amounts are in cents and dates are day numbers. The score (`nota`) is doubled, so
    that half a day off for the same tither stays an integer. */
module Matching {
  import opened Wrappers
  import opened Sorting

  type Id = nat

  /** `TOLERANCIA_DIAS` */
  const TOLERANCE: nat := 3

  datatype Entry = Entry(id: Id, income: bool, cents: int, day: int, tither: Option<Id>)
  datatype Candidate = Candidate(bank: Id, manual: Id, score: int)
  datatype Pair = Pair(bank: Id, manual: Id)

  function Days(b: Entry, m: Entry): nat {
    if b.day < m.day then m.day - b.day else b.day - m.day
  }

  predicate SameTither(b: Entry, m: Entry) {
    b.tither.Some? && b.tither == m.tither
  }

  predicate Qualifies(b: Entry, m: Entry, tolerance: nat) {
    b.income == m.income && b.cents == m.cents && Days(b, m) <= tolerance
  }

  function Score(b: Entry, m: Entry): int {
    2 * Days(b, m) - if SameTither(b, m) then 1 else 0
  }

  /** Fewer days always win; the same tither only breaks ties. */
  lemma ScoreOrder(b: Entry, m: Entry, b': Entry, m': Entry)
    ensures Score(b, m) <= Score(b', m') <==>
      || Days(b, m) < Days(b', m')
      || (Days(b, m) == Days(b', m') && (SameTither(b', m') ==> SameTither(b, m)))
  {
  }

  // ---- candidates ----------------------------------------------------------

  function CandidatesOf(b: Entry, manuals: seq<Entry>, tolerance: nat): seq<Candidate> {
    if manuals == [] then []
    else
      var m := manuals[|manuals| - 1];
      CandidatesOf(b, manuals[..|manuals| - 1], tolerance) +
        if Qualifies(b, m, tolerance) then [Candidate(b.id, m.id, Score(b, m))] else []
  }

  function Candidates(bank: seq<Entry>, manuals: seq<Entry>, tolerance: nat): seq<Candidate> {
    if bank == [] then []
    else
      Candidates(bank[..|bank| - 1], manuals, tolerance) +
        CandidatesOf(bank[|bank| - 1], manuals, tolerance)
  }

  ghost predicate FromEntry(c: Candidate, b: Entry, manuals: seq<Entry>, tolerance: nat) {
    exists m :: m in manuals && Qualifies(b, m, tolerance) && c == Candidate(b.id, m.id, Score(b, m))
  }

  /** The candidates are the qualifying pairs with their scores. */
  ghost predicate FromPair(c: Candidate, bank: seq<Entry>, manuals: seq<Entry>, tolerance: nat) {
    exists b :: b in bank && FromEntry(c, b, manuals, tolerance)
  }

  lemma {:induction false} CandidatesOfAre(b: Entry, manuals: seq<Entry>, tolerance: nat, c: Candidate)
    ensures c in CandidatesOf(b, manuals, tolerance) <==> FromEntry(c, b, manuals, tolerance)
  {
    if manuals == [] {
    } else {
      var n := |manuals| - 1;
      CandidatesOfAre(b, manuals[..n], tolerance, c);
      assert manuals == manuals[..n] + [manuals[n]];
    }
  }

  lemma {:induction false} CandidatesAre(bank: seq<Entry>, manuals: seq<Entry>, tolerance: nat, c: Candidate)
    ensures c in Candidates(bank, manuals, tolerance) <==> FromPair(c, bank, manuals, tolerance)
  {
    if bank == [] {
    } else {
      var n := |bank| - 1;
      CandidatesAre(bank[..n], manuals, tolerance, c);
      CandidatesOfAre(bank[n], manuals, tolerance, c);
      assert bank == bank[..n] + [bank[n]];
    }
  }

  // ---- the greedy choice ---------------------------------------------------

  datatype Chosen = Chosen(used: set<Id>, pairs: seq<Pair>)

  predicate Blocked(used: set<Id>, c: Candidate) {
    c.bank in used || c.manual in used
  }

  function Greedy(cs: seq<Candidate>): Chosen {
    if cs == [] then Chosen({}, [])
    else
      var before := Greedy(cs[..|cs| - 1]);
      var c := cs[|cs| - 1];
      if Blocked(before.used, c) then before
      else Chosen(before.used + {c.bank, c.manual}, before.pairs + [Pair(c.bank, c.manual)])
  }

  /** `sugerirPares` */
  function Suggest(bank: seq<Entry>, manuals: seq<Entry>, tolerance: nat): seq<Pair> {
    Greedy(SortBy(Candidates(bank, manuals, tolerance), (c: Candidate) => c.score)).pairs
  }

  method SuggestPairs(bank: seq<Entry>, manuals: seq<Entry>, tolerance: nat := TOLERANCE)
    returns (pairs: seq<Pair>)
    ensures pairs == Suggest(bank, manuals, tolerance)
  {
    var candidates: seq<Candidate> := [];
    var i := 0;
    while i < |bank|
      invariant i <= |bank|
      invariant candidates == Candidates(bank[..i], manuals, tolerance)
    {
      var b := bank[i];
      ghost var before := candidates;
      var j := 0;
      while j < |manuals|
        invariant j <= |manuals|
        invariant candidates == before + CandidatesOf(b, manuals[..j], tolerance)
      {
        var m := manuals[j];
        assert manuals[..j + 1][..j] == manuals[..j];
        j := j + 1;
        if b.income != m.income || b.cents != m.cents {
          continue;
        }
        var days := Days(b, m);
        if days > tolerance {
          continue;
        }
        var bonus := if b.tither.Some? && b.tither == m.tither then 1 else 0;
        candidates := candidates + [Candidate(b.id, m.id, 2 * days - bonus)];
      }
      assert manuals[..j] == manuals && bank[..i + 1][..i] == bank[..i];
      i := i + 1;
    }
    assert bank[..i] == bank;

    candidates := SortBy(candidates, (c: Candidate) => c.score);
    var used: set<Id> := {};
    pairs := [];
    var k := 0;
    while k < |candidates|
      invariant k <= |candidates|
      invariant Greedy(candidates[..k]) == Chosen(used, pairs)
    {
      var c := candidates[k];
      assert candidates[..k + 1][..k] == candidates[..k];
      k := k + 1;
      if c.bank in used || c.manual in used {
        continue;
      }
      used := used + {c.bank} + {c.manual};
      pairs := pairs + [Pair(c.bank, c.manual)];
    }
    assert candidates[..k] == candidates;
  }

  // ---- what the greedy choice guarantees -----------------------------------

  predicate TwoSided(cs: seq<Candidate>) {
    forall i, j :: 0 <= i < |cs| && 0 <= j < |cs| ==> cs[i].bank != cs[j].manual
  }

  predicate Disjoint(pairs: seq<Pair>) {
    forall i, j :: 0 <= i < j < |pairs| ==> pairs[i].bank != pairs[j].bank && pairs[i].manual != pairs[j].manual
  }

  /** Each id is chosen once, and `used` is exactly the ids of the chosen pairs. */
  lemma {:induction false} GreedyDisjoint(cs: seq<Candidate>)
    requires TwoSided(cs)
    ensures var g := Greedy(cs);
      && Disjoint(g.pairs)
      && (forall k :: 0 <= k < |g.pairs| ==> g.pairs[k].bank in g.used && g.pairs[k].manual in g.used)
      && |g.used| == 2 * |g.pairs|
  {
    if cs == [] {
    } else {
      var n := |cs| - 1;
      GreedyDisjoint(cs[..n]);
      var before := Greedy(cs[..n]);
      if !Blocked(before.used, cs[n]) {
        assert cs[n].bank != cs[n].manual;
        assert |before.used + {cs[n].bank, cs[n].manual}| == |before.used| + 2;
      }
    }
  }

  /** Every chosen pair is a candidate. */
  lemma {:induction false} GreedyPicks(cs: seq<Candidate>, p: Pair)
    requires p in Greedy(cs).pairs
    ensures exists k :: 0 <= k < |cs| && cs[k].bank == p.bank && cs[k].manual == p.manual
  {
    var n := |cs| - 1;
    if p in Greedy(cs[..n]).pairs {
      GreedyPicks(cs[..n], p);
      var k :| 0 <= k < n && cs[..n][k].bank == p.bank && cs[..n][k].manual == p.manual;
      assert cs[k].bank == p.bank && cs[k].manual == p.manual;
    } else {
      assert cs[n].bank == p.bank && cs[n].manual == p.manual;
    }
  }

  /** Every candidate shares an end with a candidate that comes no later and was chosen. */
  ghost predicate Covers(cs: seq<Candidate>, j: nat, k: nat)
    requires j < |cs| && k < |cs|
  {
    && j <= k && Pair(cs[j].bank, cs[j].manual) in Greedy(cs).pairs
    && (cs[j].bank == cs[k].bank || cs[j].manual == cs[k].manual)
  }

  lemma {:induction false} GreedyCovers(cs: seq<Candidate>, k: nat) returns (j: nat)
    requires TwoSided(cs) && k < |cs|
    ensures j < |cs| && Covers(cs, j, k)
  {
    var n := |cs| - 1;
    if k < n {
      j := GreedyCovers(cs[..n], k);
      assert cs[..n][j] == cs[j] && cs[..n][k] == cs[k];
    } else if Blocked(Greedy(cs[..n]).used, cs[n]) {
      j := UsedByPair(cs[..n], if cs[n].bank in Greedy(cs[..n]).used then cs[n].bank else cs[n].manual);
      assert cs[..n][j] == cs[j];
    } else {
      j := k;
    }
  }

  /** A used id belongs to a chosen candidate. */
  lemma {:induction false} UsedByPair(cs: seq<Candidate>, id: Id) returns (j: nat)
    requires id in Greedy(cs).used
    ensures j < |cs| && Pair(cs[j].bank, cs[j].manual) in Greedy(cs).pairs && (cs[j].bank == id || cs[j].manual == id)
  {
    var n := |cs| - 1;
    if id in Greedy(cs[..n]).used {
      j := UsedByPair(cs[..n], id);
      assert cs[..n][j] == cs[j];
    } else {
      j := n;
    }
  }

  // ---- suggestions ---------------------------------------------------------

  /** Ids are keys of one table: each entry once, and on one side only. */
  ghost predicate Keyed(bank: seq<Entry>, manuals: seq<Entry>) {
    && (forall b, b' :: b in bank && b' in bank && b.id == b'.id ==> b == b')
    && (forall m, m' :: m in manuals && m' in manuals && m.id == m'.id ==> m == m')
    && (forall b, m :: b in bank && m in manuals ==> b.id != m.id)
  }

  /** `p` is a pair of entries that qualify. */
  ghost predicate Legit(bank: seq<Entry>, manuals: seq<Entry>, tolerance: nat, p: Pair) {
    exists b, m :: b in bank && m in manuals && b.id == p.bank && m.id == p.manual && Qualifies(b, m, tolerance)
  }

  ghost predicate IsMatching(bank: seq<Entry>, manuals: seq<Entry>, tolerance: nat, pairs: seq<Pair>) {
    && Disjoint(pairs)
    && forall k :: 0 <= k < |pairs| ==> Legit(bank, manuals, tolerance, pairs[k])
  }

  /** The candidates in the order they are tried. */
  function Tried(bank: seq<Entry>, manuals: seq<Entry>, tolerance: nat): seq<Candidate> {
    SortBy(Candidates(bank, manuals, tolerance), (c: Candidate) => c.score)
  }

  lemma TriedAre(bank: seq<Entry>, manuals: seq<Entry>, tolerance: nat)
    requires Keyed(bank, manuals)
    ensures forall c :: c in Tried(bank, manuals, tolerance) <==> FromPair(c, bank, manuals, tolerance)
    ensures TwoSided(Tried(bank, manuals, tolerance))
  {
    var key := (c: Candidate) => c.score;
    SortMembers(Candidates(bank, manuals, tolerance), key);
    forall c
      ensures c in Tried(bank, manuals, tolerance) <==> FromPair(c, bank, manuals, tolerance)
    {
      CandidatesAre(bank, manuals, tolerance, c);
    }
    var cs := Tried(bank, manuals, tolerance);
    forall i, j | 0 <= i < |cs| && 0 <= j < |cs|
      ensures cs[i].bank != cs[j].manual
    {
      assert FromPair(cs[i], bank, manuals, tolerance) && FromPair(cs[j], bank, manuals, tolerance);
    }
  }

  lemma TriedInOrder(bank: seq<Entry>, manuals: seq<Entry>, tolerance: nat, j: nat, k: nat)
    requires j <= k < |Tried(bank, manuals, tolerance)|
    ensures Tried(bank, manuals, tolerance)[j].score <= Tried(bank, manuals, tolerance)[k].score
  {
    var key := (c: Candidate) => c.score;
    SortKeeps(Candidates(bank, manuals, tolerance), key);
    var cs := Tried(bank, manuals, tolerance);
    assert key(cs[j]) <= key(cs[k]);
  }

  /** The suggestion is a valid matching: each entry at most once, same type, same
      cents, at most `tolerance` days apart. */
  lemma SuggestIsMatching(bank: seq<Entry>, manuals: seq<Entry>, tolerance: nat)
    requires Keyed(bank, manuals)
    ensures IsMatching(bank, manuals, tolerance, Suggest(bank, manuals, tolerance))
  {
    var cs := Tried(bank, manuals, tolerance);
    var pairs := Suggest(bank, manuals, tolerance);
    TriedAre(bank, manuals, tolerance);
    GreedyDisjoint(cs);
    forall k | 0 <= k < |pairs|
      ensures Legit(bank, manuals, tolerance, pairs[k])
    {
      GreedyPicks(cs, pairs[k]);
      var i :| 0 <= i < |cs| && cs[i].bank == pairs[k].bank && cs[i].manual == pairs[k].manual;
      assert FromPair(cs[i], bank, manuals, tolerance);
    }
  }

  /** Nobody is passed over for something worse: every qualifying pair is chosen, or
      shares an end with a chosen pair whose score is no greater. */
  lemma SuggestIsStable(bank: seq<Entry>, manuals: seq<Entry>, tolerance: nat, b: Entry, m: Entry)
    returns (b': Entry, m': Entry)
    requires Keyed(bank, manuals) && b in bank && m in manuals && Qualifies(b, m, tolerance)
    ensures b' in bank && m' in manuals && Qualifies(b', m', tolerance)
    ensures Pair(b'.id, m'.id) in Suggest(bank, manuals, tolerance)
    ensures b' == b || m' == m
    ensures Score(b', m') <= Score(b, m)
  {
    var cs := Tried(bank, manuals, tolerance);
    TriedAre(bank, manuals, tolerance);
    var c := Candidate(b.id, m.id, Score(b, m));
    assert FromEntry(c, b, manuals, tolerance) && FromPair(c, bank, manuals, tolerance);
    assert c in cs;
    var k :| 0 <= k < |cs| && cs[k] == c;
    var j := GreedyCovers(cs, k);
    TriedInOrder(bank, manuals, tolerance, j, k);
    b', m' := PairBehind(bank, manuals, tolerance, cs[j]);
  }

  lemma PairBehind(bank: seq<Entry>, manuals: seq<Entry>, tolerance: nat, c: Candidate) returns (b: Entry, m: Entry)
    requires FromPair(c, bank, manuals, tolerance)
    ensures b in bank && m in manuals && Qualifies(b, m, tolerance) && c == Candidate(b.id, m.id, Score(b, m))
  {
    b :| b in bank && FromEntry(c, b, manuals, tolerance);
    m :| m in manuals && Qualifies(b, m, tolerance) && c == Candidate(b.id, m.id, Score(b, m));
  }

  /** So the suggestion is maximal: no qualifying pair is left with both ends free. */
  lemma SuggestIsMaximal(bank: seq<Entry>, manuals: seq<Entry>, tolerance: nat, b: Entry, m: Entry)
    requires Keyed(bank, manuals) && b in bank && m in manuals && Qualifies(b, m, tolerance)
    ensures exists p :: p in Suggest(bank, manuals, tolerance) && (p.bank == b.id || p.manual == m.id)
  {
    var b', m' := SuggestIsStable(bank, manuals, tolerance, b, m);
    var p := Pair(b'.id, m'.id);
    assert p in Suggest(bank, manuals, tolerance) && (p.bank == b.id || p.manual == m.id);
  }

  /** Disjoint pairs that each have an end in `ends` are at most as many as the ends. */
  lemma {:induction false} PairsByEnds(pairs: seq<Pair>, ends: set<Id>)
    requires Disjoint(pairs)
    requires forall i, j :: 0 <= i < |pairs| && 0 <= j < |pairs| ==> pairs[i].bank != pairs[j].manual
    requires forall k :: 0 <= k < |pairs| ==> pairs[k].bank in ends || pairs[k].manual in ends
    ensures |pairs| <= |ends|
  {
    if pairs == [] {
    } else {
      var n := |pairs| - 1;
      var end := if pairs[n].bank in ends then pairs[n].bank else pairs[n].manual;
      PairsByEnds(pairs[..n], ends - {end});
    }
  }

  /** The suggestion has at least half as many pairs as any valid matching. */
  lemma SuggestIsHalfOfAny(bank: seq<Entry>, manuals: seq<Entry>, tolerance: nat, other: seq<Pair>)
    requires Keyed(bank, manuals) && IsMatching(bank, manuals, tolerance, other)
    ensures |other| <= 2 * |Suggest(bank, manuals, tolerance)|
  {
    var cs := Tried(bank, manuals, tolerance);
    var g := Greedy(cs);
    TriedAre(bank, manuals, tolerance);
    GreedyDisjoint(cs);
    forall k | 0 <= k < |other|
      ensures other[k].bank in g.used || other[k].manual in g.used
    {
      assert Legit(bank, manuals, tolerance, other[k]);
      var b, m :| b in bank && m in manuals && b.id == other[k].bank && m.id == other[k].manual
        && Qualifies(b, m, tolerance);
      var b', m' := SuggestIsStable(bank, manuals, tolerance, b, m);
      var i :| 0 <= i < |g.pairs| && g.pairs[i] == Pair(b'.id, m'.id);
    }
    forall i, j | 0 <= i < |other| && 0 <= j < |other|
      ensures other[i].bank != other[j].manual
    {
      assert Legit(bank, manuals, tolerance, other[i]) && Legit(bank, manuals, tolerance, other[j]);
    }
    PairsByEnds(other, g.used);
  }
}
