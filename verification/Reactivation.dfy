/** The way back in: `reativarCompras` takes cancelled payments, in the order the database
    lists them, and lets back in what still fits in the stock. */
module Reactivation {
  import opened Wrappers
  import opened Stock

  // ---- letting items back in -----------------------------------------------

  /** `restantes`: what is left of each variant; a missing key is without limit. */
  type Remainders = map<Id, Option<nat>>

  function Left(rest: Remainders, v: Id): Option<nat> {
    if v in rest then rest[v] else None
  }

  predicate Fits(rest: Remainders, item: Item) {
    Left(rest, item.variant).None? || item.quantity <= Left(rest, item.variant).value
  }

  /** What remains after an item that fits took its units. */
  function Take(rest: Remainders, item: Item): Remainders
    requires Fits(rest, item)
  {
    if Left(rest, item.variant).None? then rest
    else rest[item.variant := Some(rest[item.variant].value - item.quantity)]
  }

  datatype Split = Split(kept: seq<Item>, out: seq<Item>, rest: Remainders)

  /** One payment's items at its turn: each takes its units or goes out. */
  function SplitItems(items: seq<Item>, rest: Remainders): Split {
    if items == [] then Split([], [], rest)
    else
      var s := SplitItems(items[..|items| - 1], rest);
      var item := items[|items| - 1];
      if Fits(s.rest, item) then Split(s.kept + [item], s.out, Take(s.rest, item))
      else Split(s.kept, s.out + [item], s.rest)
  }

  /** The variant that ran out and how many were left of it (`faltaDeEstoque`). */
  datatype Refusal = Refusal(variant: Id, left: nat)

  datatype Reactivation = Reactivation(
    reactivated: seq<Id>,
    removed: seq<(Id, Id)>,
    refusal: Option<Refusal>)

  datatype Progress = Progress(rows: Rows, rest: Remainders, result: Reactivation)

  function RemovedKeys(i: Id, out: seq<Item>): seq<(Id, Id)> {
    seq(|out|, k requires 0 <= k < |out| => (i, out[k].variant))
  }

  predicate IsLive(rows: Rows, i: Id) {
    i < |rows| && rows[i].Some?
  }

  function ItemsOf(row: Option<Payment>): seq<Item> {
    if row.Some? then row.value.items else []
  }

  function WithStatus(row: Option<Payment>, status: Status): Option<Payment> {
    if row.Some? then Some(row.value.(status := status)) else None
  }

  predicate OncePerVariant(items: seq<Item>) {
    forall j, k :: 0 <= j < k < |items| ==> items[j].variant != items[k].variant
  }

  /** A purchase without a ticket has items, and no payment has two items of one
      variant. */
  predicate SaneItems(p: Payment) {
    (p.ticket.None? ==> p.items != []) && OncePerVariant(p.items)
  }

  /** What the refusal says: the first item that went out and how many were left. A
      purchase without a ticket always has one (`SaneItems`). */
  function RefusalOf(s: Split): Option<Refusal> {
    if s.out == [] then None
    else
      var left := Left(s.rest, s.out[0].variant);
      Some(Refusal(s.out[0].variant, if left.Some? then left.value else 0))
  }

  function Refuse(p: Progress, s: Split): Progress {
    Progress(
      p.rows,
      s.rest,
      p.result.(refusal := if p.result.refusal.Some? then p.result.refusal else RefusalOf(s)))
  }

  function LetBack(p: Progress, i: Id, s: Split): Progress
    requires IsLive(p.rows, i)
  {
    var payment := p.rows[i].value;
    Progress(
      p.rows[i := Some(payment.(items := s.kept, amount := payment.amount - CostOf(s.out)))],
      s.rest,
      p.result.(
        reactivated := p.result.reactivated + [i],
        removed := p.result.removed + RemovedKeys(i, s.out)))
  }

  /** One payment's turn in `reativarCompras`. */
  function ReactivateRow(p: Progress, i: Id): (r: Progress)
    ensures |r.rows| == |p.rows|
  {
    if !IsLive(p.rows, i) then p
    else
      var s := SplitItems(p.rows[i].value.items, p.rest);
      if p.rows[i].value.ticket.None? && s.kept == [] then Refuse(p, s) else LetBack(p, i, s)
  }

  predicate Distinct(order: seq<Id>) {
    forall j, k :: 0 <= j < k < |order| ==> order[j] != order[k]
  }

  /** `order` lists released payments, each once. */
  predicate Listed(rows: Rows, order: seq<Id>) {
    && Distinct(order)
    && forall k :: 0 <= k < |order| ==>
      && order[k] < |rows| && rows[order[k]].Some?
      && Releases(rows[order[k]].value.status) && SaneItems(rows[order[k]].value)
  }

  function ReactivateRows(p: Progress, order: seq<Id>): (r: Progress)
    ensures |r.rows| == |p.rows|
  {
    if order == [] then p
    else ReactivateRow(ReactivateRows(p, order[..|order| - 1]), order[|order| - 1])
  }

  lemma SplitLengths(items: seq<Item>, rest: Remainders)
    ensures var s := SplitItems(items, rest); |s.kept| + |s.out| == |items|
  {
  }

  /** One write gives several payments a status. */
  function WithStatuses(rows: Rows, ids: set<Id>, status: Status): (r: Rows)
    ensures |r| == |rows|
  {
    seq(|rows|, i requires 0 <= i < |rows| => if i in ids then WithStatus(rows[i], status) else rows[i])
  }

  /** The statuses the caller writes once `reativarCompras` has answered. */
  function Revive(rows: Rows, ids: seq<Id>, status: Status): Rows {
    WithStatuses(rows, (set i | i in ids), status)
  }

  /** The table once the payments let back in so far are live. */
  function After(p: Progress): Rows {
    Revive(p.rows, p.result.reactivated, Waiting)
  }

  /** The variants of the listed payments, which are the keys of `restantes`. */
  function VariantsOf(rows: Rows, order: seq<Id>): set<Id> {
    set k, j | 0 <= k < |order| && IsLive(rows, order[k]) && 0 <= j < |rows[order[k]].value.items|
      :: rows[order[k]].value.items[j].variant
  }

  predicate InCatalog(catalog: Catalog, rows: Rows) {
    forall i, j :: 0 <= i < |rows| && rows[i].Some? && 0 <= j < |rows[i].value.items|
      ==> rows[i].value.items[j].variant in catalog
  }

  function Start(catalog: Catalog, rows: Rows, order: seq<Id>): Progress {
    var rest := map v | v in VariantsOf(rows, order) && v in catalog
      :: Available(catalog[v].stock, Sold(rows, v));
    Progress(rows, rest, Reactivation([], [], None))
  }

  // ---- one payment's items -------------------------------------------------

  lemma SumsAppend(items: seq<Item>, item: Item, v: Id)
    ensures QuantityOf(items + [item], v) == QuantityOf(items, v) + if item.variant == v then item.quantity else 0
    ensures CostOf(items + [item]) == CostOf(items) + item.unitPrice * item.quantity
  {
    assert (items + [item])[..|items|] == items;
  }

  /** Nothing is lost: what is kept and what goes out are the items, in every sum. */
  lemma {:induction false} SplitConserves(items: seq<Item>, rest: Remainders, v: Id)
    ensures var s := SplitItems(items, rest);
      && QuantityOf(items, v) == QuantityOf(s.kept, v) + QuantityOf(s.out, v)
      && CostOf(items) == CostOf(s.kept) + CostOf(s.out)
  {
    if items == [] {
    } else {
      var n := |items| - 1;
      SplitConserves(items[..n], rest, v);
      var t := SplitItems(items[..n], rest);
      SumsAppend(t.kept, items[n], v);
      SumsAppend(t.out, items[n], v);
    }
  }

  /** The remainder of a limited variant falls by exactly what was kept of it. */
  lemma {:induction false} SplitTakes(items: seq<Item>, rest: Remainders, v: Id)
    requires forall x :: x in items ==> x.variant in rest
    ensures var s := SplitItems(items, rest);
      && s.rest.Keys == rest.Keys
      && (v in rest && rest[v].Some? ==>
        && QuantityOf(s.kept, v) <= rest[v].value
        && s.rest[v] == Some(rest[v].value - QuantityOf(s.kept, v)))
      && (v in rest && rest[v].None? ==> s.rest[v].None?)
  {
    if items == [] {
    } else {
      var n := |items| - 1;
      SplitTakes(items[..n], rest, v);
      var t := SplitItems(items[..n], rest);
      assert items[n].variant in rest;
      SumsAppend(t.kept, items[n], v);
    }
  }

  lemma {:induction false} SplitPlaces(items: seq<Item>, rest: Remainders, item: Item)
    requires item in items
    ensures var s := SplitItems(items, rest);
      && (item in s.kept || item in s.out)
      && (item in s.out ==> !Fits(s.rest, item))
      && (s.kept == [] ==> s.rest == rest && item in s.out)
      && (Fits(rest, item) ==> s.kept != [])
  {
    var n := |items| - 1;
    var t := SplitItems(items[..n], rest);
    if item in items[..n] {
      SplitPlaces(items[..n], rest, item);
    } else {
      assert item == items[n];
      SplitNothingKept(items[..n], rest);
      SplitSources(items[..n], rest);
    }
    RestShrinks(items[..n], rest);
  }

  lemma {:induction false} SplitNothingKept(items: seq<Item>, rest: Remainders)
    ensures var s := SplitItems(items, rest); s.kept == [] ==> s.rest == rest
  {
    if items == [] {
    } else {
      SplitNothingKept(items[..|items| - 1], rest);
    }
  }

  lemma {:induction false} SplitSources(items: seq<Item>, rest: Remainders)
    ensures var s := SplitItems(items, rest);
      && (forall x :: x in s.kept ==> x in items)
      && (forall x :: x in s.out ==> x in items && !Fits(s.rest, x))
  {
    if items == [] {
    } else {
      var n := |items| - 1;
      SplitSources(items[..n], rest);
      var t := SplitItems(items[..n], rest);
      assert items == items[..n] + [items[n]];
      var s := SplitItems(items, rest);
      assert forall x :: x in s.kept ==> x in t.kept || x == items[n];
      forall x | x in s.out
        ensures x in items && !Fits(s.rest, x)
      {
        if Fits(t.rest, items[n]) {
          assert x in t.out;
        } else {
          assert x in t.out || x == items[n];
        }
      }
    }
  }

  lemma {:induction false} RestShrinks(items: seq<Item>, rest: Remainders)
    ensures var s := SplitItems(items, rest); forall x: Item :: Fits(s.rest, x) ==> Fits(rest, x)
  {
    if items == [] {
    } else {
      RestShrinks(items[..|items| - 1], rest);
    }
  }

  // ---- the whole reactivation ----------------------------------------------

  /** The state after the first `k` payments of the list had their turn. */
  function Turn(catalog: Catalog, rows: Rows, order: seq<Id>, k: nat): (p: Progress)
    requires k <= |order|
    ensures |p.rows| == |rows|
  {
    ReactivateRows(Start(catalog, rows, order), order[..k])
  }

  /** Turns touch only the rows they are about. */
  lemma {:induction false} TurnFrame(catalog: Catalog, rows: Rows, order: seq<Id>, k: nat, i: Id)
    requires k <= |order| && i < |rows| && i !in order[..k]
    ensures Turn(catalog, rows, order, k).rows[i] == rows[i]
  {
    if k == 0 {
    } else {
      assert order[..k][..k - 1] == order[..k - 1];
      assert order[..k] == order[..k - 1] + [order[k - 1]];
      TurnFrame(catalog, rows, order, k - 1, i);
    }
  }

  lemma TurnStep(catalog: Catalog, rows: Rows, order: seq<Id>, k: nat)
    requires Listed(rows, order) && k < |order|
    ensures order[k] !in order[..k] && Turn(catalog, rows, order, k).rows[order[k]] == rows[order[k]]
    ensures Turn(catalog, rows, order, k + 1) == ReactivateRow(Turn(catalog, rows, order, k), order[k])
  {
    assert order[..k + 1][..k] == order[..k];
    TurnFrame(catalog, rows, order, k, order[k]);
  }

  /** Who is let back in comes from the list. */
  lemma {:induction false} ReactivatedListed(catalog: Catalog, rows: Rows, order: seq<Id>, k: nat)
    requires Listed(rows, order) && k <= |order|
    ensures forall i :: i in Turn(catalog, rows, order, k).result.reactivated ==> i in order[..k]
  {
    if k == 0 {
      assert order[..0] == [];
    } else {
      TurnStep(catalog, rows, order, k - 1);
      ReactivatedListed(catalog, rows, order, k - 1);
      assert order[..k] == order[..k - 1] + [order[k - 1]];
      var before := Turn(catalog, rows, order, k - 1).result.reactivated;
      var after := Turn(catalog, rows, order, k).result.reactivated;
      assert after == before || after == before + [order[k - 1]];
    }
  }

  lemma {:induction false} RemaindersKnown(catalog: Catalog, rows: Rows, order: seq<Id>, k: nat)
    requires Listed(rows, order) && InCatalog(catalog, rows) && k <= |order|
    ensures Turn(catalog, rows, order, k).rest.Keys == VariantsOf(rows, order)
  {
    if k == 0 {
      assert order[..0] == [];
    } else {
      TurnStep(catalog, rows, order, k - 1);
      RemaindersKnown(catalog, rows, order, k - 1);
      ListedItemsKnown(rows, order, k - 1);
      SplitTakes(rows[order[k - 1]].value.items, Turn(catalog, rows, order, k - 1).rest, 0);
    }
  }

  /** A payment has one turn. */
  lemma NotYetBack(catalog: Catalog, rows: Rows, order: seq<Id>, k: nat)
    requires Listed(rows, order) && k < |order|
    ensures order[k] !in Turn(catalog, rows, order, k).result.reactivated
  {
    ReactivatedListed(catalog, rows, order, k);
    TurnStep(catalog, rows, order, k);
  }

  lemma TurnReactivated(catalog: Catalog, rows: Rows, order: seq<Id>, k: nat)
    requires Listed(rows, order) && InCatalog(catalog, rows) && k <= |order|
    ensures forall i :: i in Turn(catalog, rows, order, k).result.reactivated ==> i in order[..k]
    ensures Turn(catalog, rows, order, k).rest.Keys == VariantsOf(rows, order)
  {
    ReactivatedListed(catalog, rows, order, k);
    RemaindersKnown(catalog, rows, order, k);
  }

  lemma ListedItemsKnown(rows: Rows, order: seq<Id>, k: nat)
    requires Listed(rows, order) && k < |order|
    ensures forall x :: x in rows[order[k]].value.items ==> x.variant in VariantsOf(rows, order)
  {
    forall x | x in rows[order[k]].value.items
      ensures x.variant in VariantsOf(rows, order)
    {
      var j :| 0 <= j < |rows[order[k]].value.items| && rows[order[k]].value.items[j] == x;
      assert rows[order[k]].value.items[j].variant in VariantsOf(rows, order);
    }
  }

  /** A turn makes live exactly the quantities it keeps. */
  lemma RowSells(p: Progress, i: Id, v: Id)
    requires i < |p.rows| && p.rows[i].Some? && SaneItems(p.rows[i].value)
    requires Releases(p.rows[i].value.status) && i !in p.result.reactivated
    ensures Sold(After(ReactivateRow(p, i)), v)
         == Sold(After(p), v) + QuantityOf(SplitItems(p.rows[i].value.items, p.rest).kept, v)
  {
    var q := ReactivateRow(p, i);
    var payment := p.rows[i].value;
    var s := SplitItems(payment.items, p.rest);
    if payment.ticket.None? && s.kept == [] {
      assert After(q) == After(p);
    } else {
      var back := Some(payment.(items := s.kept, amount := payment.amount - CostOf(s.out), status := Waiting));
      assert After(q) == After(p)[i := back];
      SoldUpdate(After(p), i, back, v);
    }
  }

  /** The running remainder is always what the derived stock would answer. */
  predicate Tracks(catalog: Catalog, rows: Rows, p: Progress, v: Id)
    requires v in catalog
  {
    && (v in p.rest ==> p.rest[v] == Available(catalog[v].stock, Sold(After(p), v)))
    && (v !in p.rest ==> Sold(After(p), v) == Sold(rows, v))
    && (catalog[v].stock.Some? ==> Sold(After(p), v) <= Max(catalog[v].stock.value, Sold(rows, v)))
  }

  /** How one turn moves what is sold and what remains of a variant. */
  lemma RowMoves(p: Progress, i: Id, v: Id) returns (kept: nat)
    requires i < |p.rows| && p.rows[i].Some? && SaneItems(p.rows[i].value)
    requires Releases(p.rows[i].value.status) && i !in p.result.reactivated
    requires forall x :: x in p.rows[i].value.items ==> x.variant in p.rest
    ensures Sold(After(ReactivateRow(p, i)), v) == Sold(After(p), v) + kept
    ensures v in ReactivateRow(p, i).rest <==> v in p.rest
    ensures v !in p.rest ==> kept == 0
    ensures v in p.rest ==> var left := ReactivateRow(p, i).rest[v];
      if p.rest[v].None? then left.None? else kept <= p.rest[v].value && left == Some(p.rest[v].value - kept)
  {
    var items := p.rows[i].value.items;
    var s := SplitItems(items, p.rest);
    kept := QuantityOf(s.kept, v);
    RowSells(p, i, v);
    SplitTakes(items, p.rest, v);
    if v !in p.rest {
      SplitSources(items, p.rest);
      QuantityAbsent(s.kept, v);
    }
  }

  lemma RowTracks(catalog: Catalog, rows: Rows, p: Progress, i: Id, v: Id)
    requires i < |p.rows| && p.rows[i].Some? && SaneItems(p.rows[i].value)
    requires Releases(p.rows[i].value.status) && i !in p.result.reactivated
    requires forall x :: x in p.rows[i].value.items ==> x.variant in p.rest
    requires v in catalog && Tracks(catalog, rows, p, v)
    ensures Tracks(catalog, rows, ReactivateRow(p, i), v)
  {
    var kept := RowMoves(p, i, v);
  }

  /** What a payment finds at its turn: itself as it was, and all its variants counted. */
  lemma TurnReady(catalog: Catalog, rows: Rows, order: seq<Id>, k: nat)
    requires Listed(rows, order) && InCatalog(catalog, rows) && k < |order|
    ensures forall x :: x in rows[order[k]].value.items ==> x.variant in Turn(catalog, rows, order, k).rest
  {
    RemaindersKnown(catalog, rows, order, k);
    ListedItemsKnown(rows, order, k);
  }

  lemma NextTracks(catalog: Catalog, rows: Rows, order: seq<Id>, k: nat, v: Id)
    requires Listed(rows, order) && InCatalog(catalog, rows) && k < |order| && v in catalog
    requires Tracks(catalog, rows, Turn(catalog, rows, order, k), v)
    ensures Tracks(catalog, rows, Turn(catalog, rows, order, k + 1), v)
  {
    TurnStep(catalog, rows, order, k);
    NotYetBack(catalog, rows, order, k);
    TurnReady(catalog, rows, order, k);
    RowTracks(catalog, rows, Turn(catalog, rows, order, k), order[k], v);
  }

  lemma FirstTracks(catalog: Catalog, rows: Rows, order: seq<Id>, v: Id)
    requires v in catalog
    ensures Tracks(catalog, rows, Turn(catalog, rows, order, 0), v)
  {
    assert order[..0] == [];
    assert After(Turn(catalog, rows, order, 0)) == rows;
  }

  /** After every turn the remainder map answers as the stock rule would, and no
      limited variant was sold beyond its stock or what it had sold before. */
  lemma {:induction false} ReactivationTracksStock(catalog: Catalog, rows: Rows, order: seq<Id>, k: nat, v: Id)
    requires Listed(rows, order) && InCatalog(catalog, rows) && k <= |order| && v in catalog
    ensures Tracks(catalog, rows, Turn(catalog, rows, order, k), v)
  {
    if k == 0 {
      FirstTracks(catalog, rows, order, v);
    } else {
      ReactivationTracksStock(catalog, rows, order, k - 1, v);
      NextTracks(catalog, rows, order, k - 1, v);
    }
  }

  lemma {:induction false} QuantityAbsent(items: seq<Item>, v: Id)
    ensures (forall x :: x in items ==> x.variant != v) ==> QuantityOf(items, v) == 0
  {
    if items != [] && forall x :: x in items ==> x.variant != v {
      QuantityAbsent(items[..|items| - 1], v);
    }
  }

  /** What payment `i` got, judged from the table and remainders `before` its turn:
      a ticket always returns, a purchase without a ticket returns iff some item
      fits; a payment that returns keeps exactly the items that fit and pays
      exactly for them; a refused one is untouched. */
  predicate Decided(before: Progress, i: Id, end: Progress)
    requires i < |before.rows| && before.rows[i].Some? && i < |end.rows|
  {
    var payment := before.rows[i].value;
    var s := SplitItems(payment.items, before.rest);
    var back := payment.ticket.Some? || exists x :: x in payment.items && Fits(before.rest, x);
    && (i in end.result.reactivated <==> back)
    && end.rows[i] ==
         if back then Some(payment.(items := s.kept, amount := payment.amount - CostOf(s.out)))
         else before.rows[i]
  }

  lemma RowDecides(p: Progress, i: Id)
    requires i < |p.rows| && p.rows[i].Some? && SaneItems(p.rows[i].value) && i !in p.result.reactivated
    ensures Decided(p, i, ReactivateRow(p, i))
    ensures i !in ReactivateRow(p, i).result.reactivated ==> ReactivateRow(p, i).rest == p.rest
  {
    var items := p.rows[i].value.items;
    SplitNothingKept(items, p.rest);
    SplitSources(items, p.rest);
    var kept := SplitItems(items, p.rest).kept;
    if kept != [] {
      KeptFits(items, p.rest);
      assert kept[0] in items && Fits(p.rest, kept[0]);
    } else {
      forall x | x in items
        ensures !Fits(p.rest, x)
      {
        SplitPlaces(items, p.rest, x);
      }
    }
  }

  /** The reactivation decides every listed payment at its turn, and a refused one
      takes nothing from those after it. */
  lemma TurnDecides(catalog: Catalog, rows: Rows, order: seq<Id>, k: nat)
    requires Listed(rows, order) && InCatalog(catalog, rows) && k < |order|
    ensures Turn(catalog, rows, order, k).rows[order[k]] == rows[order[k]]
    ensures Decided(Turn(catalog, rows, order, k), order[k], Turn(catalog, rows, order, |order|))
    ensures order[k] !in Turn(catalog, rows, order, |order|).result.reactivated ==>
      Turn(catalog, rows, order, k + 1).rest == Turn(catalog, rows, order, k).rest
  {
    TurnStep(catalog, rows, order, k);
    TurnReactivated(catalog, rows, order, k);
    RowDecides(Turn(catalog, rows, order, k), order[k]);
    LaterTurnsLeave(catalog, rows, order, k, |order|);
  }

  lemma {:induction false} KeptFits(items: seq<Item>, rest: Remainders)
    ensures forall x :: x in SplitItems(items, rest).kept ==> Fits(rest, x)
  {
    if items == [] {
    } else {
      var n := |items| - 1;
      KeptFits(items[..n], rest);
      RestShrinks(items[..n], rest);
      var t := SplitItems(items[..n], rest);
      assert forall x :: x in SplitItems(items, rest).kept ==> x in t.kept || (x == items[n] && Fits(t.rest, x));
    }
  }

  lemma RowLeaves(p: Progress, i: Id, j: Id)
    requires i < |p.rows| && j < |p.rows| && i != j && p.rows[i].Some? && SaneItems(p.rows[i].value)
    ensures var q := ReactivateRow(p, i);
      && q.rows[j] == p.rows[j]
      && (j in q.result.reactivated <==> j in p.result.reactivated)
  {
  }

  lemma {:induction false} LaterTurnsLeave(catalog: Catalog, rows: Rows, order: seq<Id>, k: nat, m: nat)
    requires Listed(rows, order) && InCatalog(catalog, rows) && k < m <= |order|
    ensures var p := Turn(catalog, rows, order, k + 1);
      var q := Turn(catalog, rows, order, m);
      && q.rows[order[k]] == p.rows[order[k]]
      && (order[k] in q.result.reactivated <==> order[k] in p.result.reactivated)
    decreases m
  {
    if m > k + 1 {
      LaterTurnsLeave(catalog, rows, order, k, m - 1);
      TurnStep(catalog, rows, order, m - 1);
      RowLeaves(Turn(catalog, rows, order, m - 1), order[m - 1], order[k]);
    }
  }

  /** What does not fit at one moment never fits later. */
  lemma {:induction false} LaterTurnsShrink(catalog: Catalog, rows: Rows, order: seq<Id>, k: nat, m: nat, x: Item)
    requires Listed(rows, order) && InCatalog(catalog, rows) && k <= m <= |order|
    ensures Fits(Turn(catalog, rows, order, m).rest, x) ==> Fits(Turn(catalog, rows, order, k).rest, x)
    decreases m
  {
    if m > k {
      LaterTurnsShrink(catalog, rows, order, k, m - 1, x);
      TurnStep(catalog, rows, order, m - 1);
      RestShrinks(rows[order[m - 1]].value.items, Turn(catalog, rows, order, m - 1).rest);
    }
  }

  /** Nothing that was left out would fit in what is left at the end: the removed
      items and the items of refused purchases are all too large. */
  lemma NothingLeftOutFits(catalog: Catalog, rows: Rows, order: seq<Id>, k: nat, x: Item)
    requires Listed(rows, order) && InCatalog(catalog, rows) && k < |order|
    requires x in rows[order[k]].value.items
    requires var end := Turn(catalog, rows, order, |order|);
      order[k] !in end.result.reactivated || x !in ItemsOf(end.rows[order[k]])
    ensures x.variant in catalog && catalog[x.variant].stock.Some?
    ensures var end := Turn(catalog, rows, order, |order|);
      x.quantity > Available(catalog[x.variant].stock, Sold(After(end), x.variant)).value
  {
    var before := Turn(catalog, rows, order, k);
    var end := Turn(catalog, rows, order, |order|);
    var items := rows[order[k]].value.items;
    ListedItemsKnown(rows, order, k);
    TurnDecides(catalog, rows, order, k);
    TurnReactivated(catalog, rows, order, |order|);
    ReactivationTracksStock(catalog, rows, order, |order|, x.variant);
    SplitPlaces(items, before.rest, x);
    TurnStep(catalog, rows, order, k);
    LaterTurnsShrink(catalog, rows, order, k + 1, |order|, x);
    assert !Fits(end.rest, x);
  }

  lemma OnceMore(items: seq<Item>, item: Item)
    requires OncePerVariant(items) && forall x :: x in items ==> x.variant != item.variant
    ensures OncePerVariant(items + [item])
  {
    forall j, k | 0 <= j < k < |items + [item]|
      ensures (items + [item])[j].variant != (items + [item])[k].variant
    {
      assert items[j] in items;
    }
  }

  lemma {:induction false} SplitKeepsOrder(items: seq<Item>, rest: Remainders)
    requires OncePerVariant(items)
    ensures OncePerVariant(SplitItems(items, rest).kept)
  {
    if items == [] {
    } else {
      var n := |items| - 1;
      SplitKeepsOrder(items[..n], rest);
      SplitSources(items[..n], rest);
      var kept := SplitItems(items[..n], rest).kept;
      forall x | x in kept
        ensures x.variant != items[n].variant
      {
        assert x in items[..n];
        var j :| 0 <= j < n && items[..n][j] == x;
        assert items[j] == x;
      }
      OnceMore(kept, items[n]);
    }
  }

  // ---- what is reported as removed -----------------------------------------

  lemma {:induction false} SplitApart(items: seq<Item>, rest: Remainders, x: Item)
    requires OncePerVariant(items)
    ensures var s := SplitItems(items, rest); x in s.out <==> x in items && x !in s.kept
  {
    if items == [] {
    } else {
      var n := |items| - 1;
      SplitApart(items[..n], rest, x);
      assert items == items[..n] + [items[n]];
      SplitSources(items[..n], rest);
      var t := SplitItems(items[..n], rest);
      assert x in items[..n] ==> x != items[n];
      var s := SplitItems(items, rest);
      assert s.kept == t.kept + [items[n]] || s.out == t.out + [items[n]];
    }
  }

  /** An item of the variant was there before and is not any more. */
  predicate Gone(before: seq<Item>, after: seq<Item>, v: Id) {
    exists x :: x in before && x.variant == v && x !in after
  }

  lemma KeysOfOut(items: seq<Item>, rest: Remainders, i: Id, v: Id)
    requires OncePerVariant(items)
    ensures var s := SplitItems(items, rest); (i, v) in RemovedKeys(i, s.out) <==> Gone(items, s.kept, v)
  {
    var s := SplitItems(items, rest);
    forall x: Item
      ensures x in s.out <==> x in items && x !in s.kept
    {
      SplitApart(items, rest, x);
    }
    if Gone(items, s.kept, v) {
      var x :| x in items && x.variant == v && x !in s.kept;
      var k :| 0 <= k < |s.out| && s.out[k] == x;
      assert RemovedKeys(i, s.out)[k] == (i, v);
    }
    if (i, v) in RemovedKeys(i, s.out) {
      var k :| 0 <= k < |s.out| && RemovedKeys(i, s.out)[k] == (i, v);
      assert s.out[k] in s.out;
    }
  }

  lemma RowRemoves(p: Progress, i: Id, v: Id)
    requires IsLive(p.rows, i) && SaneItems(p.rows[i].value)
    requires i !in p.result.reactivated && (i, v) !in p.result.removed
    ensures var q := ReactivateRow(p, i);
      (i, v) in q.result.removed <==>
      i in q.result.reactivated && Gone(p.rows[i].value.items, ItemsOf(q.rows[i]), v)
  {
    KeysOfOut(p.rows[i].value.items, p.rest, i, v);
  }

  lemma RowRemovesNoOther(p: Progress, i: Id, j: Id, v: Id)
    requires j != i
    ensures (j, v) in ReactivateRow(p, i).result.removed <==> (j, v) in p.result.removed
  {
  }

  /** `itensRemovidos` names exactly the items that payments let back in have lost. */
  lemma {:induction false} RemovedExactly(catalog: Catalog, rows: Rows, order: seq<Id>, k: nat, i: Id, v: Id)
    requires Listed(rows, order) && InCatalog(catalog, rows) && k <= |order| && IsLive(rows, i)
    ensures var p := Turn(catalog, rows, order, k);
      (i, v) in p.result.removed <==>
      i in p.result.reactivated && Gone(rows[i].value.items, ItemsOf(p.rows[i]), v)
  {
    if k == 0 {
      assert order[..0] == [];
    } else {
      TurnStep(catalog, rows, order, k - 1);
      RemovedExactly(catalog, rows, order, k - 1, i, v);
      ReactivatedListed(catalog, rows, order, k - 1);
      var p := Turn(catalog, rows, order, k - 1);
      if i == order[k - 1] {
        RowRemoves(p, i, v);
      } else {
        RowRemovesNoOther(p, order[k - 1], i, v);
        RowLeaves(p, order[k - 1], i);
      }
    }
  }

  // ---- the refusal ---------------------------------------------------------

  /** The first `k` payments of the list are back. */
  predicate AllBack(order: seq<Id>, k: nat, back: seq<Id>)
    requires k <= |order|
  {
    forall j :: 0 <= j < k ==> order[j] in back
  }

  lemma RowAnswers(p: Progress, i: Id)
    requires IsLive(p.rows, i) && SaneItems(p.rows[i].value) && i !in p.result.reactivated
    ensures var q := ReactivateRow(p, i);
      q.result.refusal.None? <==> p.result.refusal.None? && i in q.result.reactivated
  {
    SplitLengths(p.rows[i].value.items, p.rest);
  }

  lemma AllBackStep(p: Progress, order: seq<Id>, k: nat)
    requires k < |order| && Distinct(order) && IsLive(p.rows, order[k]) && SaneItems(p.rows[order[k]].value)
    requires forall j :: 0 <= j < k ==> order[j] < |p.rows|
    ensures var back := ReactivateRow(p, order[k]).result.reactivated;
      AllBack(order, k + 1, back) <==> AllBack(order, k, p.result.reactivated) && order[k] in back
  {
    var back := ReactivateRow(p, order[k]).result.reactivated;
    forall j | 0 <= j < k
      ensures order[j] in back <==> order[j] in p.result.reactivated
    {
      RowLeaves(p, order[k], order[j]);
    }
  }

  /** There is a refusal exactly when somebody was refused. */
  lemma {:induction false} ReactivationAnswers(catalog: Catalog, rows: Rows, order: seq<Id>, k: nat)
    requires Listed(rows, order) && InCatalog(catalog, rows) && k <= |order|
    ensures var p := Turn(catalog, rows, order, k);
      p.result.refusal.None? <==> AllBack(order, k, p.result.reactivated)
  {
    if k == 0 {
      assert order[..0] == [];
    } else {
      TurnStep(catalog, rows, order, k - 1);
      NotYetBack(catalog, rows, order, k - 1);
      ReactivationAnswers(catalog, rows, order, k - 1);
      RowAnswers(Turn(catalog, rows, order, k - 1), order[k - 1]);
      AllBackStep(Turn(catalog, rows, order, k - 1), order, k - 1);
    }
  }
}
