/** What the operations of the store sell, write and answer, field by field. */
module StoreOutcomes {
  import opened Wrappers
  import opened Stock
  import opened Reactivation
  import opened Store

  // ---- the sums ------------------------------------------------------------

  lemma {:induction false} QuantitySums(a: seq<Item>, b: seq<Item>, v: Id)
    ensures QuantityOf(a + b, v) == QuantityOf(a, v) + QuantityOf(b, v)
    ensures CostOf(a + b) == CostOf(a) + CostOf(b)
  {
    if b == [] {
      assert a + b == a;
    } else {
      var n := |b| - 1;
      QuantitySums(a, b[..n], v);
      assert (a + b)[..|a| + n] == a + b[..n];
    }
  }

  /** With each variant once, what there is of one is the quantity of its item. */
  lemma {:induction false} QuantityIs(items: seq<Item>, v: Id)
    requires OncePerVariant(items)
    ensures forall k :: 0 <= k < |items| && items[k].variant == v ==> QuantityOf(items, v) == items[k].quantity
    ensures (forall k :: 0 <= k < |items| ==> items[k].variant != v) ==> QuantityOf(items, v) == 0
  {
    if items == [] {
    } else {
      var n := |items| - 1;
      QuantityIs(items[..n], v);
      forall k | 0 <= k < n
        ensures items[..n][k] == items[k]
      {
      }
    }
  }

  /** An item costs its price times its quantity. */
  lemma CostOfOne(item: Item)
    ensures CostOf([item]) == item.quantity * item.unitPrice
  {
    assert [item][..0] == [];
  }

  /** A payment that is cancelled or refunded sells nothing; one that is paid, waits, is looked into
      or was declined sells its items. */
  lemma SoldOfOne(p: Payment, v: Id)
    ensures Sold([Some(p)], v) ==
      if p.status in {Paid, Waiting, InAnalysis, Declined} then QuantityOf(p.items, v) else 0
  {
    assert [Some(p)][..0] == [];
  }

  lemma DeletedSellsNothing(row: Option<Payment>, v: Id)
    requires row.None?
    ensures Sold([row], v) == 0
  {
    assert [row][..0] == [];
  }

  lemma {:induction false} SoldSums(a: Rows, b: Rows, v: Id)
    ensures Sold(a + b, v) == Sold(a, v) + Sold(b, v)
  {
    if b == [] {
      assert a + b == a;
    } else {
      var n := |b| - 1;
      SoldSums(a, b[..n], v);
      assert (a + b)[..|a| + n] == a + b[..n];
    }
  }

  /** Some units are in stock exactly when they and what is sold fit the stock, if it is limited. */
  lemma InStockExactly(s: Shop, v: Id, quantity: nat)
    requires v in s.catalog && quantity > 0
    ensures InStock(s, v, quantity) <==>
      (s.catalog[v].stock.Some? ==> Sold(s.rows, v) + quantity <= s.catalog[v].stock.value)
  {
  }

  // ---- the order -----------------------------------------------------------

  /** Every line asks for one to twenty, and no two for one variant. */
  predicate WellMade(lines: seq<Line>) {
    && (forall k :: 0 <= k < |lines| ==> 1 <= lines[k].quantity <= 20)
    && (forall j, k :: 0 <= j < k < |lines| ==> lines[j].variant != lines[k].variant)
  }

  lemma WellMadeIs(lines: seq<Line>)
    ensures WellMade(lines) <==> BadLine(lines).None?
  {
    AcceptedLines(lines);
  }

  lemma LastIsBad(lines: seq<Line>)
    requires lines != [] && BadLine(lines[..|lines| - 1]).None? && BadLine(lines).Some?
    ensures BadLine(lines) == Some(if 1 <= lines[|lines| - 1].quantity <= 20 then RepeatedItem else BadQuantity)
  {
  }

  /** The first bad line says what is wrong: its quantity, or that its variant came before. */
  lemma {:induction false} FirstBadLine(lines: seq<Line>) returns (k: nat)
    requires !WellMade(lines)
    ensures k < |lines| && WellMade(lines[..k]) && !WellMade(lines[..k + 1])
    ensures BadLine(lines) == Some(if 1 <= lines[k].quantity <= 20 then RepeatedItem else BadQuantity)
  {
    var n := |lines| - 1;
    WellMadeIs(lines);
    WellMadeIs(lines[..n]);
    if BadLine(lines[..n]).None? {
      k := n;
      LastIsBad(lines);
      assert lines[..n + 1] == lines;
    } else {
      k := FirstBadLine(lines[..n]);
      assert lines[..n][..k] == lines[..k] && lines[..n][..k + 1] == lines[..k + 1];
      assert BadLine(lines) == BadLine(lines[..n]);
    }
  }

  // ---- a purchase ----------------------------------------------------------

  predicate SoldHere(s: Shop, q: Purchase, v: Id) {
    v in s.catalog && s.catalog[v].event == q.event
  }

  predicate AllSoldHere(s: Shop, q: Purchase) {
    forall k :: 0 <= k < |q.lines| ==> SoldHere(s, q, q.lines[k].variant)
  }

  predicate LineFits(s: Shop, line: Line) {
    line.variant in s.catalog && s.catalog[line.variant].stock.Some? ==>
      Sold(s.rows, line.variant) + line.quantity <= s.catalog[line.variant].stock.value
  }

  predicate AllFit(s: Shop, q: Purchase) {
    forall k :: 0 <= k < |q.lines| ==> LineFits(s, q.lines[k])
  }

  predicate SomethingCosts(s: Shop, q: Purchase) {
    exists k :: 0 <= k < |q.lines| && q.lines[k].variant in s.catalog && s.catalog[q.lines[k].variant].price > 0
  }

  /** The store is open to whoever is registered; in a public store to anybody for themselves. */
  predicate OpenTo(q: Purchase) {
    q.registered || (q.publicStore && !q.onBehalf)
  }

  lemma WantedIs(lines: seq<Line>, k: nat)
    requires WellMade(lines) && k < |lines|
    ensures BadLine(lines).None? && Wanted(lines, lines[k].variant) == lines[k].quantity
  {
    AcceptedLines(lines);
    OrderMeaning(lines, lines[k].variant);
    assert Asks(lines, lines[k].variant);
  }

  lemma FitsTogether(s: Shop, q: Purchase)
    requires WellMade(q.lines) && AllSoldHere(s, q)
    ensures AllFit(s, q) <==>
      forall v: Id :: Asks(q.lines, v) && v in s.catalog ==> InStock(s, v, Wanted(q.lines, v))
  {
    forall k | 0 <= k < |q.lines|
      ensures LineFits(s, q.lines[k]) <==> InStock(s, q.lines[k].variant, Wanted(q.lines, q.lines[k].variant))
    {
      WantedIs(q.lines, k);
    }
    if forall v: Id :: Asks(q.lines, v) && v in s.catalog ==> InStock(s, v, Wanted(q.lines, v)) {
      forall k | 0 <= k < |q.lines|
        ensures LineFits(s, q.lines[k])
      {
        assert Asks(q.lines, q.lines[k].variant);
      }
    }
  }

  lemma SoldHereIs(s: Shop, q: Purchase)
    ensures AllSoldHere(s, q) <==> forall v: Id :: Asks(q.lines, v) ==> Sells(s.catalog, q, v)
  {
    if forall v: Id :: Asks(q.lines, v) ==> Sells(s.catalog, q, v) {
      forall k | 0 <= k < |q.lines|
        ensures SoldHere(s, q, q.lines[k].variant)
      {
        assert Asks(q.lines, q.lines[k].variant);
      }
    }
  }

  /** A purchase goes through exactly when it asks for something and is well made, the store is
      open, and to this buyer, everything is sold here and fits the stock, and whoever is not
      registered has something to pay. */
  lemma BuyExactly(s: Shop, q: Purchase, listing: seq<Id>)
    requires Found(s.catalog, q, listing)
    ensures Buy(s, q, listing).Success? <==>
      && q.lines != [] && WellMade(q.lines) && q.storeActive && OpenTo(q)
      && AllSoldHere(s, q) && AllFit(s, q) && (q.registered || SomethingCosts(s, q))
  {
    BuyAnswers(s, q, listing);
    AcceptedLines(q.lines);
    SoldHereIs(s, q);
    if WellMade(q.lines) && AllSoldHere(s, q) {
      FitsTogether(s, q);
    }
  }

  lemma {:induction false} FirstShort(s: Shop, order: map<Id, nat>, listing: seq<Id>) returns (k: nat)
    requires forall v :: v in listing ==> v in order && v in s.catalog
    requires Shortage(s, order, listing).Some?
    ensures k < |listing| && !InStock(s, listing[k], order[listing[k]])
    ensures forall j :: 0 <= j < k ==> InStock(s, listing[j], order[listing[j]])
    ensures Shortage(s, order, listing).value.variant == listing[k]
    ensures Available(s.catalog[listing[k]].stock, Sold(s.rows, listing[k])) ==
      Some(Shortage(s, order, listing).value.left)
  {
    var n := |listing| - 1;
    ShortageMeaning(s, order, listing[..n]);
    if Shortage(s, order, listing[..n]).Some? {
      k := FirstShort(s, order, listing[..n]);
    } else {
      k := n;
      forall j | 0 <= j < n
        ensures InStock(s, listing[j], order[listing[j]])
      {
        assert listing[..n][j] == listing[j];
      }
    }
  }

  lemma ChecksSoFar(s: Shop, q: Purchase, listing: seq<Id>)
    requires Found(s.catalog, q, listing) && q.lines != [] && WellMade(q.lines) && q.storeActive && OpenTo(q)
    ensures !AllSoldHere(s, q) <==> Check(s, q, listing) == Failure(UnknownProduct)
  {
    AcceptedLines(q.lines);
    AllFound(s, q, listing);
    SoldHereIs(s, q);
  }

  /** Otherwise the first check that fails says why. */
  lemma BuyRefuses(s: Shop, q: Purchase, listing: seq<Id>)
    requires Found(s.catalog, q, listing) && Buy(s, q, listing).Failure?
    ensures var e := Buy(s, q, listing).error;
      && (q.lines == [] ==> e == EmptyOrder)
      && (q.lines != [] && !WellMade(q.lines) ==> Some(e) == BadLine(q.lines))
      && (q.lines != [] && WellMade(q.lines) ==>
        && (!q.storeActive ==> e == StoreClosed)
        && (q.storeActive && !OpenTo(q) ==> e == NotAllowed)
        && (q.storeActive && OpenTo(q) && !AllSoldHere(s, q) ==> e == UnknownProduct)
        && (q.storeActive && OpenTo(q) && AllSoldHere(s, q) && !AllFit(s, q) ==> e.OutOfStock?)
        && (q.storeActive && OpenTo(q) && AllSoldHere(s, q) && AllFit(s, q) ==> e == FreeOnlyForRegistered))
  {
    AcceptedLines(q.lines);
    BuyExactly(s, q, listing);
    if q.lines != [] && WellMade(q.lines) && q.storeActive && OpenTo(q) {
      ChecksSoFar(s, q, listing);
      if AllSoldHere(s, q) {
        OrderKeys(q.lines);
        SoldHereIs(s, q);
        AllFound(s, q, listing);
        AskedInStock(s, q, listing);
        FitsTogether(s, q);
      }
    }
  }

  /** A refusal for lack of stock names a line that does not fit, and how many are left of it. */
  lemma ShortLine(s: Shop, q: Purchase, listing: seq<Id>) returns (k: nat)
    requires Found(s.catalog, q, listing) && Buy(s, q, listing).Failure? && Buy(s, q, listing).error.OutOfStock?
    ensures k < |q.lines| && q.lines[k].variant == Buy(s, q, listing).error.why.variant
    ensures !LineFits(s, q.lines[k])
    ensures var stock := s.catalog[q.lines[k].variant].stock;
      stock.Some? && Buy(s, q, listing).error.why.left ==
        if Sold(s.rows, q.lines[k].variant) < stock.value then stock.value - Sold(s.rows, q.lines[k].variant) else 0
  {
    AcceptedLines(q.lines);
    if !WellMade(q.lines) {
      var j := FirstBadLine(q.lines);
    }
    OrderKeys(q.lines);
    AllFound(s, q, listing);
    var i := FirstShort(s, OrderOf(q.lines), listing);
    assert Asks(q.lines, listing[i]);
    k :| 0 <= k < |q.lines| && q.lines[k].variant == listing[i];
    WantedIs(q.lines, k);
  }

  /** Every purchase has an answer of what is sold, and every checkout one of what is cancelled. */
  lemma SomeListing(s: Shop, q: Purchase, ids: set<Id>) returns (listing: seq<Id>, order: seq<Id>)
    ensures Found(s.catalog, q, listing) && Cancelled(s.rows, ids, order)
  {
    listing := InSomeOrder(set v | v in s.catalog.Keys && Asks(q.lines, v) && s.catalog[v].event == q.event);
    order := InSomeOrder(set i | i in ids && IsLive(s.rows, i) && Releases(s.rows[i].value.status));
  }

  // ---- where the items go --------------------------------------------------

  /** A ticket of this buyer at this event with nothing in it and no open checkout, that waits, or
      is paid because it is free. */
  predicate OpenTicket(p: Payment, user: Id, event: Id) {
    && p.user == user && p.event == event && p.ticket.Some? && p.items == [] && !p.openCheckout
    && (p.status == Waiting || (p.status == Paid && p.amount == 0))
  }

  /** The first such payment, if there is one. */
  lemma {:induction false} TicketExactly(rows: Rows, user: Id, event: Id)
    ensures TicketFor(rows, user, event).None? ==>
      forall i :: 0 <= i < |rows| && rows[i].Some? ==> !OpenTicket(rows[i].value, user, event)
    ensures TicketFor(rows, user, event).Some? ==>
      var i := TicketFor(rows, user, event).value;
      && rows[i].Some? && OpenTicket(rows[i].value, user, event)
      && forall j :: 0 <= j < i && rows[j].Some? ==> !OpenTicket(rows[j].value, user, event)
  {
    TicketIsOldest(rows, user, event);
    forall i | 0 <= i < |rows|
      ensures TakesProducts(rows[i], user, event) <==> rows[i].Some? && OpenTicket(rows[i].value, user, event)
    {
    }
  }

  /** A purchase with the registration goes into that ticket, which costs so much more, and waits
      again if it was paid and there is something to pay. Any other is a payment of its own, that
      waits unless it is free. No other payment changes. */
  lemma PlacedExactly(rows: Rows, q: Purchase, items: seq<Item>)
    ensures var after := Place(rows, q, items);
      var ticket := TicketFor(rows, q.user, q.event);
      && (q.attach && ticket.Some? ==>
        var was := rows[ticket.value].value;
        && after == rows[ticket.value := after[ticket.value]]
        && after[ticket.value] == Some(Payment(was.user, was.event, was.ticket,
             if was.status == Paid && CostOf(items) > 0 then Waiting else was.status,
             was.amount + CostOf(items), was.openCheckout, items)))
      && (!(q.attach && ticket.Some?) ==>
        after == rows + [Some(Payment(q.user, q.event, None, if CostOf(items) > 0 then Waiting else Paid,
                                      CostOf(items), false, items))])
  {
    if q.attach && TicketFor(rows, q.user, q.event).Some? {
      var i := TicketFor(rows, q.user, q.event).value;
      assert rows[i].value.items + items == items;
    } else {
      assert [] + items == items;
    }
  }

  lemma {:induction false} OrderSize(lines: seq<Line>)
    requires BadLine(lines).None?
    ensures |OrderOf(lines)| == |lines|
  {
    if lines == [] {
    } else {
      var n := |lines| - 1;
      OrderSize(lines[..n]);
      AcceptedLines(lines);
      OrderMeaning(lines[..n], lines[n].variant);
      forall k | 0 <= k < n
        ensures lines[..n][k].variant != lines[n].variant
      {
        assert lines[..n][k] == lines[k];
      }
    }
  }

  /** What the new items are in terms of the lines. */
  lemma ItemsOfLines(s: Shop, q: Purchase, listing: seq<Id>)
    requires Found(s.catalog, q, listing) && Check(s, q, listing).Success?
    ensures var items := Check(s, q, listing).value;
      && |items| == |q.lines| == |listing|
      && forall j :: 0 <= j < |items| ==>
        items[j] == Item(listing[j], Wanted(q.lines, listing[j]), s.catalog[listing[j]].price)
    ensures WellMade(q.lines) && forall v: Id :: v in listing <==> Asks(q.lines, v)
  {
    AcceptedLines(q.lines);
    OrderKeys(q.lines);
    AllFound(s, q, listing);
    OrderSize(q.lines);
    NewItemsMeaning(s.catalog, OrderOf(q.lines), listing, 0);
  }

  /** What a purchase adds: an item for each line, with its quantity and the price of now. */
  lemma BoughtExactly(s: Shop, q: Purchase, listing: seq<Id>, item: Item)
    requires Found(s.catalog, q, listing) && Check(s, q, listing).Success?
    ensures |Check(s, q, listing).value| == |q.lines|
    ensures item in Check(s, q, listing).value <==>
      && item.variant in s.catalog && s.catalog[item.variant].price == item.unitPrice
      && Line(item.variant, item.quantity) in q.lines
  {
    ItemsOfLines(s, q, listing);
    var items := Check(s, q, listing).value;
    if item in items {
      var j :| 0 <= j < |items| && items[j] == item;
      assert Asks(q.lines, listing[j]);
      var k :| 0 <= k < |q.lines| && q.lines[k].variant == listing[j];
      WantedIs(q.lines, k);
    }
    if k: nat :| k < |q.lines| && q.lines[k] == Line(item.variant, item.quantity) {
      WantedIs(q.lines, k);
      assert item.variant in listing;
      var j :| 0 <= j < |listing| && listing[j] == item.variant;
      assert items[j].variant == item.variant && items[j].quantity == item.quantity;
    }
  }

  // ---- the other writes ----------------------------------------------------

  /** A refund needs a payment that was seen paid, and writes its status only. */
  lemma RefundWrites(s: Shop, i: Id, seen: Status)
    ensures var r := Refund(s, i, seen);
      && (r.Success? <==> i < |s.rows| && s.rows[i].Some? && seen == Paid)
      && (r.Success? ==> r.value == s.(rows := s.rows[i := Some(s.rows[i].value.(status := Refunded))]))
      && (r == Failure(NotFound) <==> !(i < |s.rows| && s.rows[i].Some?))
      && (r == Failure(OnlyPaidIsRefunded) <==> i < |s.rows| && s.rows[i].Some? && seen != Paid)
  {
  }

  /** Some item of the payment fits the stock as it is. */
  predicate SomeItemFits(s: Shop, p: Payment) {
    exists x :: x in p.items && x.variant in s.catalog
      && (s.catalog[x.variant].stock.Some? && x.quantity > 0 ==>
        Sold(s.rows, x.variant) + x.quantity <= s.catalog[x.variant].stock.value)
  }

  predicate ComesBack(p: Payment, status: Status) {
    p.status in {Canceled, Refunded} && status !in {Canceled, Refunded}
  }

  /** The panel changes the status of a payment that is there, unless it was seen paid and is not
      refunded, or it is a purchase without a ticket that comes back from cancelled or refunded and
      no item of it fits the stock. */
  lemma SetStatusExactly(s: Shop, i: Id, seen: Status, status: Status)
    requires WellFormed(s)
    ensures SetStatus(s, i, seen, status).Success? <==>
      && i < |s.rows| && s.rows[i].Some?
      && (seen == Paid ==> status == Refunded)
      && (ComesBack(s.rows[i].value, status) && s.rows[i].value.ticket.None? ==> SomeItemFits(s, s.rows[i].value))
  {
    if IsLive(s.rows, i) {
      SetStatusAnswers(s, i, seen, status);
      forall x | x in s.rows[i].value.items && x.variant in s.catalog
        ensures InStock(s, x.variant, x.quantity) <==>
          (s.catalog[x.variant].stock.Some? && x.quantity > 0 ==>
            Sold(s.rows, x.variant) + x.quantity <= s.catalog[x.variant].stock.value)
      {
      }
    }
  }

  /** The panel is refused what is not there, what was seen paid, and what has come back to nothing. */
  lemma SetStatusRefuses(s: Shop, i: Id, seen: Status, status: Status)
    requires WellFormed(s) && SetStatus(s, i, seen, status).Failure?
    ensures var e := SetStatus(s, i, seen, status).error;
      && (e == NotFound <==> !(i < |s.rows| && s.rows[i].Some?))
      && (e == AlreadyPaid <==> i < |s.rows| && s.rows[i].Some? && seen == Paid && status != Refunded)
      && (e != NotFound && e != AlreadyPaid ==> e.OutOfStock?)
  {
  }

  /** A notification gives every payment of its reference the status, unless the first one it finds
      is paid. */
  lemma NoticeWrites(rows: Rows, ids: set<Id>, status: Status, first: Option<Id>, i: Id)
    requires i < |rows|
    ensures var after := Notice(rows, ids, status, first);
      |after| == |rows| &&
      var paid := first.Some? && first.value < |rows| && rows[first.value].Some?
        && rows[first.value].value.status == Paid;
      after[i] == if !paid && i in ids && rows[i].Some? then Some(rows[i].value.(status := status)) else rows[i]
  {
  }

  /** Who leaves an event loses the ticket payments there and nothing else; a registration adds a
      payment that waits, or is paid when it is free. */
  lemma TicketWrites(s: Shop, user: Id, event: Id, role: Id, price: nat, i: Id)
    requires WellFormed(s) && i < |s.rows|
    ensures var after := Apply(s, RemoveUser(user, event));
      && after.catalog == s.catalog && |after.rows| == |s.rows|
      && after.rows[i] == if s.rows[i].Some? && s.rows[i].value.user == user && s.rows[i].value.event == event
                             && s.rows[i].value.ticket.Some? then None else s.rows[i]
    ensures Apply(s, RegisterTicket(user, event, role, price)) ==
      var status := if price == 0 then Paid else Waiting;
      s.(rows := s.rows + [Some(Payment(user, event, Some(role), status, price, false, []))])
  {
  }

  /** A step of a run is the whole operation, when it goes through, and nothing when it does not. */
  lemma StepsAre(s: Shop, q: Purchase, listing: seq<Id>, i: Id, seen: Status, status: Status, ids: set<Id>,
                 order: seq<Id>, first: Option<Id>)
    requires WellFormed(s) && Found(s.catalog, q, listing) && Cancelled(s.rows, ids, order)
    ensures Buy(s, q, listing).Success? ==> Apply(s, Buying(q, listing)) == Buy(s, q, listing).value
    ensures Buy(s, q, listing).Failure? ==> Apply(s, Buying(q, listing)) == s
    ensures SetStatus(s, i, seen, status).Success? ==>
      Apply(s, Panel(i, seen, status)) == SetStatus(s, i, seen, status).value
    ensures SetStatus(s, i, seen, status).Failure? ==> Apply(s, Panel(i, seen, status)) == s
    ensures Refund(s, i, seen).Success? ==> Apply(s, RefundPaid(i, seen)) == Refund(s, i, seen).value
    ensures Refund(s, i, seen).Failure? ==> Apply(s, RefundPaid(i, seen)) == s
    ensures Apply(s, Charging(ids, order)) == Checkout(s, order)
    ensures Apply(s, Notifying(ids, status, first)) == Shop(s.catalog, Notice(s.rows, ids, status, first))
  {
  }

  /** The gateway link is a field of one payment; the event form changes one variant and no payment. */
  lemma EditWrites(s: Shop, i: Id, open: bool, v: Id, variant: Variant)
    requires WellFormed(s)
    ensures Apply(s, SetCheckout(i, open)) ==
      if i < |s.rows| && s.rows[i].Some? then
        var p := s.rows[i].value;
        Shop(s.catalog, s.rows[i := Some(Payment(p.user, p.event, p.ticket, p.status, p.amount, open, p.items))])
      else s
    ensures Apply(s, EditVariant(v, variant)) == Shop(s.catalog[v := variant], s.rows)
  {
  }

  // ---- a payment that comes back -------------------------------------------

  /** With each variant once, an item is kept exactly when its units were left at the turn. */
  lemma {:induction false} KeptExactly(items: seq<Item>, rest: Remainders, x: Item)
    requires OncePerVariant(items)
    ensures x in SplitItems(items, rest).kept <==>
      x in items && (x.variant in rest && rest[x.variant].Some? ==> x.quantity <= rest[x.variant].value)
    ensures forall v: Id :: (forall k :: 0 <= k < |items| ==> items[k].variant != v) ==>
      Left(SplitItems(items, rest).rest, v) == Left(rest, v)
  {
    if items == [] {
    } else {
      var n := |items| - 1;
      KeptExactly(items[..n], rest, x);
      assert items == items[..n] + [items[n]];
      var t := SplitItems(items[..n], rest);
      forall k | 0 <= k < n
        ensures items[..n][k].variant != items[n].variant
      {
        assert items[..n][k] == items[k];
      }
    }
  }

  /** A turn that gives the first refusal. */
  lemma RefusedHere(catalog: Catalog, rows: Rows, order: seq<Id>, j: nat)
    requires Listed(rows, order) && InCatalog(catalog, rows) && j < |order|
    requires Turn(catalog, rows, order, j).result.refusal.None?
    requires Turn(catalog, rows, order, j + 1).result.refusal.Some?
    ensures order[j] !in Turn(catalog, rows, order, j + 1).result.reactivated
    ensures rows[order[j]].value.items != []
    ensures var why := Turn(catalog, rows, order, j + 1).result.refusal.value;
      var item := rows[order[j]].value.items[0];
      var rest := Turn(catalog, rows, order, j).rest;
      && why.variant == item.variant && item.variant in rest && rest[item.variant] == Some(why.left)
      && item.quantity > why.left
  {
    TurnStep(catalog, rows, order, j);
    var before := Turn(catalog, rows, order, j);
    NotYetBack(catalog, rows, order, j);
    RowAnswers(before, order[j]);
    TurnReady(catalog, rows, order, j);
    RefusedFirst(rows[order[j]].value.items, before.rest);
  }

  /** Once there is a refusal, it stays. */
  lemma RefusalStays(catalog: Catalog, rows: Rows, order: seq<Id>, k: nat)
    requires Listed(rows, order) && InCatalog(catalog, rows) && k < |order|
    requires Turn(catalog, rows, order, k).result.refusal.Some?
    ensures Turn(catalog, rows, order, k + 1).result.refusal == Turn(catalog, rows, order, k).result.refusal
  {
    TurnStep(catalog, rows, order, k);
  }

  /** The refusal of a reactivation names the first item of the first purchase that was refused,
      and what was left of it at its turn. */
  lemma {:induction false} RefusalNames(catalog: Catalog, rows: Rows, order: seq<Id>, k: nat) returns (j: nat)
    requires Listed(rows, order) && InCatalog(catalog, rows) && k <= |order|
    requires Turn(catalog, rows, order, k).result.refusal.Some?
    ensures j < k && AllBack(order, j, Turn(catalog, rows, order, j).result.reactivated)
    ensures order[j] !in Turn(catalog, rows, order, j + 1).result.reactivated
    ensures rows[order[j]].value.items != []
    ensures var why := Turn(catalog, rows, order, k).result.refusal.value;
      var item := rows[order[j]].value.items[0];
      var rest := Turn(catalog, rows, order, j).rest;
      && why.variant == item.variant && item.variant in rest && rest[item.variant] == Some(why.left)
      && item.quantity > why.left
  {
    assert order[..0] == [];
    if k > 0 {
      if Turn(catalog, rows, order, k - 1).result.refusal.Some? {
        RefusalStays(catalog, rows, order, k - 1);
        j := RefusalNames(catalog, rows, order, k - 1);
      } else {
        j := k - 1;
        ReactivationAnswers(catalog, rows, order, j);
        RefusedHere(catalog, rows, order, j);
      }
    }
  }

  lemma RefusedFirst(items: seq<Item>, rest: Remainders)
    requires items != [] && SplitItems(items, rest).kept == []
    ensures SplitItems(items, rest).out == items && SplitItems(items, rest).rest == rest
    ensures items[0].variant in rest && rest[items[0].variant].Some? && items[0].quantity > rest[items[0].variant].value
  {
    SplitNothingKept(items, rest);
    AllOut(items, rest);
    SplitPlaces(items, rest, items[0]);
  }

  lemma {:induction false} AllOut(items: seq<Item>, rest: Remainders)
    requires SplitItems(items, rest).kept == []
    ensures SplitItems(items, rest).out == items
  {
    if items == [] {
    } else {
      var n := |items| - 1;
      AllOut(items[..n], rest);
      assert items == items[..n] + [items[n]];
    }
  }
}
