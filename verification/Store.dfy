/** Buying, the other steps that touch payments, and whole runs of the store: no step sells
    beyond the stock, and every amount stays the ticket price plus the current items. */
module Store {
  import opened Wrappers
  import opened Stock
  import opened Reactivation

  // ---- buying --------------------------------------------------------------

  /** `QUANTIDADE_MAXIMA_POR_ITEM` */
  const MAX_QUANTITY := 20

  datatype Line = Line(variant: Id, quantity: int)

  /** A purchase as it reaches the transaction. `registered`, `storeActive` and
      `publicStore` are what the transaction reads of the registrations and the
      event; `onBehalf` is a purchase made for somebody else. */
  datatype Purchase = Purchase(
    user: Id,
    event: Id,
    lines: seq<Line>,
    attach: bool,
    registered: bool,
    storeActive: bool,
    publicStore: bool,
    onBehalf: bool)

  datatype Problem =
    | EmptyOrder
    | BadQuantity
    | RepeatedItem
    | StoreClosed
    | NotAllowed
    | UnknownProduct
    | OutOfStock(why: Refusal)
    | FreeOnlyForRegistered
    | NotFound
    | AlreadyPaid
    | OnlyPaidIsRefunded
    | NothingToCharge(refunded: bool)
    | NothingBack(refusal: Option<Refusal>)

  /** The first line `montarPedido` refuses. */
  function BadLine(lines: seq<Line>): Option<Problem> {
    if lines == [] then None
    else
      var rest := lines[..|lines| - 1];
      var last := lines[|lines| - 1];
      if BadLine(rest).Some? then BadLine(rest)
      else if !(1 <= last.quantity <= MAX_QUANTITY) then Some(BadQuantity)
      else if exists k :: 0 <= k < |rest| && rest[k].variant == last.variant then Some(RepeatedItem)
      else None
  }

  function OrderOf(lines: seq<Line>): map<Id, nat>
    requires BadLine(lines).None?
  {
    if lines == [] then map[]
    else OrderOf(lines[..|lines| - 1])[lines[|lines| - 1].variant := lines[|lines| - 1].quantity]
  }

  /** An order is accepted iff every line is in range and no variant repeats. */
  lemma {:induction false} AcceptedLines(lines: seq<Line>)
    ensures BadLine(lines).None? <==>
      && (forall k :: 0 <= k < |lines| ==> 1 <= lines[k].quantity <= MAX_QUANTITY)
      && (forall j, k :: 0 <= j < k < |lines| ==> lines[j].variant != lines[k].variant)
  {
    if lines == [] {
    } else {
      var n := |lines| - 1;
      AcceptedLines(lines[..n]);
      if BadLine(lines[..n]).None? && BadLine(lines).Some? && 1 <= lines[n].quantity <= MAX_QUANTITY {
        var k :| 0 <= k < n && lines[..n][k].variant == lines[n].variant;
        assert lines[k].variant == lines[n].variant;
      }
    }
  }

  predicate Asks(lines: seq<Line>, v: Id) {
    exists k :: 0 <= k < |lines| && lines[k].variant == v
  }

  lemma AsksGrow(lines: seq<Line>, v: Id)
    requires lines != []
    ensures var n := |lines| - 1; Asks(lines, v) <==> Asks(lines[..n], v) || lines[n].variant == v
  {
    var n := |lines| - 1;
    if Asks(lines[..n], v) {
      var k :| 0 <= k < n && lines[..n][k].variant == v;
      assert lines[k].variant == v;
    }
    if Asks(lines, v) && lines[n].variant != v {
      var k :| 0 <= k < |lines| && lines[k].variant == v;
      assert lines[..n][k].variant == v;
    }
  }

  /** An accepted order has every line with its quantity, and nothing else. */
  lemma {:induction false} OrderMeaning(lines: seq<Line>, v: Id)
    requires BadLine(lines).None?
    ensures v in OrderOf(lines) <==> Asks(lines, v)
    ensures forall k :: 0 <= k < |lines| && lines[k].variant == v ==> OrderOf(lines)[v] == lines[k].quantity
  {
    if lines == [] {
    } else {
      var n := |lines| - 1;
      OrderMeaning(lines[..n], v);
      AsksGrow(lines, v);
      AcceptedLines(lines);
      assert lines == lines[..n] + [lines[n]];
    }
  }

  lemma OrderKeys(lines: seq<Line>)
    requires BadLine(lines).None?
    ensures forall v :: v in OrderOf(lines) <==> Asks(lines, v)
  {
    forall v
      ensures v in OrderOf(lines) <==> Asks(lines, v)
    {
      OrderMeaning(lines, v);
    }
  }

  /** `podeComprarNaLoja` */
  predicate MayBuy(q: Purchase) {
    q.registered || (!q.onBehalf && q.publicStore)
  }

  /** `listing` is the database's answer, in some order: the asked variants that
      exist in this event. */
  ghost predicate Found(catalog: Catalog, q: Purchase, listing: seq<Id>) {
    && Distinct(listing)
    && forall v :: v in listing <==>
      Asks(q.lines, v) && v in catalog && catalog[v].event == q.event
  }

  predicate InStock(s: Shop, v: Id, quantity: nat)
    requires v in s.catalog
  {
    var left := Available(s.catalog[v].stock, Sold(s.rows, v));
    left.None? || quantity <= left.value
  }

  /** `conferirEstoque`: the first variant of the list that does not fit. */
  function Shortage(s: Shop, order: map<Id, nat>, listing: seq<Id>): Option<Refusal>
    requires forall v :: v in listing ==> v in order && v in s.catalog
  {
    if listing == [] then None
    else
      var rest := Shortage(s, order, listing[..|listing| - 1]);
      var v := listing[|listing| - 1];
      if rest.Some? then rest
      else if InStock(s, v, order[v]) then None
      else Some(Refusal(v, Available(s.catalog[v].stock, Sold(s.rows, v)).value))
  }

  function NewItems(catalog: Catalog, order: map<Id, nat>, listing: seq<Id>): (items: seq<Item>)
    requires forall v :: v in listing ==> v in order && v in catalog
    ensures |items| == |listing|
  {
    if listing == [] then []
    else
      var v := listing[|listing| - 1];
      NewItems(catalog, order, listing[..|listing| - 1]) + [Item(v, order[v], catalog[v].price)]
  }

  /** `ingressoQueAceitaProdutos`: open, or free, with nothing in it and no open
      checkout. */
  predicate TakesProducts(row: Option<Payment>, user: Id, event: Id) {
    && row.Some?
    && row.value.user == user && row.value.event == event && row.value.ticket.Some?
    && row.value.items == [] && !row.value.openCheckout
    && (row.value.status == Waiting || (row.value.status == Paid && row.value.amount == 0))
  }

  /** The oldest such ticket. */
  function TicketFor(rows: Rows, user: Id, event: Id): (r: Option<Id>)
    ensures r.Some? ==> r.value < |rows| && TakesProducts(rows[r.value], user, event)
  {
    if rows == [] then None
    else
      var earlier := TicketFor(rows[..|rows| - 1], user, event);
      if earlier.Some? then earlier
      else if TakesProducts(rows[|rows| - 1], user, event) then Some(|rows| - 1)
      else None
  }

  /** The checks of `_comprarProdutosTx`, in their order; the answer is what to add. */
  function Check(s: Shop, q: Purchase, listing: seq<Id>): (r: Result<seq<Item>, Problem>)
    requires Found(s.catalog, q, listing)
  {
    if q.lines == [] then Failure(EmptyOrder)
    else if BadLine(q.lines).Some? then Failure(BadLine(q.lines).value)
    else if !q.storeActive then Failure(StoreClosed)
    else if !MayBuy(q) then Failure(NotAllowed)
    else
      assert forall v :: v in OrderOf(q.lines) <==> Asks(q.lines, v) by { OrderKeys(q.lines); }
      var order := OrderOf(q.lines);
      if |listing| != |order| then Failure(UnknownProduct)
      else if Shortage(s, order, listing).Some? then Failure(OutOfStock(Shortage(s, order, listing).value))
      else
        var items := NewItems(s.catalog, order, listing);
        if CostOf(items) == 0 && !q.registered then Failure(FreeOnlyForRegistered)
        else Success(items)
  }

  /** A free ticket is born paid; with products it waits again. */
  function Billed(p: Payment, total: nat): Payment {
    p.(amount := p.amount + total, status := if p.status == Paid && total > 0 then Waiting else p.status)
  }

  function SeparatePayment(q: Purchase, total: nat): Payment {
    Payment(q.user, q.event, None, if total > 0 then Waiting else Paid, total, false, [])
  }

  function WithItems(row: Option<Payment>, items: seq<Item>): Option<Payment> {
    if row.Some? then Some(row.value.(items := row.value.items + items)) else None
  }

  /** The items go into the open ticket, or into a payment of their own. */
  function Place(rows: Rows, q: Purchase, items: seq<Item>): Rows {
    var total := CostOf(items);
    var ticket := if q.attach then TicketFor(rows, q.user, q.event) else None;
    if ticket.Some? then rows[ticket.value := WithItems(Some(Billed(rows[ticket.value].value, total)), items)]
    else rows + [WithItems(Some(SeparatePayment(q, total)), items)]
  }

  /** `_comprarProdutosTx`, after `montarPedido`. */
  function Buy(s: Shop, q: Purchase, listing: seq<Id>): Result<Shop, Problem>
    requires Found(s.catalog, q, listing)
  {
    match Check(s, q, listing)
    case Failure(e) => Failure(e)
    case Success(items) => Success(s.(rows := Place(s.rows, q, items)))
  }

  // ---- the other steps -----------------------------------------------------

  predicate WellFormed(s: Shop) {
    && InCatalog(s.catalog, s.rows)
    && forall i :: 0 <= i < |s.rows| && s.rows[i].Some? ==> SaneItems(s.rows[i].value)
  }

  /** The transaction of `updatePaymentStatus`. `seen` is the status the panel read before
      it; the payment may have changed since. */
  function SetStatus(s: Shop, i: Id, seen: Status, status: Status): Result<Shop, Problem>
    requires WellFormed(s)
  {
    if !IsLive(s.rows, i) then Failure(NotFound)
    else if seen == Paid && status != Refunded then Failure(AlreadyPaid)
    else
      var order := if Releases(s.rows[i].value.status) && !Releases(status) then [i] else [];
      var p := Turn(s.catalog, s.rows, order, |order|);
      if p.result.refusal.Some? && p.result.reactivated == [] then Failure(OutOfStock(p.result.refusal.value))
      else Success(s.(rows := p.rows[i := WithStatus(p.rows[i], status)]))
  }

  /** The write of `refundPayment`; `seen` is the status read before it. */
  function Refund(s: Shop, i: Id, seen: Status): Result<Shop, Problem> {
    if !IsLive(s.rows, i) then Failure(NotFound)
    else if seen != Paid then Failure(OnlyPaidIsRefunded)
    else Success(s.(rows := s.rows[i := WithStatus(s.rows[i], Refunded)]))
  }

  /** What a checkout is asked to charge: tickets by their role, separate purchases
      by id, always of this user and event. */
  datatype Charge = Charge(user: Id, event: Id, roles: set<Id>, ids: set<Id>)

  predicate Asked(rows: Rows, c: Charge, i: Id) {
    && IsLive(rows, i)
    && rows[i].value.user == c.user && rows[i].value.event == c.event
    && ((rows[i].value.ticket.Some? && rows[i].value.ticket.value in c.roles) || i in c.ids)
  }

  /** `aCobrar` */
  predicate ToCharge(rows: Rows, c: Charge, i: Id) {
    Asked(rows, c, i) && rows[i].value.status != Paid && rows[i].value.status != Refunded
  }

  /** What `createCheckout` reads first: the payments to charge (`aCobrar`), and which of
      them are not cancelled. */
  datatype Reading = Reading(ids: set<Id>, open: set<Id>)

  function ReadCharge(rows: Rows, c: Charge): Result<Reading, Problem> {
    if !exists i :: 0 <= i < |rows| && Asked(rows, c, i) then Failure(NotFound)
    else if !exists i :: 0 <= i < |rows| && ToCharge(rows, c, i) then
      Failure(NothingToCharge(exists i :: 0 <= i < |rows| && Asked(rows, c, i) && rows[i].value.status == Refunded))
    else
      Success(Reading(
        set i | 0 <= i < |rows| && ToCharge(rows, c, i),
        set i | 0 <= i < |rows| && ToCharge(rows, c, i) && !Releases(rows[i].value.status)))
  }

  /** `order` is the database's answer to `reativarCompras`: those of `ids` that are
      released now, whenever the ids were read. */
  ghost predicate Cancelled(rows: Rows, ids: set<Id>, order: seq<Id>) {
    && Distinct(order)
    && forall i: Id :: i in order <==> i in ids && IsLive(rows, i) && Releases(rows[i].value.status)
  }

  /** The serializable transaction of `createCheckout`: what comes back waits again. */
  function Checkout(s: Shop, order: seq<Id>): Shop {
    s.(rows := After(Turn(s.catalog, s.rows, order, |order|)))
  }

  /** What is charged in the end (`unpaidPayments`); with nothing left there is the refusal. */
  function Charged(read: Reading, result: Reactivation): Result<set<Id>, Problem> {
    var ids := read.open + set i | i in result.reactivated;
    if ids == {} then Failure(NothingBack(result.refusal)) else Success(ids)
  }

  /** The write of a gateway's notification, and of the nightly routine: every payment of the
      reference gets the status, and nothing is checked against the stock. */
  function Notified(rows: Rows, ids: set<Id>, status: Status): Rows {
    WithStatuses(rows, ids, status)
  }

  /** A notification looks at the first payment it finds, and ends there if it is paid; the
      nightly routine does not (`None`). */
  predicate FoundPaid(rows: Rows, first: Option<Id>) {
    first.Some? && IsLive(rows, first.value) && rows[first.value].value.status == Paid
  }

  function Notice(rows: Rows, ids: set<Id>, status: Status, first: Option<Id>): Rows {
    if FoundPaid(rows, first) then rows else Notified(rows, ids, status)
  }

  /** One atomic step of the store. `RegisterTicket`, `RemoveUser`, `SetCheckout` and
      `EditVariant` are what registration, removal, the gateway link and the event
      form do to these tables. An answer the database cannot give changes nothing. What was
      read before a transaction (`seen`, `ids`) may be of any earlier moment. */
  datatype Step =
    | RegisterTicket(user: Id, event: Id, role: Id, price: nat)
    | Buying(q: Purchase, listing: seq<Id>)
    | Panel(i: Id, seen: Status, status: Status)
    | RefundPaid(i: Id, seen: Status)
    | Charging(ids: set<Id>, order: seq<Id>)
    | Notifying(ids: set<Id>, status: Status, first: Option<Id>)
    | SetCheckout(i: Id, open: bool)
    | RemoveUser(user: Id, event: Id)
    | EditVariant(v: Id, variant: Variant)

  function Settle(s: Shop, r: Result<Shop, Problem>): Shop {
    if r.Success? then r.value else s
  }

  ghost function Apply(s: Shop, op: Step): Shop
    requires WellFormed(s)
  {
    match op
    case RegisterTicket(user, event, role, price) =>
      var status := if price > 0 then Waiting else Paid;
      s.(rows := s.rows + [Some(Payment(user, event, Some(role), status, price, false, []))])
    case Buying(q, listing) => if Found(s.catalog, q, listing) then Settle(s, Buy(s, q, listing)) else s
    case Panel(i, seen, status) => Settle(s, SetStatus(s, i, seen, status))
    case RefundPaid(i, seen) => Settle(s, Refund(s, i, seen))
    case Charging(ids, order) => if Cancelled(s.rows, ids, order) then Checkout(s, order) else s
    case Notifying(ids, status, first) => s.(rows := Notice(s.rows, ids, status, first))
    case SetCheckout(i, open) =>
      if IsLive(s.rows, i) then s.(rows := s.rows[i := Some(s.rows[i].value.(openCheckout := open))]) else s
    case RemoveUser(user, event) => s.(rows := WithoutTickets(s.rows, user, event))
    case EditVariant(v, variant) => s.(catalog := s.catalog[v := variant])
  }

  /** `removeUserFromEvent` deletes the ticket payments and leaves separate purchases. */
  function WithoutTickets(rows: Rows, user: Id, event: Id): (r: Rows)
    ensures |r| == |rows|
  {
    seq(|rows|, i requires 0 <= i < |rows| =>
      if rows[i].Some? && rows[i].value.user == user && rows[i].value.event == event && rows[i].value.ticket.Some?
      then None else rows[i])
  }

  // ---- what every step keeps -----------------------------------------------

  /** What is owed besides the products. */
  function BasePrice(p: Payment): int {
    p.amount - CostOf(p.items)
  }

  ghost predicate Honest(s: Shop) {
    && WellFormed(s)
    && forall i :: 0 <= i < |s.rows| && s.rows[i].Some? ==>
      && BasePrice(s.rows[i].value) >= 0
      && (s.rows[i].value.ticket.None? ==> BasePrice(s.rows[i].value) == 0)
  }

  predicate Known(catalog: Catalog, order: map<Id, nat>, listing: seq<Id>) {
    Distinct(listing) && forall v :: v in listing ==> v in order && v in catalog
  }

  lemma {:induction false} NewItemAt(catalog: Catalog, order: map<Id, nat>, listing: seq<Id>, k: nat)
    requires Known(catalog, order, listing) && k < |listing|
    ensures NewItems(catalog, order, listing)[k] == Item(listing[k], order[listing[k]], catalog[listing[k]].price)
  {
    var n := |listing| - 1;
    assert listing[n] in listing;
    if k < n {
      KnownShorter(catalog, order, listing);
      NewItemAt(catalog, order, listing[..n], k);
    }
  }

  lemma KnownShorter(catalog: Catalog, order: map<Id, nat>, listing: seq<Id>)
    requires Known(catalog, order, listing) && listing != []
    ensures Known(catalog, order, listing[..|listing| - 1])
  {
    assert forall v :: v in listing[..|listing| - 1] ==> v in listing;
  }

  lemma {:induction false} NewItemsQuantity(catalog: Catalog, order: map<Id, nat>, listing: seq<Id>, v: Id)
    requires Known(catalog, order, listing)
    ensures QuantityOf(NewItems(catalog, order, listing), v) == if v in listing then order[v] else 0
  {
    if listing == [] {
    } else {
      var n := |listing| - 1;
      var w := listing[n];
      assert listing == listing[..n] + [w];
      KnownShorter(catalog, order, listing);
      NewItemsQuantity(catalog, order, listing[..n], v);
      SumsAppend(NewItems(catalog, order, listing[..n]), Item(w, order[w], catalog[w].price), v);
      assert w !in listing[..n];
    }
  }

  /** The new items are the order, line by line, at the current prices. */
  lemma NewItemsMeaning(catalog: Catalog, order: map<Id, nat>, listing: seq<Id>, v: Id)
    requires Known(catalog, order, listing)
    ensures var items := NewItems(catalog, order, listing);
      && (forall k :: 0 <= k < |listing| ==> items[k] == Item(listing[k], order[listing[k]], catalog[listing[k]].price))
      && QuantityOf(items, v) == if v in listing then order[v] else 0
  {
    forall k | 0 <= k < |listing|
      ensures NewItems(catalog, order, listing)[k] == Item(listing[k], order[listing[k]], catalog[listing[k]].price)
    {
      NewItemAt(catalog, order, listing, k);
    }
    NewItemsQuantity(catalog, order, listing, v);
  }

  lemma {:induction false} ShortageMeaning(s: Shop, order: map<Id, nat>, listing: seq<Id>)
    requires forall v :: v in listing ==> v in order && v in s.catalog
    ensures Shortage(s, order, listing).None? <==>
      forall k :: 0 <= k < |listing| ==> InStock(s, listing[k], order[listing[k]])
  {
    if listing == [] {
    } else {
      var n := |listing| - 1;
      ShortageMeaning(s, order, listing[..n]);
      if Shortage(s, order, listing[..n]).None? {
        assert forall k :: 0 <= k < n ==> InStock(s, listing[..n][k], order[listing[..n][k]]);
        assert forall k :: 0 <= k < n ==> listing[k] == listing[..n][k];
      }
    }
  }

  /** `after` differs from `before` only in status, checkout mark, and in items that
      left together with exactly their price. */
  predicate SameDebt(before: Option<Payment>, after: Option<Payment>) {
    && (after.Some? <==> before.Some?)
    && (after.Some? ==>
      && BasePrice(after.value) == BasePrice(before.value)
      && after.value.ticket == before.value.ticket
      && SaneItems(after.value)
      && forall k :: 0 <= k < |after.value.items| ==> after.value.items[k] in before.value.items)
  }

  ghost predicate SameDebts(before: Rows, after: Rows) {
    |before| == |after| && forall i :: 0 <= i < |before| ==> SameDebt(before[i], after[i])
  }

  lemma RowKeepsDebt(p: Progress, i: Id)
    requires i < |p.rows| && p.rows[i].Some? && SaneItems(p.rows[i].value)
    ensures SameDebt(p.rows[i], ReactivateRow(p, i).rows[i])
  {
    var payment := p.rows[i].value;
    var s := SplitItems(payment.items, p.rest);
    if payment.ticket.Some? || s.kept != [] {
      var back := payment.(items := s.kept, amount := payment.amount - CostOf(s.out));
      assert ReactivateRow(p, i).rows[i] == Some(back);
      SplitConserves(payment.items, p.rest, 0);
      SplitKeepsOrder(payment.items, p.rest);
      assert SaneItems(back) && BasePrice(back) == BasePrice(payment);
      SplitSources(payment.items, p.rest);
      assert forall k :: 0 <= k < |back.items| ==> back.items[k] in back.items;
    }
  }

  lemma {:induction false} TurnKeepsDebts(catalog: Catalog, rows: Rows, order: seq<Id>, k: nat)
    requires Listed(rows, order) && InCatalog(catalog, rows) && k <= |order|
    requires forall i :: 0 <= i < |rows| && rows[i].Some? ==> SaneItems(rows[i].value)
    ensures SameDebts(rows, Turn(catalog, rows, order, k).rows)
  {
    if k == 0 {
      assert order[..0] == [];
    } else {
      TurnStep(catalog, rows, order, k - 1);
      TurnKeepsDebts(catalog, rows, order, k - 1);
      var p := Turn(catalog, rows, order, k - 1);
      forall j | 0 <= j < |rows|
        ensures SameDebt(rows[j], Turn(catalog, rows, order, k).rows[j])
      {
        RowDebtAt(p, order[k - 1], rows, j);
      }
    }
  }

  lemma RowDebtAt(p: Progress, i: Id, rows: Rows, j: Id)
    requires i < |p.rows| && p.rows[i].Some? && SaneItems(p.rows[i].value)
    requires j < |rows| && SameDebts(rows, p.rows) && p.rows[i] == rows[i]
    ensures SameDebt(rows[j], ReactivateRow(p, i).rows[j])
  {
    assert SameDebt(rows[j], p.rows[j]);
    if j == i {
      RowKeepsDebt(p, i);
    } else {
      RowLeaves(p, i, j);
    }
  }

  lemma DebtsKeepHonest(s: Shop, rows: Rows)
    requires Honest(s) && SameDebts(s.rows, rows)
    ensures Honest(s.(rows := rows))
  {
    forall i, j | 0 <= i < |rows| && rows[i].Some? && 0 <= j < |rows[i].value.items|
      ensures rows[i].value.items[j].variant in s.catalog
    {
      assert rows[i].value.items[j] in s.rows[i].value.items;
      var m :| 0 <= m < |s.rows[i].value.items| && s.rows[i].value.items[m] == rows[i].value.items[j];
    }
  }

  // ---- one step: stock -----------------------------------------------------

  ghost predicate WithinStock(s: Shop, s': Shop, v: Id) {
    v in s'.catalog && s'.catalog[v].stock.Some? ==>
      Sold(s'.rows, v) <= Max(s'.catalog[v].stock.value, Sold(s.rows, v))
  }

  /** How much of a variant a purchase asks for. */
  function Wanted(lines: seq<Line>, v: Id): nat {
    if BadLine(lines).None? && v in OrderOf(lines) then OrderOf(lines)[v] else 0
  }

  lemma PlaceSells(rows: Rows, q: Purchase, items: seq<Item>, v: Id)
    ensures Sold(Place(rows, q, items), v) == Sold(rows, v) + QuantityOf(items, v)
  {
    var ticket := if q.attach then TicketFor(rows, q.user, q.event) else None;
    var rows' := Place(rows, q, items);
    if ticket.Some? {
      assert rows[ticket.value].value.items + items == items;
      SoldUpdate(rows, ticket.value, rows'[ticket.value], v);
    } else {
      assert [] + items == items;
      SoldAppend(rows, rows'[|rows|], v);
    }
  }

  function ToSet(order: seq<Id>): set<Id> {
    set v | v in order
  }

  lemma {:induction false} DistinctSize(order: seq<Id>)
    requires Distinct(order)
    ensures |ToSet(order)| == |order|
  {
    if order == [] {
      assert ToSet(order) == {};
    } else {
      var n := |order| - 1;
      DistinctSize(order[..n]);
      assert order == order[..n] + [order[n]];
      assert ToSet(order) == ToSet(order[..n]) + {order[n]};
      assert order[n] !in ToSet(order[..n]);
    }
  }

  lemma SameSize(a: set<Id>, b: set<Id>)
    requires a <= b && |a| == |b|
    ensures a == b
  {
    assert a + (b - a) == b;
    assert b - a == {};
  }

  /** What the checks let through is the order itself, priced and in stock. */
  lemma CheckMeaning(s: Shop, q: Purchase, listing: seq<Id>, v: Id)
    requires Found(s.catalog, q, listing) && Check(s, q, listing).Success?
    ensures QuantityOf(Check(s, q, listing).value, v) == Wanted(q.lines, v)
    ensures Wanted(q.lines, v) > 0 ==> v in s.catalog && InStock(s, v, Wanted(q.lines, v))
  {
    OrderKeys(q.lines);
    var order := OrderOf(q.lines);
    NewItemsMeaning(s.catalog, order, listing, v);
    ShortageMeaning(s, order, listing);
    DistinctSize(listing);
    var listed := ToSet(listing);
    assert listed <= order.Keys && |order| == |order.Keys|;
    SameSize(listed, order.Keys);
    assert v in order <==> v in listed;
  }

  /** A purchase that passes sells exactly what was asked of every variant, and only
      if all of it is in stock. */
  lemma BuySells(s: Shop, q: Purchase, listing: seq<Id>, v: Id)
    requires Found(s.catalog, q, listing) && Buy(s, q, listing).Success?
    ensures Sold(Buy(s, q, listing).value.rows, v) == Sold(s.rows, v) + Wanted(q.lines, v)
    ensures Wanted(q.lines, v) > 0 ==> v in s.catalog && InStock(s, v, Wanted(q.lines, v))
  {
    CheckMeaning(s, q, listing, v);
    PlaceSells(s.rows, q, Check(s, q, listing).value, v);
  }

  lemma {:induction false} SoldLess(rows: Rows, rows': Rows, v: Id)
    requires |rows| == |rows'|
    requires forall i :: 0 <= i < |rows| ==> LiveQuantity(rows'[i], v) <= LiveQuantity(rows[i], v)
    ensures Sold(rows', v) <= Sold(rows, v)
  {
    if rows == [] {
    } else {
      SoldLess(rows[..|rows| - 1], rows'[..|rows| - 1], v);
    }
  }

  lemma ReviveOne(catalog: Catalog, rows: Rows, i: Id, status: Status, v: Id)
    requires Listed(rows, [i]) && InCatalog(catalog, rows) && v in catalog && !Releases(status)
    requires i in Turn(catalog, rows, [i], 1).result.reactivated
    ensures var p := Turn(catalog, rows, [i], 1);
      Sold(p.rows[i := WithStatus(p.rows[i], status)], v) == Sold(After(p), v)
  {
    var p := Turn(catalog, rows, [i], 1);
    var row := WithStatus(p.rows[i], status);
    TurnReactivated(catalog, rows, [i], 1);
    assert [i][..1] == [i];
    assert After(p)[i := row] == p.rows[i := row];
    SoldUpdate(After(p), i, row, v);
  }

  lemma SetStatusSells(s: Shop, i: Id, seen: Status, status: Status, v: Id)
    requires WellFormed(s) && SetStatus(s, i, seen, status).Success? && v in s.catalog
    ensures WithinStock(s, SetStatus(s, i, seen, status).value, v)
  {
    var payment := s.rows[i].value;
    var rows' := SetStatus(s, i, seen, status).value.rows;
    if Releases(payment.status) && !Releases(status) {
      ReactivationTracksStock(s.catalog, s.rows, [i], 1, v);
      ReactivationAnswers(s.catalog, s.rows, [i], 1);
      TurnReactivated(s.catalog, s.rows, [i], 1);
      var back := Turn(s.catalog, s.rows, [i], 1).result.reactivated;
      assert back != [] ==> back[0] in back;
      ReviveOne(s.catalog, s.rows, i, status, v);
    } else {
      var none: seq<Id> := [];
      assert none[..0] == [];
      assert rows' == s.rows[i := WithStatus(s.rows[i], status)];
      SoldUpdate(s.rows, i, rows'[i], v);
    }
  }

  lemma CancelledListed(s: Shop, ids: set<Id>, order: seq<Id>)
    requires WellFormed(s) && Cancelled(s.rows, ids, order)
    ensures Listed(s.rows, order)
  {
    assert forall k :: 0 <= k < |order| ==> order[k] in order;
  }

  lemma CheckoutSells(s: Shop, ids: set<Id>, order: seq<Id>, v: Id)
    requires WellFormed(s) && Cancelled(s.rows, ids, order) && v in s.catalog
    ensures WithinStock(s, Checkout(s, order), v)
  {
    CancelledListed(s, ids, order);
    ReactivationTracksStock(s.catalog, s.rows, order, |order|, v);
  }

  /** What a notification brings back of a variant: the quantities of all the released
      payments of its reference together. */
  function Returning(rows: Rows, ids: set<Id>, v: Id): nat {
    if rows == [] then 0
    else
      var row := rows[|rows| - 1];
      Returning(rows[..|rows| - 1], ids, v)
      + if |rows| - 1 in ids && row.Some? && Releases(row.value.status) then QuantityOf(row.value.items, v) else 0
  }

  lemma {:induction false} NotifiedSells(rows: Rows, ids: set<Id>, status: Status, v: Id)
    requires !Releases(status)
    ensures Sold(Notified(rows, ids, status), v) == Sold(rows, v) + Returning(rows, ids, v)
  {
    if rows == [] {
    } else {
      var n := |rows| - 1;
      NotifiedSells(rows[..n], ids, status, v);
      assert Notified(rows, ids, status)[..n] == Notified(rows[..n], ids, status);
    }
  }

  /** A notification finds its first payment paid, or takes nothing out of stock, or everything
      it brings back, all payments of its reference together, is in stock. */
  ghost predicate Harmless(s: Shop, ids: set<Id>, status: Status, first: Option<Id>) {
    FoundPaid(s.rows, first) || Releases(status)
    || forall v :: v in s.catalog ==> InStock(s, v, Returning(s.rows, ids, v))
  }

  lemma NotifyingSells(s: Shop, ids: set<Id>, status: Status, first: Option<Id>, v: Id)
    requires v in s.catalog
    ensures WithinStock(s, s.(rows := Notice(s.rows, ids, status, first)), v) <==>
      FoundPaid(s.rows, first) || Releases(status) || InStock(s, v, Returning(s.rows, ids, v))
  {
    if FoundPaid(s.rows, first) {
    } else if Releases(status) {
      SoldLess(s.rows, Notified(s.rows, ids, status), v);
    } else {
      NotifiedSells(s.rows, ids, status, v);
    }
  }

  lemma BuyWithinStock(s: Shop, q: Purchase, listing: seq<Id>, v: Id)
    requires Found(s.catalog, q, listing) && Buy(s, q, listing).Success?
    ensures WithinStock(s, Buy(s, q, listing).value, v)
  {
    BuySells(s, q, listing, v);
  }

  lemma EditSells(s: Shop, i: Id, row: Option<Payment>, v: Id)
    requires i < |s.rows| && LiveQuantity(row, v) <= LiveQuantity(s.rows[i], v)
    ensures WithinStock(s, s.(rows := s.rows[i := row]), v)
  {
    SoldUpdate(s.rows, i, row, v);
  }

  /** No step sells a limited variant beyond its stock, except what had been sold
      beyond it already (the stock may have been lowered by hand). Only a gateway's
      notification has to be harmless for that. */
  lemma StepWithinStock(s: Shop, op: Step, v: Id)
    requires WellFormed(s) && (op.Notifying? ==> Harmless(s, op.ids, op.status, op.first))
    ensures WithinStock(s, Apply(s, op), v)
  {
    match op
    case RegisterTicket(_, _, _, _) => SoldAppend(s.rows, Apply(s, op).rows[|s.rows|], v);
    case Buying(q, listing) =>
      if Found(s.catalog, q, listing) && Buy(s, q, listing).Success? {
        BuyWithinStock(s, q, listing, v);
      }
    case Panel(i, seen, status) =>
      if v in s.catalog && SetStatus(s, i, seen, status).Success? {
        SetStatusSells(s, i, seen, status, v);
      }
    case RefundPaid(i, seen) =>
      if Refund(s, i, seen).Success? {
        EditSells(s, i, WithStatus(s.rows[i], Refunded), v);
      }
    case Charging(ids, order) =>
      if v in s.catalog && Cancelled(s.rows, ids, order) {
        CheckoutSells(s, ids, order, v);
      }
    case Notifying(ids, status, first) =>
      if v in s.catalog {
        NotifyingSells(s, ids, status, first, v);
      }
    case SetCheckout(i, open) =>
      if IsLive(s.rows, i) {
        EditSells(s, i, Some(s.rows[i].value.(openCheckout := open)), v);
      }
    case RemoveUser(_, _) => SoldLess(s.rows, Apply(s, op).rows, v);
    case EditVariant(_, _) =>
  }

  /** Rows are never reused, and what a payment owes besides its products never changes. */
  ghost predicate KeepsBase(before: Rows, after: Rows) {
    && |before| <= |after|
    && forall i :: 0 <= i < |before| && after[i].Some? ==>
      && before[i].Some?
      && BasePrice(after[i].value) == BasePrice(before[i].value)
      && after[i].value.ticket == before[i].value.ticket
  }

  /** Items that can be added to a payment as they are. */
  predicate SaneNew(catalog: Catalog, items: seq<Item>) {
    && items != []
    && (forall k :: 0 <= k < |items| ==> items[k].variant in catalog)
    && OncePerVariant(items)
  }

  lemma NewItemsSane(catalog: Catalog, order: map<Id, nat>, listing: seq<Id>)
    requires Distinct(listing) && forall v :: v in listing ==> v in order && v in catalog
    requires listing != []
    ensures SaneNew(catalog, NewItems(catalog, order, listing))
  {
    NewItemsMeaning(catalog, order, listing, 0);
    var items := NewItems(catalog, order, listing);
    forall k | 0 <= k < |items|
      ensures items[k].variant == listing[k]
    {
    }
  }

  lemma OrderNotEmpty(lines: seq<Line>)
    requires BadLine(lines).None? && lines != []
    ensures |OrderOf(lines)| > 0
  {
    assert Asks(lines, lines[0].variant);
    OrderMeaning(lines, lines[0].variant);
  }

  /** What the checks let through can be added to a payment as it is. */
  lemma CheckedItems(s: Shop, q: Purchase, listing: seq<Id>)
    requires Found(s.catalog, q, listing) && Check(s, q, listing).Success?
    ensures SaneNew(s.catalog, Check(s, q, listing).value)
  {
    OrderKeys(q.lines);
    OrderNotEmpty(q.lines);
    NewItemsSane(s.catalog, OrderOf(q.lines), listing);
  }

  lemma PlaceKeeps(s: Shop, q: Purchase, items: seq<Item>)
    requires Honest(s) && SaneNew(s.catalog, items)
    ensures var rows := Place(s.rows, q, items);
      && Honest(s.(rows := rows)) && KeepsBase(s.rows, rows)
      && forall i :: |s.rows| <= i < |rows| && rows[i].Some? ==> BasePrice(rows[i].value) == 0
  {
    var ticket := if q.attach then TicketFor(s.rows, q.user, q.event) else None;
    var rows := Place(s.rows, q, items);
    if ticket.Some? {
      assert s.rows[ticket.value].value.items + items == items;
      PlacedRowKeeps(s, ticket.value, rows[ticket.value]);
    } else {
      assert [] + items == items;
      assert rows == s.rows + [rows[|s.rows|]];
      assert BasePrice(rows[|s.rows|].value) == 0;
    }
  }

  lemma PlacedRowKeeps(s: Shop, i: Id, row: Option<Payment>)
    requires Honest(s) && IsLive(s.rows, i) && row.Some?
    requires row.value.ticket == s.rows[i].value.ticket && row.value.ticket.Some?
    requires BasePrice(row.value) == BasePrice(s.rows[i].value) && SaneItems(row.value)
    requires forall k :: 0 <= k < |row.value.items| ==> row.value.items[k].variant in s.catalog
    ensures Honest(s.(rows := s.rows[i := row])) && KeepsBase(s.rows, s.rows[i := row])
  {
  }

  lemma DebtsKeepBase(s: Shop, rows: Rows)
    requires Honest(s) && SameDebts(s.rows, rows)
    ensures Honest(s.(rows := rows)) && KeepsBase(s.rows, rows)
  {
    DebtsKeepHonest(s, rows);
  }

  lemma StatusKeepsDebts(rows: Rows, rows': Rows, i: Id, status: Status)
    requires SameDebts(rows, rows') && i < |rows|
    ensures SameDebts(rows, rows'[i := WithStatus(rows'[i], status)])
  {
    forall j | 0 <= j < |rows|
      ensures SameDebt(rows[j], rows'[i := WithStatus(rows'[i], status)][j])
    {
      assert SameDebt(rows[j], rows'[j]);
    }
  }

  lemma SetStatusKeeps(s: Shop, i: Id, seen: Status, status: Status)
    requires Honest(s) && SetStatus(s, i, seen, status).Success?
    ensures SameDebts(s.rows, SetStatus(s, i, seen, status).value.rows)
  {
    var order := if Releases(s.rows[i].value.status) && !Releases(status) then [i] else [];
    TurnKeepsDebts(s.catalog, s.rows, order, |order|);
    StatusKeepsDebts(s.rows, Turn(s.catalog, s.rows, order, |order|).rows, i, status);
  }

  lemma StatusesKeepDebts(rows: Rows, rows': Rows, ids: set<Id>, status: Status)
    requires SameDebts(rows, rows')
    ensures SameDebts(rows, WithStatuses(rows', ids, status))
  {
    forall i | 0 <= i < |rows|
      ensures SameDebt(rows[i], WithStatuses(rows', ids, status)[i])
    {
      assert SameDebt(rows[i], rows'[i]);
    }
  }

  lemma CheckoutKeeps(s: Shop, ids: set<Id>, order: seq<Id>)
    requires Honest(s) && Cancelled(s.rows, ids, order)
    ensures SameDebts(s.rows, Checkout(s, order).rows)
  {
    CancelledListed(s, ids, order);
    TurnKeepsDebts(s.catalog, s.rows, order, |order|);
    var p := Turn(s.catalog, s.rows, order, |order|);
    StatusesKeepDebts(s.rows, p.rows, (set i | i in p.result.reactivated), Waiting);
  }

  lemma AppendKeeps(s: Shop, p: Payment)
    requires Honest(s) && p.ticket.Some? && p.items == [] && p.amount >= 0
    ensures Honest(s.(rows := s.rows + [Some(p)])) && KeepsBase(s.rows, s.rows + [Some(p)])
  {
  }

  lemma EditKeeps(s: Shop, i: Id, row: Option<Payment>)
    requires Honest(s) && IsLive(s.rows, i) && row.Some?
    requires row.value.ticket == s.rows[i].value.ticket
    requires row.value.items == s.rows[i].value.items && row.value.amount == s.rows[i].value.amount
    ensures Honest(s.(rows := s.rows[i := row])) && KeepsBase(s.rows, s.rows[i := row])
  {
  }

  lemma RemovalKeeps(s: Shop, rows: Rows)
    requires Honest(s) && |rows| == |s.rows|
    requires forall i :: 0 <= i < |rows| ==> rows[i] == s.rows[i] || rows[i].None?
    ensures Honest(s.(rows := rows)) && KeepsBase(s.rows, rows)
  {
  }

  lemma StepKeeps(s: Shop, op: Step)
    requires Honest(s)
    ensures Honest(Apply(s, op)) && KeepsBase(s.rows, Apply(s, op).rows)
    ensures var rows := Apply(s, op).rows;
      forall i :: |s.rows| <= i < |rows| && rows[i].Some? ==>
        BasePrice(rows[i].value) == if op.RegisterTicket? then op.price else 0
  {
    match op
    case Buying(q, listing) =>
      if Found(s.catalog, q, listing) && Buy(s, q, listing).Success? {
        CheckedItems(s, q, listing);
        PlaceKeeps(s, q, Check(s, q, listing).value);
      }
    case Panel(i, seen, status) =>
      if SetStatus(s, i, seen, status).Success? {
        SetStatusKeeps(s, i, seen, status);
        DebtsKeepBase(s, Apply(s, op).rows);
      }
    case Charging(ids, order) =>
      if Cancelled(s.rows, ids, order) {
        CheckoutKeeps(s, ids, order);
        DebtsKeepBase(s, Apply(s, op).rows);
      }
    case Notifying(ids, status, _) =>
      StatusesKeepDebts(s.rows, s.rows, ids, status);
      DebtsKeepBase(s, Apply(s, op).rows);
    case RegisterTicket(user, event, role, price) =>
      AppendKeeps(s, Payment(user, event, Some(role), if price > 0 then Waiting else Paid, price, false, []));
    case RefundPaid(i, seen) =>
      if Refund(s, i, seen).Success? {
        EditKeeps(s, i, WithStatus(s.rows[i], Refunded));
      }
    case SetCheckout(i, open) =>
      if IsLive(s.rows, i) {
        EditKeeps(s, i, Some(s.rows[i].value.(openCheckout := open)));
      }
    case RemoveUser(_, _) => RemovalKeeps(s, Apply(s, op).rows);
    case EditVariant(_, _) =>
  }

  // ---- whole runs ----------------------------------------------------------

  ghost function Run(s: Shop, ops: seq<Step>): (r: Shop)
    requires Honest(s)
    ensures Honest(r) && |s.rows| <= |r.rows|
  {
    if ops == [] then s
    else
      var before := Run(s, ops[..|ops| - 1]);
      StepKeeps(before, ops[|ops| - 1]);
      Apply(before, ops[|ops| - 1])
  }

  ghost predicate Limited(s: Shop, v: Id) {
    v in s.catalog && s.catalog[v].stock.Some?
  }

  /** The variant has a limit at every moment of the run. */
  ghost predicate LimitedAlong(s: Shop, ops: seq<Step>, v: Id)
    requires Honest(s)
  {
    Limited(Run(s, ops), v) && (ops != [] ==> LimitedAlong(s, ops[..|ops| - 1], v))
  }

  /** Every notification of the run was harmless when it came. */
  ghost predicate HarmlessAlong(s: Shop, ops: seq<Step>)
    requires Honest(s)
  {
    ops != [] ==>
      var n := |ops| - 1;
      && HarmlessAlong(s, ops[..n])
      && (ops[n].Notifying? ==> Harmless(Run(s, ops[..n]), ops[n].ids, ops[n].status, ops[n].first))
  }

  function StockOf(s: Shop, v: Id): nat {
    if v in s.catalog && s.catalog[v].stock.Some? then s.catalog[v].stock.value else 0
  }

  /** The largest stock the variant had at any moment of the run. */
  ghost function PeakStock(s: Shop, ops: seq<Step>, v: Id): nat
    requires Honest(s)
  {
    if ops == [] then StockOf(s, v)
    else Max(PeakStock(s, ops[..|ops| - 1], v), StockOf(Run(s, ops), v))
  }

  /** Over every run of registrations, purchases, status changes, refunds, checkout
      reactivations, removals, catalogue edits and harmless notifications, a limited variant
      is never sold beyond the largest stock it had, or what was sold at the start. */
  lemma {:induction false} NeverOversold(s: Shop, ops: seq<Step>, v: Id)
    requires Honest(s) && LimitedAlong(s, ops, v) && HarmlessAlong(s, ops)
    ensures Sold(Run(s, ops).rows, v) <= Max(PeakStock(s, ops, v), Sold(s.rows, v))
  {
    if ops == [] {
    } else {
      var n := |ops| - 1;
      NeverOversold(s, ops[..n], v);
      StepWithinStock(Run(s, ops[..n]), ops[n], v);
    }
  }

  /** The ticket price with which row `i` was created; a separate purchase owes nothing
      besides its products. */
  ghost function OwedAtBirth(s: Shop, ops: seq<Step>, i: Id): int
    requires Honest(s) && i < |Run(s, ops).rows|
  {
    if i < |s.rows| then
      if s.rows[i].Some? then BasePrice(s.rows[i].value) else 0
    else if i < |Run(s, ops[..|ops| - 1]).rows| then OwedAtBirth(s, ops[..|ops| - 1], i)
    else if ops[|ops| - 1].RegisterTicket? then ops[|ops| - 1].price
    else 0
  }

  /** Over every run, every payment costs its ticket price at registration plus its
      current items at the price they were bought, so no amount is ever negative. */
  lemma {:induction false} AmountsAddUp(s: Shop, ops: seq<Step>, i: Id)
    requires Honest(s) && IsLive(Run(s, ops).rows, i)
    ensures var p := Run(s, ops).rows[i].value;
      p.amount == OwedAtBirth(s, ops, i) + CostOf(p.items) && p.amount >= 0
  {
    if ops == [] {
    } else {
      var n := |ops| - 1;
      var before := Run(s, ops[..n]);
      StepKeeps(before, ops[n]);
      if i < |before.rows| {
        AmountsAddUp(s, ops[..n], i);
      }
    }
  }

  /** A notification keeps within the stock exactly when it is harmless. */
  lemma GatewayKeepsStock(s: Shop, ids: set<Id>, status: Status, first: Option<Id>)
    requires WellFormed(s)
    ensures (forall v :: v in s.catalog ==> WithinStock(s, Apply(s, Notifying(ids, status, first)), v))
      <==> Harmless(s, ids, status, first)
  {
    forall v | v in s.catalog
      ensures WithinStock(s, Apply(s, Notifying(ids, status, first)), v) <==>
        FoundPaid(s.rows, first) || Releases(status) || InStock(s, v, Returning(s.rows, ids, v))
    {
      NotifyingSells(s, ids, status, first, v);
    }
  }

  /** One unit in stock, and two payments of one unit each. */
  function TwoOrders(first: Payment, second: Payment): Shop {
    Shop(map[7 := Variant(1, 500, Some(1))], [Some(first), Some(second)])
  }

  function Shirt(user: Id, ticket: Option<Id>, status: Status): Payment {
    Payment(user, 1, ticket, status, 500, false, [Item(7, 1, 500)])
  }

  /** The sums over two payments of one unit each. */
  lemma TwoSums(first: Payment, second: Payment, ids: set<Id>)
    requires first.items == [Item(7, 1, 500)] && second.items == [Item(7, 1, 500)]
    ensures Sold(TwoOrders(first, second).rows, 7) ==
      (if Releases(first.status) then 0 else 1) + (if Releases(second.status) then 0 else 1)
    ensures Returning(TwoOrders(first, second).rows, ids, 7) ==
      (if 0 in ids && Releases(first.status) then 1 else 0) + (if 1 in ids && Releases(second.status) then 1 else 0)
  {
    var rows := TwoOrders(first, second).rows;
    OneUnit();
    assert rows[..1] == [Some(first)] && rows[..1][..0] == [];
    assert Sold(rows[..1], 7) == if Releases(first.status) then 0 else 1;
    assert Returning(rows[..1][..0], ids, 7) == 0;
    assert Returning(rows[..1], ids, 7) == if 0 in ids && Releases(first.status) then 1 else 0;
  }

  lemma OneUnit()
    ensures QuantityOf([Item(7, 1, 500)], 7) == 1 && CostOf([Item(7, 1, 500)]) == 500
  {
    assert [Item(7, 1, 500)][..0] == [];
  }

  lemma NotifyTwo(first: Payment, second: Payment, ids: set<Id>, found: Option<Id>)
    requires !FoundPaid(TwoOrders(first, second).rows, found)
    requires first.items == [Item(7, 1, 500)] && second.items == [Item(7, 1, 500)]
    requires WellFormed(TwoOrders(first, second))
    ensures WithinStock(TwoOrders(first, second), Apply(TwoOrders(first, second), Notifying(ids, Paid, found)), 7) <==>
      InStock(TwoOrders(first, second), 7, Returning(TwoOrders(first, second).rows, ids, 7))
  {
    NotifyingSells(TwoOrders(first, second), ids, Paid, found, 7);
  }

  /** It can oversell: the last unit is sold again while its first, cancelled, purchase is
      paid late at the gateway. */
  lemma GatewayMayOversell()
    ensures var s := TwoOrders(Shirt(1, None, Canceled), Shirt(2, None, Paid));
      Honest(s) && !WithinStock(s, Apply(s, Notifying({0}, Paid, Some(0))), 7)
  {
    OneUnit();
    TwoSums(Shirt(1, None, Canceled), Shirt(2, None, Paid), {0});
    NotifyTwo(Shirt(1, None, Canceled), Shirt(2, None, Paid), {0}, Some(0));
  }

  /** The payments of one reference count together: the stock has room for either of two
      cancelled payments, and not for both. */
  lemma TogetherTheyOversell()
    ensures var s := TwoOrders(Shirt(1, Some(3), Canceled), Shirt(1, Some(4), Canceled));
      && Honest(s)
      && WithinStock(s, Apply(s, Notifying({0}, Paid, Some(0))), 7)
      && WithinStock(s, Apply(s, Notifying({1}, Paid, Some(1))), 7)
      && !WithinStock(s, Apply(s, Notifying({0, 1}, Paid, Some(0))), 7)
  {
    var first, second := Shirt(1, Some(3), Canceled), Shirt(1, Some(4), Canceled);
    OneUnit();
    TwoSums(first, second, {0});
    TwoSums(first, second, {1});
    TwoSums(first, second, {0, 1});
    NotifyTwo(first, second, {0}, Some(0));
    NotifyTwo(first, second, {1}, Some(1));
    NotifyTwo(first, second, {0, 1}, Some(0));
  }

  // ---- what each operation answers -----------------------------------------

  /** At the start the remainders answer as the stock does. */
  lemma StartFits(s: Shop, order: seq<Id>, x: Item)
    requires x.variant in VariantsOf(s.rows, order) && x.variant in s.catalog
    ensures Fits(Start(s.catalog, s.rows, order).rest, x) <==> InStock(s, x.variant, x.quantity)
  {
  }

  /** Some item of the payment is in stock now. */
  predicate SomeInStock(s: Shop, i: Id)
    requires WellFormed(s) && IsLive(s.rows, i)
  {
    exists x :: x in s.rows[i].value.items && x.variant in s.catalog && InStock(s, x.variant, x.quantity)
  }

  lemma OneTurn(s: Shop, i: Id)
    requires WellFormed(s) && IsLive(s.rows, i) && Releases(s.rows[i].value.status)
    ensures Turn(s.catalog, s.rows, [i], 1) == ReactivateRow(Start(s.catalog, s.rows, [i]), i)
    ensures i in Turn(s.catalog, s.rows, [i], 1).result.reactivated <==>
      s.rows[i].value.ticket.Some? || SomeInStock(s, i)
  {
    var start := Start(s.catalog, s.rows, [i]);
    assert [i][..1] == [i] && [i][..0] == [];
    assert ReactivateRows(start, [i][..0]) == start;
    TurnStep(s.catalog, s.rows, [i], 0);
    RowDecides(start, i);
    ListedItemsKnown(s.rows, [i], 0);
    forall x | x in s.rows[i].value.items
      ensures x.variant in s.catalog && (Fits(start.rest, x) <==> InStock(s, x.variant, x.quantity))
    {
      var j :| 0 <= j < |s.rows[i].value.items| && s.rows[i].value.items[j] == x;
      StartFits(s, [i], x);
    }
  }

  lemma RefusedAlone(s: Shop, i: Id)
    requires WellFormed(s) && IsLive(s.rows, i) && Releases(s.rows[i].value.status)
    ensures var answer := Turn(s.catalog, s.rows, [i], 1).result;
      answer.refusal.Some? && answer.reactivated == [] <==> i !in answer.reactivated
  {
    ReactivationAnswers(s.catalog, s.rows, [i], 1);
    ReactivatedListed(s.catalog, s.rows, [i], 1);
    var back := Turn(s.catalog, s.rows, [i], 1).result.reactivated;
    assert back != [] ==> back[0] in back;
    assert [i][..1] == [i];
    assert AllBack([i], 1, back) <==> [i][0] in back;
  }

  /** The panel may change a status, unless it saw the payment paid and is not refunding, or
      a purchase without a ticket comes back and none of its items is in stock. */
  lemma SetStatusAnswers(s: Shop, i: Id, seen: Status, status: Status)
    requires WellFormed(s) && IsLive(s.rows, i)
    ensures SetStatus(s, i, seen, status).Success? <==>
      && (seen == Paid ==> status == Refunded)
      && (Releases(s.rows[i].value.status) && !Releases(status) ==> s.rows[i].value.ticket.Some? || SomeInStock(s, i))
  {
    if Releases(s.rows[i].value.status) && !Releases(status) {
      OneTurn(s, i);
      RefusedAlone(s, i);
    } else {
      NoTurn(s);
    }
  }

  lemma NoTurn(s: Shop)
    ensures Turn(s.catalog, s.rows, [], 0).rows == s.rows
    ensures Turn(s.catalog, s.rows, [], 0).result == Reactivation([], [], None)
  {
    var none: seq<Id> := [];
    assert none[..0] == [];
  }

  /** It writes the status it was asked for, and no other payment changes. */
  lemma SetStatusWrites(s: Shop, i: Id, seen: Status, status: Status, j: Id)
    requires WellFormed(s) && IsLive(s.rows, i) && SetStatus(s, i, seen, status).Success? && j < |s.rows|
    ensures IsLive(SetStatus(s, i, seen, status).value.rows, i)
    ensures SetStatus(s, i, seen, status).value.rows[i].value.status == status
    ensures j != i ==> SetStatus(s, i, seen, status).value.rows[j] == s.rows[j]
    ensures !(Releases(s.rows[i].value.status) && !Releases(status)) ==>
      SetStatus(s, i, seen, status).value.rows[i] == WithStatus(s.rows[i], status)
  {
    if Releases(s.rows[i].value.status) && !Releases(status) {
      OneTurn(s, i);
      if j != i {
        RowLeaves(Start(s.catalog, s.rows, [i]), i, j);
      }
    } else {
      var none: seq<Id> := [];
      assert none[..0] == [];
    }
  }

  /** After a checkout the payments let back in wait, and every other one is as it was. */
  lemma CheckoutWrites(s: Shop, ids: set<Id>, order: seq<Id>, i: Id)
    requires WellFormed(s) && Cancelled(s.rows, ids, order) && i < |s.rows|
    ensures var p := Turn(s.catalog, s.rows, order, |order|);
      && (i in p.result.reactivated ==> i in ids)
      && Checkout(s, order).rows[i] == if i in p.result.reactivated then WithStatus(p.rows[i], Waiting) else s.rows[i]
  {
    CancelledListed(s, ids, order);
    var p := Turn(s.catalog, s.rows, order, |order|);
    assert order[..|order|] == order;
    ReactivatedListed(s.catalog, s.rows, order, |order|);
    if i !in p.result.reactivated {
      if i in order {
        var k :| 0 <= k < |order| && order[k] == i;
        TurnDecides(s.catalog, s.rows, order, k);
      } else {
        TurnFrame(s.catalog, s.rows, order, |order|, i);
      }
    }
  }

  /** The payment is to be charged, and is live after the transaction. */
  predicate StillDue(s: Shop, c: Charge, after: Rows, i: Id) {
    ToCharge(s.rows, c, i) && IsLive(after, i) && !Releases(after[i].value.status)
  }

  lemma BackIsDue(s: Shop, c: Charge, order: seq<Id>, i: Id)
    requires WellFormed(s) && ReadCharge(s.rows, c).Success?
    requires Cancelled(s.rows, ReadCharge(s.rows, c).value.ids, order)
    ensures StillDue(s, c, Checkout(s, order).rows, i) <==>
      i in ReadCharge(s.rows, c).value.open || i in Turn(s.catalog, s.rows, order, |order|).result.reactivated
  {
    var read := ReadCharge(s.rows, c).value;
    var p := Turn(s.catalog, s.rows, order, |order|);
    CancelledListed(s, read.ids, order);
    ReactivatedListed(s.catalog, s.rows, order, |order|);
    assert order[..|order|] == order;
    if i < |s.rows| {
      CheckoutWrites(s, read.ids, order, i);
      TurnLives(s.catalog, s.rows, order, |order|, i);
      assert i in read.ids <==> ToCharge(s.rows, c, i);
      assert i in read.open <==> ToCharge(s.rows, c, i) && !Releases(s.rows[i].value.status);
    } else {
      assert i !in order;
    }
  }

  lemma DueAreCharged(s: Shop, c: Charge, order: seq<Id>)
    requires WellFormed(s) && ReadCharge(s.rows, c).Success?
    requires Cancelled(s.rows, ReadCharge(s.rows, c).value.ids, order)
    ensures var charged := Charged(ReadCharge(s.rows, c).value, Turn(s.catalog, s.rows, order, |order|).result);
      && (charged.Failure? <==> forall i: Id :: !StillDue(s, c, Checkout(s, order).rows, i))
      && (charged.Success? ==> forall i: Id :: i in charged.value <==> StillDue(s, c, Checkout(s, order).rows, i))
  {
    var read := ReadCharge(s.rows, c).value;
    var back := Turn(s.catalog, s.rows, order, |order|).result.reactivated;
    var ids := read.open + set i | i in back;
    forall i: Id
      ensures i in ids <==> StillDue(s, c, Checkout(s, order).rows, i)
    {
      BackIsDue(s, c, order, i);
    }
    if ids != {} {
      var i :| i in ids;
      assert StillDue(s, c, Checkout(s, order).rows, i);
    }
  }

  /** A payment is read exactly when it is of this user and event, its ticket or its id is asked
      for, and it is neither paid nor refunded; and it is read as open exactly when it is not
      cancelled. */
  lemma ChargeReads(rows: Rows, c: Charge, i: Id)
    requires ReadCharge(rows, c).Success?
    ensures i in ReadCharge(rows, c).value.ids <==>
      && i < |rows| && rows[i].Some? && rows[i].value.user == c.user && rows[i].value.event == c.event
      && ((rows[i].value.ticket.Some? && rows[i].value.ticket.value in c.roles) || i in c.ids)
      && rows[i].value.status in {Waiting, InAnalysis, Declined, Canceled}
    ensures i in ReadCharge(rows, c).value.open <==>
      i in ReadCharge(rows, c).value.ids && rows[i].value.status != Canceled
  {
  }

  /** The payment is of this user and event, and its ticket or its id is asked for. */
  predicate Names(c: Charge, p: Payment, i: Id) {
    && p.user == c.user && p.event == c.event
    && ((p.ticket.Some? && p.ticket.value in c.roles) || i in c.ids)
  }

  predicate NamedIn(rows: Rows, c: Charge, i: Id) {
    i < |rows| && rows[i].Some? && Names(c, rows[i].value, i)
  }

  /** There is nothing to read exactly when no such payment exists; nothing to charge exactly when
      all of them are paid or refunded, and the answer tells whether one is refunded. */
  lemma ChargeRefuses(rows: Rows, c: Charge)
    ensures var r := ReadCharge(rows, c);
      && (r == Failure(NotFound) <==> forall i: Id :: !NamedIn(rows, c, i))
      && (r.Success? <==> exists i: Id :: NamedIn(rows, c, i) && rows[i].value.status !in {Paid, Refunded})
      && (r.Failure? && r.error != NotFound ==>
        r.error == NothingToCharge(exists i: Id :: NamedIn(rows, c, i) && rows[i].value.status == Refunded))
  {
    forall i: Id
      ensures i < |rows| && Asked(rows, c, i) <==> NamedIn(rows, c, i)
      ensures i < |rows| && ToCharge(rows, c, i) <==> NamedIn(rows, c, i) && rows[i].value.status !in {Paid, Refunded}
    {
    }
    if i: Id :| NamedIn(rows, c, i) && rows[i].value.status == Refunded {
      assert Asked(rows, c, i);
    }
  }

  /** Unless something changed since the payments were read, a payment is charged exactly when it
      was to be paid and is live after the transaction: neither cancelled nor refunded. It is
      refused exactly when there is none. */
  lemma CheckoutCharges(s: Shop, c: Charge, order: seq<Id>, i: Id)
    requires WellFormed(s) && ReadCharge(s.rows, c).Success?
    requires Cancelled(s.rows, ReadCharge(s.rows, c).value.ids, order)
    ensures var charged := Charged(ReadCharge(s.rows, c).value, Turn(s.catalog, s.rows, order, |order|).result);
      var after := Checkout(s, order).rows;
      && |after| == |s.rows|
      && (charged.Success? ==>
        (i in charged.value <==>
          && i < |s.rows| && s.rows[i].Some? && Names(c, s.rows[i].value, i)
          && s.rows[i].value.status != Paid && s.rows[i].value.status != Refunded
          && after[i].Some? && after[i].value.status in {Waiting, InAnalysis, Declined, Paid}))
      && (charged.Failure? && i < |s.rows| && s.rows[i].Some? && Names(c, s.rows[i].value, i)
          && s.rows[i].value.status != Paid && s.rows[i].value.status != Refunded ==>
        after[i].Some? && after[i].value.status in {Canceled, Refunded})
      && (charged.Success? ==> charged.value != {})
  {
    DueAreCharged(s, c, order);
    var after := Checkout(s, order).rows;
    if i < |s.rows| {
      TurnLives(s.catalog, s.rows, order, |order|, i);
      CheckoutWrites(s, ReadCharge(s.rows, c).value.ids, order, i);
      assert StillDue(s, c, after, i) <==>
        && s.rows[i].Some? && Names(c, s.rows[i].value, i)
        && s.rows[i].value.status != Paid && s.rows[i].value.status != Refunded
        && after[i].Some? && after[i].value.status in {Waiting, InAnalysis, Declined, Paid};
    }
  }

  /** No turn deletes a payment. */
  lemma {:induction false} TurnLives(catalog: Catalog, rows: Rows, order: seq<Id>, k: nat, i: Id)
    requires k <= |order| && i < |rows|
    ensures Turn(catalog, rows, order, k).rows[i].Some? <==> rows[i].Some?
  {
    if k == 0 {
      assert order[..0] == [];
    } else {
      assert order[..k][..k - 1] == order[..k - 1];
      TurnLives(catalog, rows, order, k - 1, i);
    }
  }

  /** The products go into the oldest ticket that takes them, if there is one. */
  lemma {:induction false} TicketIsOldest(rows: Rows, user: Id, event: Id)
    ensures TicketFor(rows, user, event).None? ==> forall i :: 0 <= i < |rows| ==> !TakesProducts(rows[i], user, event)
    ensures TicketFor(rows, user, event).Some? ==>
      forall i :: 0 <= i < TicketFor(rows, user, event).value ==> !TakesProducts(rows[i], user, event)
  {
    if rows == [] {
    } else {
      TicketIsOldest(rows[..|rows| - 1], user, event);
    }
  }

  /** One payment gets the items and costs that much more, and it is not left as paid when
      there is something to pay; the others stay as they are. */
  lemma PlaceWrites(rows: Rows, q: Purchase, items: seq<Item>) returns (i: Id)
    ensures i < |Place(rows, q, items)| && Place(rows, q, items)[i].Some?
    ensures var p := Place(rows, q, items)[i].value;
      && p.user == q.user && p.event == q.event && p.items == items
      && p.amount == (if i < |rows| && rows[i].Some? then rows[i].value.amount else 0) + CostOf(items)
      && (p.status == Waiting || (p.status == Paid && p.amount == 0))
    ensures forall j :: 0 <= j < |rows| && j != i ==> Place(rows, q, items)[j] == rows[j]
    ensures i < |rows| <==> q.attach && TicketFor(rows, q.user, q.event).Some?
  {
    var ticket := if q.attach then TicketFor(rows, q.user, q.event) else None;
    if ticket.Some? {
      i := ticket.value;
      assert rows[i].value.items + items == items;
    } else {
      i := |rows|;
      assert [] + items == items;
    }
  }

  lemma {:induction false} CostIsPositive(items: seq<Item>)
    ensures CostOf(items) > 0 <==> exists k :: 0 <= k < |items| && items[k].unitPrice > 0 && items[k].quantity > 0
  {
    if items == [] {
    } else {
      var n := |items| - 1;
      CostIsPositive(items[..n]);
      assert items[n].unitPrice * items[n].quantity > 0 <==> items[n].unitPrice > 0 && items[n].quantity > 0;
      if CostOf(items[..n]) > 0 {
        var k :| 0 <= k < n && items[..n][k].unitPrice > 0 && items[..n][k].quantity > 0;
        assert items[k] == items[..n][k];
      }
      if k :| 0 <= k < n && items[k].unitPrice > 0 && items[k].quantity > 0 {
        assert items[..n][k] == items[k];
      }
    }
  }

  /** The variant is sold by this event. */
  predicate Sells(catalog: Catalog, q: Purchase, v: Id) {
    v in catalog && catalog[v].event == q.event
  }

  lemma AllFound(s: Shop, q: Purchase, listing: seq<Id>)
    requires Found(s.catalog, q, listing) && BadLine(q.lines).None?
    ensures |listing| == |OrderOf(q.lines)| <==> forall v: Id :: Asks(q.lines, v) ==> Sells(s.catalog, q, v)
    ensures |listing| == |OrderOf(q.lines)| ==> forall v: Id :: v in listing <==> Asks(q.lines, v)
  {
    OrderKeys(q.lines);
    DistinctSize(listing);
    var order := OrderOf(q.lines);
    var listed := ToSet(listing);
    assert listed <= order.Keys && |order| == |order.Keys|;
    if |listing| == |order| {
      SameSize(listed, order.Keys);
    }
    if forall v: Id :: Asks(q.lines, v) ==> Sells(s.catalog, q, v) {
      assert listed == order.Keys;
    }
  }

  lemma AskedInStock(s: Shop, q: Purchase, listing: seq<Id>)
    requires BadLine(q.lines).None? && forall v: Id :: v in listing <==> Asks(q.lines, v)
    requires forall v :: v in listing ==> v in OrderOf(q.lines) && v in s.catalog
    ensures Shortage(s, OrderOf(q.lines), listing).None? <==>
      forall v: Id :: Asks(q.lines, v) && v in s.catalog ==> InStock(s, v, Wanted(q.lines, v))
  {
    ShortageMeaning(s, OrderOf(q.lines), listing);
    forall v: Id | Asks(q.lines, v)
      ensures exists k :: 0 <= k < |listing| && listing[k] == v
    {
      assert v in listing;
    }
  }

  lemma {:induction false} WantedPositive(lines: seq<Line>, v: Id)
    requires BadLine(lines).None? && Asks(lines, v)
    ensures Wanted(lines, v) >= 1
  {
    OrderMeaning(lines, v);
    AcceptedLines(lines);
    var k :| 0 <= k < |lines| && lines[k].variant == v;
  }

  lemma PricedCosts(catalog: Catalog, order: map<Id, nat>, listing: seq<Id>, v: Id)
    requires Known(catalog, order, listing) && v in listing && order[v] > 0 && catalog[v].price > 0
    ensures CostOf(NewItems(catalog, order, listing)) > 0
  {
    var k :| 0 <= k < |listing| && listing[k] == v;
    NewItemAt(catalog, order, listing, k);
    CostIsPositive(NewItems(catalog, order, listing));
  }

  lemma CostIsPriced(catalog: Catalog, order: map<Id, nat>, listing: seq<Id>) returns (v: Id)
    requires Known(catalog, order, listing) && CostOf(NewItems(catalog, order, listing)) > 0
    ensures v in listing && catalog[v].price > 0
  {
    var items := NewItems(catalog, order, listing);
    CostIsPositive(items);
    var k :| 0 <= k < |items| && items[k].unitPrice > 0 && items[k].quantity > 0;
    NewItemAt(catalog, order, listing, k);
    v := listing[k];
  }

  /** Something asked for has a price. */
  predicate Priced(catalog: Catalog, lines: seq<Line>) {
    exists k :: 0 <= k < |lines| && lines[k].variant in catalog && catalog[lines[k].variant].price > 0
  }

  lemma SomethingToPay(catalog: Catalog, lines: seq<Line>, listing: seq<Id>)
    requires BadLine(lines).None? && Known(catalog, OrderOf(lines), listing)
    requires forall v: Id :: v in listing <==> Asks(lines, v)
    ensures CostOf(NewItems(catalog, OrderOf(lines), listing)) > 0 <==> Priced(catalog, lines)
  {
    if CostOf(NewItems(catalog, OrderOf(lines), listing)) > 0 {
      var v := CostIsPriced(catalog, OrderOf(lines), listing);
      assert Asks(lines, v);
    }
    if Priced(catalog, lines) {
      var k :| 0 <= k < |lines| && lines[k].variant in catalog && catalog[lines[k].variant].price > 0;
      assert Asks(lines, lines[k].variant);
      WantedPositive(lines, lines[k].variant);
      PricedCosts(catalog, OrderOf(lines), listing, lines[k].variant);
    }
  }

  /** A purchase goes through exactly when the order is well made, the store is open to the
      buyer, everything asked for is sold by the event and in stock, and whoever is not
      registered has something to pay. */
  lemma BuyAnswers(s: Shop, q: Purchase, listing: seq<Id>)
    requires Found(s.catalog, q, listing)
    ensures Buy(s, q, listing).Success? <==>
      && q.lines != [] && BadLine(q.lines).None? && q.storeActive && MayBuy(q)
      && (forall v: Id :: Asks(q.lines, v) ==> Sells(s.catalog, q, v))
      && (forall v: Id :: Asks(q.lines, v) && v in s.catalog ==> InStock(s, v, Wanted(q.lines, v)))
      && (q.registered || Priced(s.catalog, q.lines))
  {
    if BadLine(q.lines).None? {
      OrderKeys(q.lines);
      AllFound(s, q, listing);
      if |listing| == |OrderOf(q.lines)| {
        AskedInStock(s, q, listing);
        SomethingToPay(s.catalog, q.lines, listing);
      }
    }
  }
}
