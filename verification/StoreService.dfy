/** The store's services as they run: the loops of an order, of a purchase and of a
    reactivation, each against its specification. */
module StoreService {
  import opened Wrappers
  import opened Stock
  import opened Reactivation
  import opened Store

  // ---- the service ---------------------------------------------------------

  /** Units taken by one payment go back when it does not return. */
  function GiveBack(rest: Remainders, taken: map<Id, nat>): Remainders {
    map v | v in rest.Keys + taken.Keys ::
      if v in taken then Some((if v in rest && rest[v].Some? then rest[v].value else 0) + taken[v]) else rest[v]
  }

  lemma GiveBackNothing(rest: Remainders)
    ensures GiveBack(rest, map[]) == rest
  {
    assert GiveBack(rest, map[]).Keys == rest.Keys;
  }

  /** `montarPedido` */
  method BuildOrder(lines: seq<Line>) returns (r: Result<map<Id, nat>, Problem>)
    ensures lines == [] ==> r == Failure(EmptyOrder)
    ensures lines != [] ==>
      r == if BadLine(lines).Some? then Failure(BadLine(lines).value) else Success(OrderOf(lines))
  {
    if lines == [] {
      return Failure(EmptyOrder);
    }
    var order: map<Id, nat> := map[];
    var k := 0;
    while k < |lines|
      invariant k <= |lines|
      invariant BadLine(lines[..k]).None? && order == OrderOf(lines[..k])
    {
      var line := lines[k];
      NextLine(lines, k);
      if !(1 <= line.quantity <= MAX_QUANTITY) {
        FirstBadLine(lines, k + 1);
        return Failure(BadQuantity);
      }
      if line.variant in order {
        FirstBadLine(lines, k + 1);
        return Failure(RepeatedItem);
      }
      order := order[line.variant := line.quantity];
      k := k + 1;
    }
    assert lines[..k] == lines;
    return Success(order);
  }

  lemma NextLine(lines: seq<Line>, k: nat)
    requires k < |lines| && BadLine(lines[..k]).None?
    ensures BadLine(lines[..k + 1]) ==
      if !(1 <= lines[k].quantity <= MAX_QUANTITY) then Some(BadQuantity)
      else if lines[k].variant in OrderOf(lines[..k]) then Some(RepeatedItem)
      else None
    ensures BadLine(lines[..k + 1]).None? ==>
      OrderOf(lines[..k + 1]) == OrderOf(lines[..k])[lines[k].variant := lines[k].quantity]
  {
    assert lines[..k + 1][..k] == lines[..k];
    OrderKeys(lines[..k]);
  }

  lemma {:induction false} FirstBadLine(lines: seq<Line>, k: nat)
    requires k <= |lines| && BadLine(lines[..k]).Some?
    ensures BadLine(lines) == BadLine(lines[..k])
  {
    if k == |lines| {
      assert lines[..k] == lines;
    } else {
      var n := |lines| - 1;
      assert lines[..n][..k] == lines[..k];
      FirstBadLine(lines[..n], k);
    }
  }

  class EventStore {
    var catalog: Catalog
    var rows: Rows

    function State(): Shop
      reads this
    {
      Shop(catalog, rows)
    }

    /** `conferirEstoque` */
    method CheckStock(order: map<Id, nat>, listing: seq<Id>) returns (r: Option<Refusal>)
      requires forall v :: v in listing ==> v in order && v in catalog
      ensures r == Shortage(State(), order, listing)
    {
      var k := 0;
      while k < |listing|
        invariant k <= |listing|
        invariant Shortage(State(), order, listing[..k]).None?
      {
        var v := listing[k];
        assert listing[..k + 1][..k] == listing[..k];
        var left := Available(catalog[v].stock, Sold(rows, v));
        if left.Some? && order[v] > left.value {
          FirstShortage(State(), order, listing, k + 1);
          return Some(Refusal(v, left.value));
        }
        k := k + 1;
      }
      assert listing[..k] == listing;
      return None;
    }

    /** `reativarCompras`: `order` is the database's answer, the released payments
        asked for, each once. */
    method ReactivatePurchases(order: seq<Id>) returns (result: Reactivation)
      requires WellFormed(State()) && Listed(rows, order)
      modifies this`rows
      ensures rows == old(Turn(catalog, rows, order, |order|)).rows
      ensures result == old(Turn(catalog, rows, order, |order|)).result
    {
      ghost var was := rows;
      var rest := StartingRemainders(order);
      result := Reactivation([], [], None);
      var k := 0;
      while k < |order|
        invariant k <= |order|
        invariant Turn(catalog, was, order, k) == Progress(rows, rest, result)
      {
        TurnStep(catalog, was, order, k);
        rest, result := ReactivateOne(order[k], rest, result);
        k := k + 1;
      }
      assert order[..k] == order;
    }

    /** One payment's turn: the body of the outer loop. */
    method ReactivateOne(i: Id, rest0: Remainders, result0: Reactivation)
      returns (rest: Remainders, result: Reactivation)
      requires IsLive(rows, i) && SaneItems(rows[i].value)
      modifies this`rows
      ensures Progress(rows, rest, result) == ReactivateRow(Progress(old(rows), rest0, result0), i)
    {
      var payment := rows[i].value;
      var kept, out, taken;
      kept, out, rest, taken := TakeItems(payment.items, rest0);
      SplitLengths(payment.items, rest0);
      ghost var p := Progress(rows, rest0, result0);
      ghost var s := Split(kept, out, rest);
      result := result0;
      if payment.ticket.None? && |payment.items| <= |out| {
        var first := out[0];
        var left := Left(rest, first.variant);
        if result.refusal.None? {
          result := result.(refusal := Some(Refusal(first.variant, if left.Some? then left.value else 0)));
        }
        GiveBackNothing(rest);
        rest := GiveBack(rest, taken);
        assert Progress(rows, rest, result) == Refuse(p, s);
      } else {
        if out != [] {
          rows := rows[i := Some(payment.(items := kept, amount := payment.amount - CostOf(out)))];
          result := result.(removed := result.removed + RemovedKeys(i, out));
        } else {
          SplitAllKept(payment.items, rest0);
          assert rows[i := Some(payment.(items := kept, amount := payment.amount - CostOf(out)))] == rows;
          assert result.removed + RemovedKeys(i, out) == result.removed;
        }
        result := result.(reactivated := result.reactivated + [i]);
        assert Progress(rows, rest, result) == LetBack(p, i, s);
      }
    }

    /** The query behind `restantes`: what is left of every variant in the list. */
    method StartingRemainders(order: seq<Id>) returns (rest: Remainders)
      requires WellFormed(State()) && Listed(rows, order)
      ensures rest == Start(catalog, rows, order).rest
    {
      rest := map[];
      var k := 0;
      while k < |order|
        invariant k <= |order|
        invariant forall v :: v in rest <==> v in VariantsOf(rows, order[..k])
        invariant forall v :: v in rest ==> v in catalog && rest[v] == Available(catalog[v].stock, Sold(rows, v))
      {
        rest := MoreRemainders(rows[order[k]].value.items, rest);
        VariantsGrow(rows, order, k);
        k := k + 1;
      }
      assert order[..k] == order;
    }

    /** The same for the items of one payment. */
    method MoreRemainders(items: seq<Item>, rest0: Remainders) returns (rest: Remainders)
      requires forall j :: 0 <= j < |items| ==> items[j].variant in catalog
      requires forall v :: v in rest0 ==> v in catalog && rest0[v] == Available(catalog[v].stock, Sold(rows, v))
      ensures forall v :: v in rest <==> v in rest0 || exists m :: 0 <= m < |items| && items[m].variant == v
      ensures forall v :: v in rest ==> v in catalog && rest[v] == Available(catalog[v].stock, Sold(rows, v))
    {
      rest := rest0;
      var j := 0;
      while j < |items|
        invariant j <= |items|
        invariant forall v :: v in rest <==> v in rest0 || exists m :: 0 <= m < j && items[m].variant == v
        invariant forall v :: v in rest ==> v in catalog && rest[v] == Available(catalog[v].stock, Sold(rows, v))
      {
        var v := items[j].variant;
        rest := rest[v := Available(catalog[v].stock, Sold(rows, v))];
        j := j + 1;
      }
    }

    /** The inner loop of `reativarCompras`. */
    static method TakeItems(items: seq<Item>, rest0: Remainders)
      returns (kept: seq<Item>, out: seq<Item>, rest: Remainders, taken: map<Id, nat>)
      ensures SplitItems(items, rest0) == Split(kept, out, rest)
      ensures kept == [] ==> taken == map[]
    {
      kept, out, rest, taken := [], [], rest0, map[];
      var j := 0;
      while j < |items|
        invariant j <= |items|
        invariant SplitItems(items[..j], rest0) == Split(kept, out, rest)
        invariant kept == [] ==> taken == map[]
      {
        var item := items[j];
        assert items[..j + 1][..j] == items[..j];
        var left := Left(rest, item.variant);
        if left.None? {
          kept := kept + [item];
        } else if item.quantity > left.value {
          out := out + [item];
        } else {
          rest := rest[item.variant := Some(left.value - item.quantity)];
          taken := taken[item.variant := (if item.variant in taken then taken[item.variant] else 0) + item.quantity];
          kept := kept + [item];
        }
        j := j + 1;
      }
      assert items[..j] == items;
    }

    /** `comprarProdutos`: one serializable transaction. */
    method BuyProducts(q: Purchase, listing: seq<Id>) returns (r: Result<Id, Problem>)
      requires Found(catalog, q, listing)
      modifies this`rows
      ensures State() == Settle(old(State()), Buy(old(State()), q, listing))
      ensures r.Success? <==> Buy(old(State()), q, listing).Success?
      ensures r.Failure? ==> r.error == Buy(old(State()), q, listing).error
    {
      var order: map<Id, nat>;
      var built := BuildOrder(q.lines);
      match built {
        case Failure(e) => return Failure(e);
        case Success(m) => order := m;
      }
      if !q.storeActive {
        return Failure(StoreClosed);
      }
      if !MayBuy(q) {
        return Failure(NotAllowed);
      }
      OrderKeys(q.lines);
      if |listing| != |order| {
        return Failure(UnknownProduct);
      }
      var short := CheckStock(order, listing);
      if short.Some? {
        return Failure(OutOfStock(short.value));
      }
      var total := CostOf(NewItems(catalog, order, listing));
      if total == 0 && !q.registered {
        return Failure(FreeOnlyForRegistered);
      }
      var i := PlaceItems(q, order, listing);
      return Success(i);
    }

    /** The writes of `_comprarProdutosTx`: the payment first, then its items. */
    method PlaceItems(q: Purchase, order: map<Id, nat>, listing: seq<Id>) returns (i: Id)
      requires forall v :: v in listing ==> v in order && v in catalog
      modifies this`rows
      ensures rows == Place(old(rows), q, NewItems(catalog, order, listing))
    {
      var total := CostOf(NewItems(catalog, order, listing));
      var ticket := if q.attach then TicketFor(rows, q.user, q.event) else None;
      ghost var was := rows;
      if ticket.Some? {
        i := ticket.value;
        rows := rows[i := Some(Billed(rows[i].value, total))];
      } else {
        i := |rows|;
        rows := rows + [Some(SeparatePayment(q, total))];
      }
      AddItems(i, order, listing);
      assert rows == Place(was, q, NewItems(catalog, order, listing));
    }

    /** One `paymentProductItem.create` per variant. */
    method AddItems(i: Id, order: map<Id, nat>, listing: seq<Id>)
      requires IsLive(rows, i) && forall v :: v in listing ==> v in order && v in catalog
      modifies this`rows
      ensures rows == old(rows)[i := WithItems(old(rows)[i], NewItems(catalog, order, listing))]
    {
      ghost var was := rows;
      assert WithItems(was[i], []) == was[i] by {
        assert was[i].value.items + [] == was[i].value.items;
      }
      var k := 0;
      while k < |listing|
        invariant k <= |listing|
        invariant rows == was[i := WithItems(was[i], NewItems(catalog, order, listing[..k]))]
      {
        var v := listing[k];
        var item := Item(v, order[v], catalog[v].price);
        MoreItems(was[i], NewItems(catalog, order, listing[..k]), item);
        assert listing[..k + 1][..k] == listing[..k];
        rows := rows[i := WithItems(rows[i], [item])];
        k := k + 1;
      }
      assert listing[..k] == listing;
    }

    /** The transaction of `updatePaymentStatus`; `seen` was read before it. */
    method UpdatePaymentStatus(i: Id, seen: Status, status: Status) returns (error: Option<Problem>)
      requires WellFormed(State())
      modifies this`rows
      ensures State() == Settle(old(State()), SetStatus(old(State()), i, seen, status))
      ensures error.None? <==> SetStatus(old(State()), i, seen, status).Success?
      ensures error.Some? ==> error.value == SetStatus(old(State()), i, seen, status).error
    {
      if !IsLive(rows, i) {
        return Some(NotFound);
      }
      if seen == Paid && status != Refunded {
        return Some(AlreadyPaid);
      }
      var before := rows;
      var order := if Releases(rows[i].value.status) && !Releases(status) then [i] else [];
      assert order[..|order|] == order;
      var answer := ReactivatePurchases(order);
      if answer.refusal.Some? && answer.reactivated == [] {
        rows := before;  // the transaction is rolled back
        return Some(OutOfStock(answer.refusal.value));
      }
      rows := rows[i := WithStatus(rows[i], status)];
      return None;
    }

    /** The write of `refundPayment`; `seen` was read before it. */
    method RefundPayment(i: Id, seen: Status) returns (error: Option<Problem>)
      modifies this`rows
      ensures State() == Settle(old(State()), Refund(old(State()), i, seen))
      ensures error.None? <==> Refund(old(State()), i, seen).Success?
    {
      if !IsLive(rows, i) {
        return Some(NotFound);
      }
      if seen != Paid {
        return Some(OnlyPaidIsRefunded);
      }
      rows := rows[i := WithStatus(rows[i], Refunded)];
      return None;
    }

    /** The first half of `createCheckout`: the payments to charge, read before the
        transaction. */
    method PaymentsToCharge(c: Charge) returns (r: Result<Reading, Problem>)
      ensures r == ReadCharge(rows, c)
    {
      var asked, ids, open: set<Id> := {}, {}, {};
      var refunded := false;
      var i := 0;
      while i < |rows|
        invariant i <= |rows|
        invariant asked == set j | 0 <= j < i && Asked(rows, c, j)
        invariant ids == set j | 0 <= j < i && ToCharge(rows, c, j)
        invariant refunded <==> exists j :: 0 <= j < i && Asked(rows, c, j) && rows[j].value.status == Refunded
        invariant open == set j | 0 <= j < i && ToCharge(rows, c, j) && !Releases(rows[j].value.status)
      {
        if Asked(rows, c, i) {
          asked := asked + {i};
          refunded := refunded || rows[i].value.status == Refunded;
          if ToCharge(rows, c, i) {
            ids := ids + {i};
            open := if Releases(rows[i].value.status) then open else open + {i};
          }
        }
        i := i + 1;
      }
      assert asked == {} <==> !exists j :: 0 <= j < |rows| && Asked(rows, c, j) by {
        assert forall j :: j in asked <==> 0 <= j < |rows| && Asked(rows, c, j);
      }
      assert ids == {} <==> !exists j :: 0 <= j < |rows| && ToCharge(rows, c, j) by {
        assert forall j :: j in ids <==> 0 <= j < |rows| && ToCharge(rows, c, j);
      }
      if asked == {} {
        return Failure(NotFound);
      }
      if ids == {} {
        return Failure(NothingToCharge(refunded));
      }
      return Success(Reading(ids, open));
    }

    /** The second half: the serializable transaction, and what is charged after it. The
        payments may have changed since they were read. */
    method ReactivateForCheckout(read: Reading, order: seq<Id>) returns (r: Result<set<Id>, Problem>)
      requires WellFormed(State()) && Cancelled(rows, read.ids, order)
      modifies this`rows
      ensures State() == Checkout(old(State()), order)
      ensures r == Charged(read, old(Turn(catalog, rows, order, |order|)).result)
    {
      CancelledListed(State(), read.ids, order);
      var answer := ReactivatePurchases(order);
      rows := Revive(rows, answer.reactivated, Waiting);
      var charged := read.open + set i | i in answer.reactivated;
      if charged == {} {
        return Failure(NothingBack(answer.refusal));
      }
      return Success(charged);
    }
  }

  lemma MoreItems(row: Option<Payment>, items: seq<Item>, item: Item)
    ensures WithItems(WithItems(row, items), [item]) == WithItems(row, items + [item])
  {
    if row.Some? {
      assert row.value.items + items + [item] == row.value.items + (items + [item]);
    }
  }

  lemma {:induction false} SplitAllKept(items: seq<Item>, rest: Remainders)
    ensures SplitItems(items, rest).out == [] ==> SplitItems(items, rest).kept == items
  {
    if items == [] {
    } else {
      SplitAllKept(items[..|items| - 1], rest);
    }
  }

  lemma {:induction false} FirstShortage(s: Shop, order: map<Id, nat>, listing: seq<Id>, k: nat)
    requires forall v :: v in listing ==> v in order && v in s.catalog
    requires k <= |listing| && Shortage(s, order, listing[..k]).Some?
    ensures Shortage(s, order, listing) == Shortage(s, order, listing[..k])
  {
    if k == |listing| {
      assert listing[..k] == listing;
    } else {
      var n := |listing| - 1;
      assert listing[..n][..k] == listing[..k];
      FirstShortage(s, order, listing[..n], k);
    }
  }

  lemma VariantsGrow(rows: Rows, order: seq<Id>, k: nat)
    requires Listed(rows, order) && k < |order|
    ensures forall v :: v in VariantsOf(rows, order[..k + 1]) <==>
      v in VariantsOf(rows, order[..k]) || exists m ::
        0 <= m < |rows[order[k]].value.items| && rows[order[k]].value.items[m].variant == v
  {
    var items := rows[order[k]].value.items;
    forall v | v in VariantsOf(rows, order[..k]) || exists m :: 0 <= m < |items| && items[m].variant == v
      ensures v in VariantsOf(rows, order[..k + 1])
    {
      if m :| 0 <= m < |items| && items[m].variant == v {
        assert order[..k + 1][k] == order[k];
      } else {
        var a, j :| 0 <= a < k && 0 <= j < |rows[order[a]].value.items| && rows[order[a]].value.items[j].variant == v;
        assert order[..k + 1][a] == order[a];
      }
    }
  }
}
