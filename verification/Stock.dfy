/** The event store: what is sold.

    Stock has no counter. What is sold is derived from the payments that are still live
    (neither cancelled nor refunded), so giving units back is never a step of its own.

    A payment's id is its row number: rows are only ever appended, and a deleted row stays
    behind as `None`, so ids are never reused. Money is in cents. */
module Stock {
  import opened Wrappers

  type Id = nat

  datatype Status = Paid | InAnalysis | Declined | Canceled | Waiting | Refunded

  /** `STATUS_QUE_LIBERAM_ESTOQUE` */
  predicate Releases(s: Status) {
    s == Canceled || s == Refunded
  }

  /** `price` is that of the variant's product. */
  datatype Variant = Variant(event: Id, price: nat, stock: Option<nat>)
  datatype Item = Item(variant: Id, quantity: nat, unitPrice: nat)
  datatype Payment = Payment(
    user: Id,
    event: Id,
    ticket: Option<Id>,
    status: Status,
    amount: int,
    openCheckout: bool,
    items: seq<Item>)

  type Catalog = map<Id, Variant>
  type Rows = seq<Option<Payment>>
  datatype Shop = Shop(catalog: Catalog, rows: Rows)

  // ---- what is sold --------------------------------------------------------

  function QuantityOf(items: seq<Item>, v: Id): nat {
    if items == [] then 0
    else
      var last := items[|items| - 1];
      QuantityOf(items[..|items| - 1], v) + if last.variant == v then last.quantity else 0
  }

  function CostOf(items: seq<Item>): nat {
    if items == [] then 0
    else
      var last := items[|items| - 1];
      CostOf(items[..|items| - 1]) + last.unitPrice * last.quantity
  }

  function LiveQuantity(row: Option<Payment>, v: Id): nat {
    if row.Some? && !Releases(row.value.status) then QuantityOf(row.value.items, v) else 0
  }

  /** The grouped sum over live payments (`vendidosPorVariante`). */
  function Sold(rows: Rows, v: Id): nat {
    if rows == [] then 0
    else Sold(rows[..|rows| - 1], v) + LiveQuantity(rows[|rows| - 1], v)
  }

  /** `disponivel`: what can still be sold; `None` is without limit. */
  function Available(stock: Option<nat>, sold: nat): Option<nat> {
    match stock
    case None => None
    case Some(n) => Some(if n < sold then 0 else n - sold)
  }

  function Max(a: nat, b: nat): nat {
    if a < b then b else a
  }

  lemma {:induction false} SoldUpdate(rows: Rows, i: nat, row: Option<Payment>, v: Id)
    requires i < |rows|
    ensures Sold(rows[i := row], v) == Sold(rows, v) - LiveQuantity(rows[i], v) + LiveQuantity(row, v)
  {
    var n := |rows| - 1;
    var rows' := rows[i := row];
    if i == n {
      assert rows'[..n] == rows[..n];
    } else {
      assert rows'[..n] == rows[..n][i := row];
      SoldUpdate(rows[..n], i, row, v);
    }
  }

  lemma SoldAppend(rows: Rows, row: Option<Payment>, v: Id)
    ensures Sold(rows + [row], v) == Sold(rows, v) + LiveQuantity(row, v)
  {
    assert (rows + [row])[..|rows|] == rows;
  }
}
