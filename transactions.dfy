/** Transaction rows and the quantity sums that the group-by expressions of the
    preprocessing and metric code compute over them. */
module Transactions {
  import opened Keys

  /** One row of the cleaned transactions table: no key is missing and the
      quantity is numeric. */
  datatype Transaction = Transaction(orderId: int, product: string, quantity: real, customerId: int)

  /** The rows that one group-by cell adds up. */
  datatype Selector =
    | AllRows
    | OfOrder(order: int)
    | OfProduct(product: string)
    | OfOrderProduct(order: int, product: string)
    | OfCustomerProduct(customer: int, product: string)

  predicate Matches(t: Transaction, sel: Selector)
  {
    match sel
    case AllRows => true
    case OfOrder(o) => t.orderId == o
    case OfProduct(p) => t.product == p
    case OfOrderProduct(o, p) => t.orderId == o && t.product == p
    case OfCustomerProduct(c, p) => t.customerId == c && t.product == p
  }

  /** Sum of the quantities of the rows that sel picks; 0 when it picks none. */
  function Quantity(txs: seq<Transaction>, sel: Selector): real
  {
    if |txs| == 0 then 0.0
    else (if Matches(txs[0], sel) then txs[0].quantity else 0.0) + Quantity(txs[1..], sel)
  }

  function OrderIds(txs: seq<Transaction>): (r: seq<int>)
    ensures |r| == |txs| && forall k :: 0 <= k < |txs| ==> r[k] == txs[k].orderId
  {
    seq(|txs|, k requires 0 <= k < |txs| => txs[k].orderId)
  }

  function CustomerIds(txs: seq<Transaction>): (r: seq<int>)
    ensures |r| == |txs| && forall k :: 0 <= k < |txs| ==> r[k] == txs[k].customerId
  {
    seq(|txs|, k requires 0 <= k < |txs| => txs[k].customerId)
  }

  function ProductNames(txs: seq<Transaction>): (r: seq<string>)
    ensures |r| == |txs| && forall k :: 0 <= k < |txs| ==> r[k] == txs[k].product
  {
    seq(|txs|, k requires 0 <= k < |txs| => txs[k].product)
  }

  ghost predicate NonNegative(txs: seq<Transaction>)
  {
    forall k :: 0 <= k < |txs| ==> txs[k].quantity >= 0.0
  }

  /** A cell that no row contributes to is 0 (pandas' fill value). */
  lemma {:induction false} NoRowsNoQuantity(txs: seq<Transaction>, sel: Selector)
    requires forall k :: 0 <= k < |txs| ==> !Matches(txs[k], sel)
    ensures Quantity(txs, sel) == 0.0
  {
    if |txs| > 0 {
      NoRowsNoQuantity(txs[1..], sel);
    }
  }

  lemma {:induction false} QuantityNonNegative(txs: seq<Transaction>, sel: Selector)
    requires NonNegative(txs)
    ensures Quantity(txs, sel) >= 0.0
  {
    if |txs| > 0 {
      QuantityNonNegative(txs[1..], sel);
    }
  }

  /** With non-negative quantities a summed cell is positive exactly when some
      row of that cell has a positive quantity. */
  lemma {:induction false} PositiveIffSomeRowPositive(txs: seq<Transaction>, sel: Selector)
    requires NonNegative(txs)
    ensures Quantity(txs, sel) > 0.0 <==>
            exists k :: 0 <= k < |txs| && Matches(txs[k], sel) && txs[k].quantity > 0.0
  {
    if |txs| > 0 {
      PositiveIffSomeRowPositive(txs[1..], sel);
      QuantityNonNegative(txs[1..], sel);
      if exists k :: 0 <= k < |txs[1..]| && Matches(txs[1..][k], sel) && txs[1..][k].quantity > 0.0 {
        var k :| 0 <= k < |txs[1..]| && Matches(txs[1..][k], sel) && txs[1..][k].quantity > 0.0;
        assert Matches(txs[k + 1], sel) && txs[k + 1].quantity > 0.0;
      }
      if exists k :: 0 <= k < |txs| && Matches(txs[k], sel) && txs[k].quantity > 0.0 {
        var k :| 0 <= k < |txs| && Matches(txs[k], sel) && txs[k].quantity > 0.0;
        if k > 0 {
          assert Matches(txs[1..][k - 1], sel) && txs[1..][k - 1].quantity > 0.0;
        }
      }
    }
  }

  /** Sum, over the order ids in ds, of each order's total quantity. */
  function SumOverOrders(txs: seq<Transaction>, ds: seq<int>): real
  {
    if |ds| == 0 then 0.0 else Quantity(txs, OfOrder(ds[0])) + SumOverOrders(txs, ds[1..])
  }

  lemma {:induction false} SumOverOrdersSplit(t: Transaction, rest: seq<Transaction>, ds: seq<int>)
    requires Distinct(ds)
    ensures SumOverOrders([t] + rest, ds)
            == (if t.orderId in ds then t.quantity else 0.0) + SumOverOrders(rest, ds)
  {
    if |ds| > 0 {
      assert ([t] + rest)[0] == t && ([t] + rest)[1..] == rest;
      assert Distinct(ds[1..]);
      SumOverOrdersSplit(t, rest, ds[1..]);
      assert ds == [ds[0]] + ds[1..];
      assert ds[0] !in ds[1..];
    }
  }

  /** The per-order totals add up to the total quantity: every row belongs to
      exactly one of the distinct orders. */
  lemma {:induction false} OrderTotalsAddUp(txs: seq<Transaction>, ds: seq<int>)
    requires Distinct(ds)
    requires forall k :: 0 <= k < |txs| ==> txs[k].orderId in ds
    ensures SumOverOrders(txs, ds) == Quantity(txs, AllRows)
  {
    if |txs| == 0 {
      ZeroOrders(ds);
    } else {
      assert txs == [txs[0]] + txs[1..];
      OrderTotalsAddUp(txs[1..], ds);
      SumOverOrdersSplit(txs[0], txs[1..], ds);
    }
  }

  lemma {:induction false} ZeroOrders(ds: seq<int>)
    ensures SumOverOrders([], ds) == 0.0
  {
    if |ds| > 0 {
      ZeroOrders(ds[1..]);
    }
  }

  /** The rows that sel picks, in table order (a boolean-mask selection). */
  function Select(txs: seq<Transaction>, sel: Selector): (r: seq<Transaction>)
    ensures forall t :: t in r <==> t in txs && Matches(t, sel)
    ensures |r| <= |txs|
  {
    if |txs| == 0 then []
    else
      assert forall t :: t in txs <==> t == txs[0] || t in txs[1..];
      (if Matches(txs[0], sel) then [txs[0]] else []) + Select(txs[1..], sel)
  }

  /** The selection keeps every matching row as often as the table holds it,
      and no other row. */
  lemma {:induction false} SelectCounts(txs: seq<Transaction>, sel: Selector)
    ensures forall t :: multiset(Select(txs, sel))[t] == if Matches(t, sel) then multiset(txs)[t] else 0
  {
    if |txs| > 0 {
      SelectCounts(txs[1..], sel);
      assert txs == [txs[0]] + txs[1..];
    }
  }

  /** Summing the selected rows gives the selector's sum over the whole table. */
  lemma {:induction false} SelectQuantity(txs: seq<Transaction>, sel: Selector)
    ensures Quantity(Select(txs, sel), AllRows) == Quantity(txs, sel)
  {
    if |txs| > 0 {
      SelectQuantity(txs[1..], sel);
      var head := if Matches(txs[0], sel) then [txs[0]] else [];
      var rest := Select(txs[1..], sel);
      if Matches(txs[0], sel) {
        assert (head + rest)[0] == txs[0] && (head + rest)[1..] == rest;
      } else {
        assert head + rest == rest;
      }
    }
  }
}
