/** Helpers of the package: column validation, division with a fallback, and
    the summary metrics over the transactions table and over one product. */
module Utils {
  import opened Wrappers
  import opened Keys
  import opened Ranking
  import opened Transactions
  import opened Preprocessing

  /** Succeeds (with true) when every required column is present; otherwise
      fails with the set of missing columns, which is never empty. */
  function ValidateDataframe(columns: seq<string>, required: seq<string>): (r: Result<bool, set<string>>)
    ensures r.Success? <==> forall c :: c in required ==> c in columns
    ensures r.Success? ==> r.value
    ensures r.Failure? ==>
              r.error != {} && forall c :: c in r.error <==> c in required && c !in columns
  {
    var missing := set c | c in required && c !in columns;
    if missing != {} then Failure(missing)
    else
      assert forall c :: c in required ==> c in missing || c in columns;
      Success(true)
  }

  /** The quotient, or the fallback when the denominator is zero. */
  function SafeDivide(numerator: real, denominator: real, default: real := 0.0): (r: real)
    ensures denominator == 0.0 ==> r == default
    ensures denominator != 0.0 ==> r * denominator == numerator
  {
    if denominator == 0.0 then default else numerator / denominator
  }

  /** A list of distinct keys holding exactly the values of xs counts the
      distinct values of xs (what `nunique` returns). */
  lemma KeyCount<T>(keys: seq<T>, xs: seq<T>)
    requires Distinct(keys)
    requires forall y :: y in keys <==> y in xs
    ensures |keys| == CountDistinct(xs)
  {
    DistinctCard(keys);
    assert (set y | y in keys) == (set y | y in xs);
  }

  /** Mean over the orders of rows of each order's total quantity; None (NaN
      in the source) when there are no rows. */
  function MeanOrderTotal(rows: seq<Transaction>): (r: Option<real>)
    ensures r.None? <==> |rows| == 0
    ensures r.Some? ==> CountDistinct(OrderIds(rows)) > 0 && r.value == Quantity(rows, AllRows) / CountDistinct(OrderIds(rows)) as real
  {
    if |rows| == 0 then None
    else
      OrderFacts(rows);
      Some(SumOverOrders(rows, OrderKeys(rows)) / |OrderKeys(rows)| as real)
  }

  /** A non-empty table has orders, as many as its distinct order ids, and
      their totals add up to the table's total. */
  lemma OrderFacts(rows: seq<Transaction>)
    requires |rows| > 0
    ensures |OrderKeys(rows)| == CountDistinct(OrderIds(rows)) > 0
    ensures SumOverOrders(rows, OrderKeys(rows)) == Quantity(rows, AllRows)
  {
    assert OrderIds(rows)[0] in OrderIds(rows);
    KeyCount(OrderKeys(rows), OrderIds(rows));
    OrderSumIsTotal(rows);
  }

  /** The per-order totals of the order keys add up to the table's total. */
  lemma OrderSumIsTotal(rows: seq<Transaction>)
    ensures SumOverOrders(rows, OrderKeys(rows)) == Quantity(rows, AllRows)
  {
    var orders := OrderKeys(rows);
    forall k | 0 <= k < |rows| ensures rows[k].orderId in orders {
      assert OrderIds(rows)[k] in OrderIds(rows);
    }
    OrderTotalsAddUp(rows, orders);
  }

  /** The total quantity of each product, the key that ranks top products. */
  function ProductTotal(txs: seq<Transaction>): string -> real
  {
    p => Quantity(txs, OfProduct(p))
  }

  /** Each name paired with its key. */
  function WithTotals(names: seq<string>, key: string -> real): (r: seq<(string, real)>)
    ensures |r| == |names| && forall i :: 0 <= i < |names| ==> r[i] == (names[i], key(names[i]))
  {
    seq(|names|, i requires 0 <= i < |names| => (names[i], key(names[i])))
  }

  /** The ten products with the largest total quantity, largest first. */
  function TopProductNames(txs: seq<Transaction>): (r: seq<string>)
    ensures |r| == Min(10, |ProductKeys(txs)|)
  {
    TopN(ProductKeys(txs), ProductTotal(txs), 10)
  }

  datatype Metrics = Metrics(
    totalOrders: nat,
    totalCustomers: nat,
    totalProducts: nat,
    totalTransactions: nat,
    avgItemsPerOrder: Option<real>,
    topProducts: seq<(string, real)>)

  /** Summary of the transactions table: distinct orders, customers and
      products, the number of rows, the mean per-order quantity and the ten
      products with the largest total quantity, largest first. */
  function CalculateBasicMetrics(txs: seq<Transaction>): (r: Metrics)
    ensures r.totalOrders == CountDistinct(OrderIds(txs))
    ensures r.totalCustomers == CountDistinct(CustomerIds(txs))
    ensures r.totalProducts == CountDistinct(ProductNames(txs))
    ensures r.totalTransactions == |txs|
    ensures r.avgItemsPerOrder.None? <==> |txs| == 0
    ensures r.avgItemsPerOrder.Some? ==> r.totalOrders > 0 && r.avgItemsPerOrder.value == Quantity(txs, AllRows) / r.totalOrders as real
    ensures |r.topProducts| == Min(10, r.totalProducts)
  {
    KeyCount(OrderKeys(txs), OrderIds(txs));
    KeyCount(CustomerKeys(txs), CustomerIds(txs));
    KeyCount(ProductKeys(txs), ProductNames(txs));
    Metrics(
      |OrderKeys(txs)|,
      |CustomerKeys(txs)|,
      |ProductKeys(txs)|,
      |txs|,
      MeanOrderTotal(txs),
      WithTotals(TopProductNames(txs), ProductTotal(txs)))
  }

  /** A top-n list of distinct keys holds distinct keys, and every key left
      out ranks at most as high as every key taken. */
  lemma TopOfDistinct<T>(s: seq<T>, key: T -> real, n: nat)
    requires Distinct(s)
    ensures var r := TopN(s, key, n);
            && Distinct(r)
            && forall x, y :: x in s && x !in r && y in r ==> key(x) <= key(y)
  {
    var r := TopN(s, key, n);
    forall i, j | 0 <= i < j < |r| ensures r[i] != r[j] {
      DistinctPrefix(s, r, i, j);
    }
    forall x, y | x in s && x !in r && y in r ensures key(x) <= key(y) {
      assert x in multiset(s) - multiset(r);
    }
  }

  /** Two places of a sub-multiset of distinct keys hold different keys. */
  lemma DistinctPrefix<T>(s: seq<T>, r: seq<T>, i: nat, j: nat)
    requires Distinct(s) && multiset(r) <= multiset(s)
    requires i < j < |r|
    ensures r[i] != r[j]
  {
    if r[i] == r[j] {
      var x := r[i];
      assert multiset(r)[x] >= 2 by {
        assert r == r[..j] + [r[j]] + r[j + 1..];
        assert x in r[..j];
      }
      DistinctCount(s, x);
    }
  }

  /** Each top product is a product of the table listed with its total quantity. */
  lemma TopProductsAreProducts(txs: seq<Transaction>)
    ensures var top := CalculateBasicMetrics(txs).topProducts;
            forall i :: 0 <= i < |top| ==>
              top[i].0 in ProductNames(txs) && top[i].1 == Quantity(txs, OfProduct(top[i].0))
  {
    var names := TopProductNames(txs);
    forall i | 0 <= i < |names| ensures names[i] in ProductNames(txs) {
      assert names[i] in multiset(names);
    }
  }

  /** The top products are distinct and listed largest total first. */
  lemma TopProductsDescending(txs: seq<Transaction>)
    ensures var top := CalculateBasicMetrics(txs).topProducts;
            forall i, j :: 0 <= i < j < |top| ==> top[i].0 != top[j].0 && top[j].1 <= top[i].1
  {
    TopOfDistinct(ProductKeys(txs), ProductTotal(txs), 10);
  }

  /** No product left out of the top products has a larger total than one
      listed. */
  lemma TopProductsAreTop(txs: seq<Transaction>)
    ensures var top := CalculateBasicMetrics(txs).topProducts;
            forall p, i :: (p in ProductNames(txs) && 0 <= i < |top| &&
                            (forall k :: 0 <= k < |top| ==> top[k].0 != p)) ==>
              Quantity(txs, OfProduct(p)) <= top[i].1
  {
    var top := CalculateBasicMetrics(txs).topProducts;
    forall p, i | p in ProductNames(txs) && 0 <= i < |top| && (forall k :: 0 <= k < |top| ==> top[k].0 != p)
      ensures Quantity(txs, OfProduct(p)) <= top[i].1
    {
      ListedOutranksUnlisted(txs, p, i);
    }
  }

  lemma ListedOutranksUnlisted(txs: seq<Transaction>, p: string, i: nat)
    requires p in ProductNames(txs) && i < |CalculateBasicMetrics(txs).topProducts|
    requires forall k :: 0 <= k < |CalculateBasicMetrics(txs).topProducts| ==>
               CalculateBasicMetrics(txs).topProducts[k].0 != p
    ensures Quantity(txs, OfProduct(p)) <= CalculateBasicMetrics(txs).topProducts[i].1
  {
    var key := ProductTotal(txs);
    var names := TopProductNames(txs);
    var top := CalculateBasicMetrics(txs).topProducts;
    assert top == WithTotals(names, key);
    TopOfDistinct(ProductKeys(txs), key, 10);
    assert p !in names by {
      forall k | 0 <= k < |names| ensures names[k] != p {
        assert top[k].0 == names[k];
      }
    }
    assert names[i] in names;
    assert key(p) <= key(names[i]);
  }


  /** A key occurs at most once in a list of distinct keys. */
  lemma {:induction false} DistinctCount<T>(s: seq<T>, x: T)
    requires Distinct(s)
    ensures multiset(s)[x] <= 1
  {
    if |s| > 0 {
      assert s == [s[0]] + s[1..];
      assert Distinct(s[1..]);
      DistinctCount(s[1..], x);
      assert s[0] !in s[1..];
    }
  }

  datatype ProductStats = ProductStats(
    totalOrders: nat,
    totalQuantity: real,
    uniqueCustomers: nat,
    avgQuantityPerOrder: Option<real>)

  /** Statistics of the rows of one product: distinct orders and customers
      buying it, its total quantity and its mean quantity per order. */
  function GetProductStats(txs: seq<Transaction>, product: string): (r: ProductStats)
    ensures r.totalOrders == |set k | 0 <= k < |txs| && txs[k].product == product :: txs[k].orderId|
    ensures r.uniqueCustomers == |set k | 0 <= k < |txs| && txs[k].product == product :: txs[k].customerId|
    ensures r.totalQuantity == Quantity(txs, OfProduct(product))
    ensures r.avgQuantityPerOrder.None? <==> product !in ProductNames(txs)
    ensures r.avgQuantityPerOrder.Some? ==> r.totalOrders > 0 && r.avgQuantityPerOrder.value == r.totalQuantity / r.totalOrders as real
  {
    var rows := Select(txs, OfProduct(product));
    KeyCount(OrderKeys(rows), OrderIds(rows));
    KeyCount(CustomerKeys(rows), CustomerIds(rows));
    SelectQuantity(txs, OfProduct(product));
    SelectedOrderIds(txs, product);
    SelectedCustomerIds(txs, product);
    assert product in ProductNames(txs) <==> |rows| > 0 by {
      if product in ProductNames(txs) {
        var k :| 0 <= k < |txs| && txs[k].product == product;
        assert txs[k] in rows;
      }
      if |rows| > 0 {
        assert rows[0] in rows;
        assert rows[0] in txs;
        var k :| 0 <= k < |txs| && txs[k] == rows[0];
        assert ProductNames(txs)[k] == product;
      }
    }
    ProductStats(
      |OrderKeys(rows)|,
      Quantity(rows, AllRows),
      |CustomerKeys(rows)|,
      MeanOrderTotal(rows))
  }

  /** The ids of the selected rows are the ids of the product's rows. */
  lemma SelectedOrderIds(txs: seq<Transaction>, product: string)
    ensures (set o | o in OrderIds(Select(txs, OfProduct(product))))
            == (set k | 0 <= k < |txs| && txs[k].product == product :: txs[k].orderId)
  {
    var rows := Select(txs, OfProduct(product));
    var picked := set k | 0 <= k < |txs| && txs[k].product == product :: txs[k].orderId;
    forall o | o in OrderIds(rows) ensures o in picked {
      var a :| 0 <= a < |rows| && OrderIds(rows)[a] == o;
      var k := SelectedFrom(txs, product, a);
    }
    forall o | o in picked ensures o in OrderIds(rows) {
      var k :| 0 <= k < |txs| && txs[k].product == product && txs[k].orderId == o;
      var a := SelectedAt(txs, product, k);
      assert OrderIds(rows)[a] == o;
    }
  }

  lemma SelectedCustomerIds(txs: seq<Transaction>, product: string)
    ensures (set c | c in CustomerIds(Select(txs, OfProduct(product))))
            == (set k | 0 <= k < |txs| && txs[k].product == product :: txs[k].customerId)
  {
    var rows := Select(txs, OfProduct(product));
    var picked := set k | 0 <= k < |txs| && txs[k].product == product :: txs[k].customerId;
    forall c | c in CustomerIds(rows) ensures c in picked {
      var a :| 0 <= a < |rows| && CustomerIds(rows)[a] == c;
      var k := SelectedFrom(txs, product, a);
    }
    forall c | c in picked ensures c in CustomerIds(rows) {
      var k :| 0 <= k < |txs| && txs[k].product == product && txs[k].customerId == c;
      var a := SelectedAt(txs, product, k);
      assert CustomerIds(rows)[a] == c;
    }
  }

  /** The row of the selection at position a is a row of the product. */
  lemma SelectedFrom(txs: seq<Transaction>, product: string, a: nat) returns (k: nat)
    requires a < |Select(txs, OfProduct(product))|
    ensures k < |txs| && txs[k] == Select(txs, OfProduct(product))[a] && txs[k].product == product
  {
    var rows := Select(txs, OfProduct(product));
    assert rows[a] in rows;
    k :| 0 <= k < |txs| && txs[k] == rows[a];
  }

  /** Every row of the product appears in the selection. */
  lemma SelectedAt(txs: seq<Transaction>, product: string, k: nat) returns (a: nat)
    requires k < |txs| && txs[k].product == product
    ensures a < |Select(txs, OfProduct(product))| && Select(txs, OfProduct(product))[a] == txs[k]
  {
    var rows := Select(txs, OfProduct(product));
    assert txs[k] in rows;
    a :| 0 <= a < |rows| && rows[a] == txs[k];
  }

}
