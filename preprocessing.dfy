/** The matrices built from the transactions table: the binary order x product
    basket, the summed customer x product quantities, the per-order item sets,
    min-max normalisation and the sparse user/item filter. */
module Preprocessing {
  import opened Wrappers
  import opened Keys
  import opened Transactions

  /** A pandas DataFrame: row keys, column names and, per row key, one row of
      cells in column order. */
  datatype Frame<R, V> = Frame(rows: seq<R>, cols: seq<string>, cells: seq<seq<V>>)
  {
    ghost predicate Shaped()
    {
      |cells| == |rows| && forall i :: 0 <= i < |cells| ==> |cells[i]| == |cols|
    }
  }

  /** Order ids in ascending order, each once (the group-by index). */
  function OrderKeys(txs: seq<Transaction>): (r: seq<int>)
    ensures Distinct(r) && Ascending(r, IntBelow)
    ensures forall o :: o in r <==> o in OrderIds(txs)
  {
    IntBelowIsStrictTotalOrder();
    KeysOfAscending(OrderIds(txs), IntBelow);
    KeysOf(OrderIds(txs), IntBelow)
  }

  /** Customer ids in ascending order, each once. */
  function CustomerKeys(txs: seq<Transaction>): (r: seq<int>)
    ensures Distinct(r) && Ascending(r, IntBelow)
    ensures forall c :: c in r <==> c in CustomerIds(txs)
  {
    IntBelowIsStrictTotalOrder();
    KeysOfAscending(CustomerIds(txs), IntBelow);
    KeysOf(CustomerIds(txs), IntBelow)
  }

  /** Product names in ascending order, each once (the unstacked columns). */
  function ProductKeys(txs: seq<Transaction>): (r: seq<string>)
    ensures Distinct(r) && Ascending(r, StringBelow)
    ensures forall p :: p in r <==> p in ProductNames(txs)
  {
    StringBelowIsStrictTotalOrder();
    KeysOfAscending(ProductNames(txs), StringBelow);
    KeysOf(ProductNames(txs), StringBelow)
  }

  /** 1 when the order's summed quantity of the product is positive, else 0;
      a pair without rows sums to 0. */
  function BasketCell(txs: seq<Transaction>, order: int, product: string): int
  {
    if Quantity(txs, OfOrderProduct(order, product)) > 0.0 then 1 else 0
  }

  /** Binary order x product matrix: one row per distinct order id, one
      column per distinct product. */
  function PrepareBasketData(txs: seq<Transaction>): (b: Frame<int, int>)
    ensures b.Shaped()
    ensures b.rows == OrderKeys(txs) && b.cols == ProductKeys(txs)
    ensures forall i, j :: 0 <= i < |b.rows| && 0 <= j < |b.cols| ==>
              b.cells[i][j] == BasketCell(txs, b.rows[i], b.cols[j])
  {
    var rows := OrderKeys(txs);
    var cols := ProductKeys(txs);
    Frame(rows, cols,
      seq(|rows|, i requires 0 <= i < |rows| =>
        seq(|cols|, j requires 0 <= j < |cols| => BasketCell(txs, rows[i], cols[j]))))
  }

  /** Every basket cell is 0 or 1; it is 1 exactly when some row of that order
      and product has a positive quantity (quantities being non-negative), and
      it is 0 for a pair that no row mentions. */
  lemma BasketCellMeaning(txs: seq<Transaction>, i: nat, j: nat)
    requires NonNegative(txs)
    requires i < |OrderKeys(txs)| && j < |ProductKeys(txs)|
    ensures var b := PrepareBasketData(txs);
            && (b.cells[i][j] == 0 || b.cells[i][j] == 1)
            && (b.cells[i][j] == 1 <==>
                exists k :: 0 <= k < |txs| && txs[k].orderId == b.rows[i] &&
                            txs[k].product == b.cols[j] && txs[k].quantity > 0.0)
  {
    var b := PrepareBasketData(txs);
    PositiveIffSomeRowPositive(txs, OfOrderProduct(b.rows[i], b.cols[j]));
  }

  /** Summed quantity per customer and product: one row per distinct customer
      id, one column per distinct product. */
  function PrepareUserItemMatrix(txs: seq<Transaction>): (m: Frame<int, real>)
    ensures m.Shaped()
    ensures m.rows == CustomerKeys(txs) && m.cols == ProductKeys(txs)
    ensures forall i, j :: 0 <= i < |m.rows| && 0 <= j < |m.cols| ==>
              m.cells[i][j] == Quantity(txs, OfCustomerProduct(m.rows[i], m.cols[j]))
  {
    var rows := CustomerKeys(txs);
    var cols := ProductKeys(txs);
    Frame(rows, cols,
      seq(|rows|, i requires 0 <= i < |rows| =>
        seq(|cols|, j requires 0 <= j < |cols| => Quantity(txs, OfCustomerProduct(rows[i], cols[j])))))
  }

  /** A customer and product that never occur together in a row get 0. */
  lemma UserItemCellWithoutRows(txs: seq<Transaction>, i: nat, j: nat)
    requires i < |CustomerKeys(txs)| && j < |ProductKeys(txs)|
    requires forall k :: 0 <= k < |txs| ==>
               !(txs[k].customerId == CustomerKeys(txs)[i] && txs[k].product == ProductKeys(txs)[j])
    ensures PrepareUserItemMatrix(txs).cells[i][j] == 0.0
  {
    NoRowsNoQuantity(txs, OfCustomerProduct(CustomerKeys(txs)[i], ProductKeys(txs)[j]));
  }

  /** The columns whose cell in row i is 1. */
  function RowItems(b: Frame<int, int>, i: nat): set<string>
    requires b.Shaped() && i < |b.rows|
  {
    set j | 0 <= j < |b.cols| && b.cells[i][j] == 1 :: b.cols[j]
  }

  /** The item sets of the first k rows, in row order, empty ones left out. */
  function OrderItemsets(b: Frame<int, int>, k: nat): seq<set<string>>
    requires b.Shaped() && k <= |b.rows|
  {
    if k == 0 then []
    else OrderItemsets(b, k - 1) + (if RowItems(b, k - 1) != {} then [RowItems(b, k - 1)] else [])
  }

  /** Each item set is non-empty and made of basket columns, there is at most
      one per order, and every order with an item contributes its set. */
  lemma {:induction false} OrderItemsetsAreBaskets(b: Frame<int, int>, k: nat)
    requires b.Shaped() && k <= |b.rows|
    ensures |OrderItemsets(b, k)| <= k
    ensures forall t :: t in OrderItemsets(b, k) ==> t != {} && forall p :: p in t ==> p in b.cols
    ensures forall i :: 0 <= i < k && RowItems(b, i) != {} ==> RowItems(b, i) in OrderItemsets(b, k)
  {
    if k > 0 {
      OrderItemsetsAreBaskets(b, k - 1);
    }
  }

  /** Walks the basket rows in order and collects each order's item set,
      skipping orders without items. The support threshold is unused, as in
      the source. */
  method GetFrequentItemsetsData(basket: Frame<int, int>, minSupport: real := 0.1) returns (transactions: seq<set<string>>)
    requires basket.Shaped()
    ensures transactions == OrderItemsets(basket, |basket.rows|)
    ensures forall t :: t in transactions ==> t != {}
  {
    transactions := [];
    var i := 0;
    while i < |basket.rows|
      invariant 0 <= i <= |basket.rows|
      invariant transactions == OrderItemsets(basket, i)
    {
      var products := RowItems(basket, i);
      if |products| > 0 {
        transactions := transactions + [products];
      }
      i := i + 1;
    }
    OrderItemsetsAreBaskets(basket, |basket.rows|);
  }

  /** All cells, row after row. */
  function Flatten(cells: seq<seq<real>>): (r: seq<real>)
    ensures forall i, j :: 0 <= i < |cells| && 0 <= j < |cells[i]| ==> cells[i][j] in r
    ensures forall x :: x in r ==> exists i, j :: 0 <= i < |cells| && 0 <= j < |cells[i]| && cells[i][j] == x
  {
    if |cells| == 0 then []
    else
      var rest := Flatten(cells[1..]);
      assert forall x :: x in rest ==> exists i, j :: 0 <= i < |cells| && 0 <= j < |cells[i]| && cells[i][j] == x by {
        forall x | x in rest
          ensures exists i, j :: 0 <= i < |cells| && 0 <= j < |cells[i]| && cells[i][j] == x
        {
          var i, j :| 0 <= i < |cells[1..]| && 0 <= j < |cells[1..][i]| && cells[1..][i][j] == x;
          assert cells[i + 1][j] == x;
        }
      }
      cells[0] + rest
  }

  function SeqMin(s: seq<real>): (r: real)
    requires |s| > 0
    ensures r in s && forall x :: x in s ==> r <= x
  {
    if |s| == 1 then s[0]
    else
      var m := SeqMin(s[1..]);
      assert forall x :: x in s ==> x == s[0] || x in s[1..];
      if s[0] <= m then s[0] else m
  }

  function SeqMax(s: seq<real>): (r: real)
    requires |s| > 0
    ensures r in s && forall x :: x in s ==> x <= r
  {
    if |s| == 1 then s[0]
    else
      var m := SeqMax(s[1..]);
      assert forall x :: x in s ==> x == s[0] || x in s[1..];
      if m <= s[0] then s[0] else m
  }

  /** Some two cells differ. */
  ghost predicate HasSpread(m: Frame<int, real>)
  {
    exists i, j, k, l :: 0 <= i < |m.cells| && 0 <= j < |m.cells[i]| &&
                         0 <= k < |m.cells| && 0 <= l < |m.cells[k]| &&
                         m.cells[i][j] < m.cells[k][l]
  }

  lemma ScaledBounds(x: real, lo: real, hi: real)
    requires lo <= x <= hi && lo < hi
    ensures 0.0 <= (x - lo) / (hi - lo) <= 1.0
  {
    var d := hi - lo;
    assert (x - lo) / d * d == x - lo;
  }

  lemma ShiftMonotone(x: real, y: real, a: real, b: real)
    requires x <= y && b > 0.0
    ensures (x - a) / b <= (y - a) / b
  {
    assert (x - a) / b * b == x - a;
    assert (y - a) / b * b == y - a;
  }

  /** Every cell mapped to (x - a) / b. */
  function Shift(m: Frame<int, real>, a: real, b: real): (r: Frame<int, real>)
    requires m.Shaped() && b > 0.0
    ensures r.rows == m.rows && r.cols == m.cols && r.Shaped()
    ensures forall i, j :: 0 <= i < |m.rows| && 0 <= j < |m.cols| ==>
              r.cells[i][j] == (m.cells[i][j] - a) / b
  {
    Frame(m.rows, m.cols,
      seq(|m.cells|, i requires 0 <= i < |m.cells| =>
        seq(|m.cells[i]|, j requires 0 <= j < |m.cells[i]| => (m.cells[i][j] - a) / b)))
  }

  /** Every cell mapped to (x - lo) / (hi - lo). */
  function Rescale(m: Frame<int, real>, lo: real, hi: real): (r: Frame<int, real>)
    requires m.Shaped() && lo < hi
    ensures r.rows == m.rows && r.cols == m.cols && r.Shaped()
    ensures forall i, j :: 0 <= i < |m.rows| && 0 <= j < |m.cols| ==>
              r.cells[i][j] == (m.cells[i][j] - lo) / (hi - lo)
  {
    Shift(m, lo, hi - lo)
  }

  /** Every cell of the grid lies in [lo, hi]. */
  ghost predicate CellsWithin(m: Frame<int, real>, lo: real, hi: real)
    requires m.Shaped()
  {
    forall i, j :: 0 <= i < |m.rows| && 0 <= j < |m.cols| ==> lo <= m.cells[i][j] <= hi
  }

  /** Some cell of the grid equals v. */
  ghost predicate HasCell(m: Frame<int, real>, v: real)
    requires m.Shaped()
  {
    exists i, j :: 0 <= i < |m.rows| && 0 <= j < |m.cols| && m.cells[i][j] == v
  }

  /** Whenever a cell of m is not above another, its image in r is not above the other's. */
  ghost predicate KeepsCellOrder(m: Frame<int, real>, r: Frame<int, real>)
    requires m.Shaped() && r.Shaped() && r.rows == m.rows && r.cols == m.cols
  {
    forall i, j, k, l :: 0 <= i < |m.rows| && 0 <= j < |m.cols| && 0 <= k < |m.rows| && 0 <= l < |m.cols| ==>
      (m.cells[i][j] <= m.cells[k][l] ==> r.cells[i][j] <= r.cells[k][l])
  }

  lemma RescaleWithin(m: Frame<int, real>, lo: real, hi: real)
    requires m.Shaped() && lo < hi && CellsWithin(m, lo, hi)
    ensures CellsWithin(Rescale(m, lo, hi), 0.0, 1.0)
  {
    var r := Rescale(m, lo, hi);
    forall i, j | 0 <= i < |r.rows| && 0 <= j < |r.cols| ensures 0.0 <= r.cells[i][j] <= 1.0 {
      ScaledBounds(m.cells[i][j], lo, hi);
    }
  }

  lemma ShiftKeepsOrder(m: Frame<int, real>, a: real, b: real)
    requires m.Shaped() && b > 0.0
    ensures KeepsCellOrder(m, Shift(m, a, b))
  {
    var r := Shift(m, a, b);
    forall i, j, k, l | 0 <= i < |m.rows| && 0 <= j < |m.cols| && 0 <= k < |m.rows| && 0 <= l < |m.cols| &&
        m.cells[i][j] <= m.cells[k][l]
      ensures r.cells[i][j] <= r.cells[k][l]
    {
      ShiftMonotone(m.cells[i][j], m.cells[k][l], a, b);
    }
  }

  lemma RescaleIsBetween(m: Frame<int, real>, lo: real, hi: real)
    requires m.Shaped() && lo < hi
    ensures RescaledBetween(m, Rescale(m, lo, hi), lo, hi)
  {
  }

  lemma RescaleKeepsOrder(m: Frame<int, real>, lo: real, hi: real)
    requires m.Shaped() && lo < hi
    ensures KeepsCellOrder(m, Rescale(m, lo, hi))
  {
    ShiftKeepsOrder(m, lo, hi - lo);
  }

  lemma ScaledEnds(lo: real, hi: real)
    requires lo < hi
    ensures (lo - lo) / (hi - lo) == 0.0 && (hi - lo) / (hi - lo) == 1.0
  {
  }

  lemma RescaleReachesEnds(m: Frame<int, real>, lo: real, hi: real)
    requires m.Shaped() && lo < hi && HasCell(m, lo) && HasCell(m, hi)
    ensures HasCell(Rescale(m, lo, hi), 0.0) && HasCell(Rescale(m, lo, hi), 1.0)
  {
    ScaledEnds(lo, hi);
    RescaleHits(m, lo, hi, lo);
    RescaleHits(m, lo, hi, hi);
  }

  /** A cell equal to v becomes a cell equal to v's image. */
  lemma RescaleHits(m: Frame<int, real>, lo: real, hi: real, v: real)
    requires m.Shaped() && lo < hi && HasCell(m, v)
    ensures HasCell(Rescale(m, lo, hi), (v - lo) / (hi - lo))
  {
    var r := Rescale(m, lo, hi);
    var i, j :| 0 <= i < |m.rows| && 0 <= j < |m.cols| && m.cells[i][j] == v;
    assert r.cells[i][j] == (v - lo) / (hi - lo);
  }

  /** The extremes of the flattened cells bound every cell and are cells. */
  lemma CellExtremes(m: Frame<int, real>)
    requires m.Shaped() && |Flatten(m.cells)| > 0
    ensures var all := Flatten(m.cells);
            CellsWithin(m, SeqMin(all), SeqMax(all)) && HasCell(m, SeqMin(all)) && HasCell(m, SeqMax(all))
  {
    var all := Flatten(m.cells);
    assert SeqMin(all) in all && SeqMax(all) in all;
    var i0, j0 :| 0 <= i0 < |m.cells| && 0 <= j0 < |m.cells[i0]| && m.cells[i0][j0] == SeqMin(all);
    var i1, j1 :| 0 <= i1 < |m.cells| && 0 <= j1 < |m.cells[i1]| && m.cells[i1][j1] == SeqMax(all);
  }

  /** Two cells differ exactly when the extremes differ. */
  lemma SpreadIffExtremesDiffer(m: Frame<int, real>)
    requires m.Shaped() && |Flatten(m.cells)| > 0
    ensures var all := Flatten(m.cells);
            HasSpread(m) <==> SeqMin(all) < SeqMax(all)
  {
    if HasSpread(m) {
      SpreadSeparatesExtremes(m);
    }
    if SeqMin(Flatten(m.cells)) < SeqMax(Flatten(m.cells)) {
      ExtremesAreSpread(m);
    }
  }

  lemma SpreadSeparatesExtremes(m: Frame<int, real>)
    requires m.Shaped() && |Flatten(m.cells)| > 0 && HasSpread(m)
    ensures SeqMin(Flatten(m.cells)) < SeqMax(Flatten(m.cells))
  {
    var all := Flatten(m.cells);
    var i, j, k, l :| 0 <= i < |m.cells| && 0 <= j < |m.cells[i]| &&
                      0 <= k < |m.cells| && 0 <= l < |m.cells[k]| && m.cells[i][j] < m.cells[k][l];
    assert m.cells[i][j] in all && m.cells[k][l] in all;
  }

  lemma ExtremesAreSpread(m: Frame<int, real>)
    requires m.Shaped() && |Flatten(m.cells)| > 0 && SeqMin(Flatten(m.cells)) < SeqMax(Flatten(m.cells))
    ensures HasSpread(m)
  {
    var all := Flatten(m.cells);
    assert SeqMin(all) in all && SeqMax(all) in all;
    var i0, j0 :| 0 <= i0 < |m.cells| && 0 <= j0 < |m.cells[i0]| && m.cells[i0][j0] == SeqMin(all);
    var i1, j1 :| 0 <= i1 < |m.cells| && 0 <= j1 < |m.cells[i1]| && m.cells[i1][j1] == SeqMax(all);
    assert m.cells[i0][j0] < m.cells[i1][j1];
  }

  function Sum(s: seq<real>): real
  {
    if |s| == 0 then 0.0 else s[0] + Sum(s[1..])
  }

  /** Column j of the rows, top to bottom. */
  function Column(cells: seq<seq<real>>, j: nat): (r: seq<real>)
    requires forall v :: 0 <= v < |cells| ==> j < |cells[v]|
    ensures |r| == |cells| && forall v :: 0 <= v < |cells| ==> r[v] == cells[v][j]
  {
    seq(|cells|, v requires 0 <= v < |cells| => cells[v][j])
  }

  /** Σ over rows of cells[v][j]: a column total. */
  function ColumnSum(cells: seq<seq<real>>, j: nat): real
    requires forall v :: 0 <= v < |cells| ==> j < |cells[v]|
  {
    Sum(Column(cells, j))
  }

  /** The mean of column j over the rows. */
  function ColumnMean(m: Frame<int, real>, j: nat): real
    requires m.Shaped() && |m.rows| > 0 && j < |m.cols|
  {
    ColumnSum(m.cells, j) / |m.rows| as real
  }

  function ColumnMeans(m: Frame<int, real>): (r: seq<real>)
    requires m.Shaped() && |m.rows| > 0
    ensures |r| == |m.cols| && forall j :: 0 <= j < |m.cols| ==> r[j] == ColumnMean(m, j)
  {
    seq(|m.cols|, j requires 0 <= j < |m.cols| => ColumnMean(m, j))
  }

  /** The mean of the column means (mean().mean() of a DataFrame). */
  function GrandMean(m: Frame<int, real>): real
    requires m.Shaped() && |m.rows| > 0 && |m.cols| > 0
  {
    Sum(ColumnMeans(m)) / |m.cols| as real
  }

  lemma DivAdd(p: real, q: real, b: real)
    requires b > 0.0
    ensures p / b + q / b == (p + q) / b
  {
    assert (p / b) * b == p && (q / b) * b == q;
    assert (p / b + q / b) * b == p + q;
  }

  /** a added to itself n times. */
  function Repeat(n: nat, a: real): real
  {
    if n == 0 then 0.0 else Repeat(n - 1, a) + a
  }

  /** Repeated addition is multiplication by the count k. */
  lemma {:induction false} RepeatIsProduct(n: nat, a: real, k: real)
    requires k == n as real
    ensures Repeat(n, a) == k * a
  {
    if n > 0 {
      RepeatIsProduct(n - 1, a, k - 1.0);
    }
  }

  /** Dividing every element by b divides the sum by b. */
  lemma {:induction false} SumDiv(u: seq<real>, t: seq<real>, b: real)
    requires b > 0.0 && |t| == |u|
    requires forall i :: 0 <= i < |u| ==> t[i] == u[i] / b
    ensures Sum(t) == Sum(u) / b
  {
    if |u| > 0 {
      SumDiv(u[1..], t[1..], b);
      DivAdd(u[0], Sum(u[1..]), b);
    }
  }

  /** Subtracting a from every element subtracts a from the sum once per element. */
  lemma {:induction false} SumMinus(s: seq<real>, u: seq<real>, a: real)
    requires |u| == |s|
    requires forall i :: 0 <= i < |s| ==> u[i] == s[i] - a
    ensures Sum(u) == Sum(s) - Repeat(|s|, a)
  {
    if |s| > 0 {
      SumMinus(s[1..], u[1..], a);
    }
  }

  /** Shifting every element by a and dividing by b shifts the sum by a per
      element and divides it by b. */
  lemma SumShift(s: seq<real>, t: seq<real>, a: real, b: real)
    requires b > 0.0 && |t| == |s|
    requires forall i :: 0 <= i < |s| ==> t[i] == (s[i] - a) / b
    ensures Sum(t) == (Sum(s) - Repeat(|s|, a)) / b
  {
    var u := seq(|s|, i requires 0 <= i < |s| => s[i] - a);
    assert Sum(u) == Sum(s) - Repeat(|s|, a) by {
      SumMinus(s, u, a);
    }
    assert Sum(t) == Sum(u) / b by {
      SumDiv(u, t, b);
    }
  }

  lemma MeanShift(shiftedTotal: real, total: real, k: real, r: real, a: real, b: real)
    requires k > 0.0 && b > 0.0 && r == k * a && shiftedTotal == (total - r) / b
    ensures shiftedTotal / k == (total / k - a) / b
  {
    var m := total / k;
    assert m * k == total;
    assert shiftedTotal * b == total - k * a;
    assert (shiftedTotal / k) * k == shiftedTotal;
    assert ((m - a) / b) * b == m - a;
    assert ((m - a) / b) * k * b == total - k * a;
  }

  /** Shifting every element by a and dividing by b does the same to the mean. */
  lemma MeanOfShift(s: seq<real>, t: seq<real>, a: real, b: real)
    requires |s| > 0 && b > 0.0 && |t| == |s|
    requires forall i :: 0 <= i < |s| ==> t[i] == (s[i] - a) / b
    ensures Sum(t) / |t| as real == (Sum(s) / |s| as real - a) / b
  {
    var k, total, shiftedTotal := |s| as real, Sum(s), Sum(t);
    assert shiftedTotal / k == (total / k - a) / b by {
      var r := Repeat(|s|, a);
      assert shiftedTotal == (total - r) / b by {
        SumShift(s, t, a, b);
      }
      assert r == k * a by {
        RepeatIsProduct(|s|, a, k);
      }
      MeanShift(shiftedTotal, total, k, r, a, b);
    }
    assert |t| as real == k;
  }

  /** After the z-score shift, each column mean is the old one shifted and
      scaled the same way. */
  lemma ColumnMeanShift(m: Frame<int, real>, mu: real, sd: real, j: nat)
    requires m.Shaped() && |m.rows| > 0 && j < |m.cols| && sd > 0.0
    ensures ColumnMean(Shift(m, mu, sd), j) == (ColumnMean(m, j) - mu) / sd
  {
    var r := Shift(m, mu, sd);
    var col, shifted := Column(m.cells, j), Column(r.cells, j);
    assert forall v :: 0 <= v < |col| ==> shifted[v] == (col[v] - mu) / sd;
    MeanOfShift(col, shifted, mu, sd);
  }

  /** Standardising by the grand mean leaves a grand mean of 0. */
  lemma StandardisedMeanIsZero(m: Frame<int, real>, sd: real)
    requires m.Shaped() && |m.rows| > 0 && |m.cols| > 0 && sd > 0.0
    ensures GrandMean(Shift(m, GrandMean(m), sd)) == 0.0
  {
    var mu := GrandMean(m);
    var r := Shift(m, mu, sd);
    forall j | 0 <= j < |m.cols| ensures ColumnMeans(r)[j] == (ColumnMeans(m)[j] - mu) / sd {
      ColumnMeanShift(m, mu, sd, j);
    }
    MeanOfShift(ColumnMeans(m), ColumnMeans(r), mu, sd);
  }

  /** The z-score branch: every cell shifted by the grand mean and divided
      by sd; the result has grand mean 0 and keeps the order of cells. */
  function Standardise(m: Frame<int, real>, sd: real): (r: Frame<int, real>)
    requires m.Shaped() && |m.rows| > 0 && |m.cols| > 0 && sd > 0.0
    ensures r.rows == m.rows && r.cols == m.cols && r.Shaped()
    ensures GrandMean(r) == 0.0
    ensures forall i, j :: 0 <= i < |m.rows| && 0 <= j < |m.cols| ==>
              r.cells[i][j] == (m.cells[i][j] - GrandMean(m)) / sd
    ensures KeepsCellOrder(m, r)
  {
    StandardisedMeanIsZero(m, sd);
    ShiftKeepsOrder(m, GrandMean(m), sd);
    Shift(m, GrandMean(m), sd)
  }

  /** Every cell of r is the matching cell x of m mapped to
      (x - lo) / (hi - lo). */
  ghost predicate RescaledBetween(m: Frame<int, real>, r: Frame<int, real>, lo: real, hi: real)
    requires m.Shaped() && r.Shaped() && r.rows == m.rows && r.cols == m.cols
  {
    && lo < hi
    && forall i, j :: 0 <= i < |m.rows| && 0 <= j < |m.cols| ==>
         r.cells[i][j] == (m.cells[i][j] - lo) / (hi - lo)
  }

  /** The min-max branch: every cell x becomes (x - min) / (max - min), so
      the smallest cell becomes 0, the largest 1, every cell lands in [0, 1]
      and the order of cells is kept; a matrix whose cells are all equal is
      returned unchanged. */
  function MinMax(m: Frame<int, real>): (r: Frame<int, real>)
    requires m.Shaped()
    ensures r.rows == m.rows && r.cols == m.cols && r.Shaped()
    ensures !HasSpread(m) ==> r == m
    ensures HasSpread(m) ==>
              |Flatten(m.cells)| > 0 && RescaledBetween(m, r, SeqMin(Flatten(m.cells)), SeqMax(Flatten(m.cells)))
    ensures HasSpread(m) ==> CellsWithin(r, 0.0, 1.0) && HasCell(r, 0.0) && HasCell(r, 1.0)
    ensures KeepsCellOrder(m, r)
  {
    var all := Flatten(m.cells);
    if |all| > 0 then
      CellExtremes(m);
      SpreadIffExtremesDiffer(m);
      if SeqMin(all) < SeqMax(all) then
        RescaleWithin(m, SeqMin(all), SeqMax(all));
        RescaleReachesEnds(m, SeqMin(all), SeqMax(all));
        RescaleKeepsOrder(m, SeqMin(all), SeqMax(all));
        RescaleIsBetween(m, SeqMin(all), SeqMax(all));
        Rescale(m, SeqMin(all), SeqMax(all))
      else m
    else
      m
  }

  /** A positive spread for the z-score branch of a non-empty matrix. */
  predicate Spreads(m: Frame<int, real>, spread: Option<real>)
  {
    spread.Some? && spread.value > 0.0 && |m.rows| > 0 && |m.cols| > 0
  }

  /** Normalisation of the user-item matrix. "min_max" maps every cell x to
      (x - min) / (max - min), the smallest cell to 0 and the largest to 1, keeping the order of cells, unless all cells
      are equal (or there are none), when the matrix is returned unchanged.
      "z_score" subtracts the mean of the column means and divides by spread,
      the standard deviation of the column standard deviations (None when
      undefined), unless that is not positive; any other name leaves the
      matrix unchanged. */
  function NormalizeRatings(m: Frame<int, real>, how: string := "min_max", spread: Option<real>): (r: Frame<int, real>)
    requires m.Shaped()
    ensures r.rows == m.rows && r.cols == m.cols && r.Shaped()
    ensures how !in {"min_max", "z_score"} ==> r == m
    ensures how == "min_max" && !HasSpread(m) ==> r == m
    ensures how == "z_score" && !Spreads(m, spread) ==> r == m
    ensures how == "min_max" && HasSpread(m) ==>
              && |Flatten(m.cells)| > 0 && RescaledBetween(m, r, SeqMin(Flatten(m.cells)), SeqMax(Flatten(m.cells)))
              && CellsWithin(r, 0.0, 1.0) && HasCell(r, 0.0) && HasCell(r, 1.0)
    ensures how == "z_score" && Spreads(m, spread) ==>
              && GrandMean(r) == 0.0
              && forall i, j :: 0 <= i < |m.rows| && 0 <= j < |m.cols| ==>
                   r.cells[i][j] == (m.cells[i][j] - GrandMean(m)) / spread.value
    ensures KeepsCellOrder(m, r)
  {
    if how == "min_max" then MinMax(m)
    else if how == "z_score" && Spreads(m, spread) then Standardise(m, spread.value)
    else m
  }

  /** Number of positive cells in a row. */
  function PositiveCount(row: seq<real>): nat
  {
    if |row| == 0 then 0 else (if row[0] > 0.0 then 1 else 0) + PositiveCount(row[1..])
  }

  ghost predicate Increasing(s: seq<nat>)
  {
    forall a, b :: 0 <= a < b < |s| ==> s[a] < s[b]
  }

  /** The positions whose flag is set, in increasing order. */
  function SelectIndices(flags: seq<bool>): (r: seq<nat>)
    ensures forall i :: i in r <==> 0 <= i < |flags| && flags[i]
    ensures Increasing(r)
  {
    if |flags| == 0 then []
    else
      var rest := SelectIndices(flags[..|flags| - 1]);
      assert forall a :: 0 <= a < |rest| ==> rest[a] in rest;
      assert forall a :: 0 <= a < |rest| ==> rest[a] < |flags| - 1;
      if flags[|flags| - 1] then rest + [|flags| - 1] else rest
  }

  /** With every flag set, every position is selected. */
  lemma {:induction false} SelectAllFlags(flags: seq<bool>)
    ensures (forall i :: 0 <= i < |flags| ==> flags[i]) ==> |SelectIndices(flags)| == |flags|
  {
    if |flags| > 0 {
      SelectAllFlags(flags[..|flags| - 1]);
    }
  }

  /** With no flag set, nothing is selected. */
  lemma {:induction false} SelectNoFlags(flags: seq<bool>)
    ensures (forall i :: 0 <= i < |flags| ==> !flags[i]) ==> SelectIndices(flags) == []
  {
    if |flags| > 0 {
      SelectNoFlags(flags[..|flags| - 1]);
    }
  }

  /** Number of the given rows that have a positive cell in column j. */
  function ColumnPositives(cells: seq<seq<real>>, users: seq<nat>, j: nat): nat
    requires forall a :: 0 <= a < |users| ==> users[a] < |cells| && j < |cells[users[a]]|
  {
    if |users| == 0 then 0
    else (if cells[users[0]][j] > 0.0 then 1 else 0) + ColumnPositives(cells, users[1..], j)
  }

  /** Rows with at least minUser positive cells. */
  function KeptUsers(m: Frame<int, real>, minUser: int): (us: seq<nat>)
    requires m.Shaped()
    ensures Increasing(us)
    ensures forall a :: 0 <= a < |us| ==> us[a] < |m.rows|
    ensures forall i :: i in us <==> 0 <= i < |m.rows| && PositiveCount(m.cells[i]) >= minUser
    ensures (forall i :: 0 <= i < |m.rows| ==> PositiveCount(m.cells[i]) >= minUser) ==> |us| == |m.rows|
  {
    var flags := seq(|m.rows|, i requires 0 <= i < |m.rows| => PositiveCount(m.cells[i]) >= minUser);
    SelectAllFlags(flags);
    var us := SelectIndices(flags);
    assert forall a :: 0 <= a < |us| ==> us[a] in us;
    us
  }

  /** Columns with at least minItem positive cells among the kept rows. */
  function KeptItems(m: Frame<int, real>, users: seq<nat>, minItem: int): (items: seq<nat>)
    requires m.Shaped()
    requires forall a :: 0 <= a < |users| ==> users[a] < |m.rows|
    ensures Increasing(items)
    ensures forall b :: 0 <= b < |items| ==> items[b] < |m.cols|
    ensures forall j :: j in items <==> 0 <= j < |m.cols| && ColumnPositives(m.cells, users, j) >= minItem
    ensures (forall j :: 0 <= j < |m.cols| ==> ColumnPositives(m.cells, users, j) < minItem) ==> items == []
  {
    var flags := seq(|m.cols|, j requires 0 <= j < |m.cols| => ColumnPositives(m.cells, users, j) >= minItem);
    SelectNoFlags(flags);
    var items := SelectIndices(flags);
    assert forall b :: 0 <= b < |items| ==> items[b] in items;
    items
  }

  function Pick<T>(s: seq<T>, idx: seq<nat>): (r: seq<T>)
    requires forall a :: 0 <= a < |idx| ==> idx[a] < |s|
    ensures |r| == |idx| && forall a :: 0 <= a < |idx| ==> r[a] == s[idx[a]]
  {
    seq(|idx|, a requires 0 <= a < |idx| => s[idx[a]])
  }

  /** Drops the users with fewer than minUser positive cells, then the items
      with fewer than minItem positive cells among the remaining users. Cells
      and the order of rows and columns are kept; users are not checked again
      after the item filter. */
  function FilterSparseUsersItems(m: Frame<int, real>, minUser: int := 1, minItem: int := 1): (r: Frame<int, real>)
    requires m.Shaped()
    ensures r.Shaped()
    ensures var us := KeptUsers(m, minUser);
            var items := KeptItems(m, us, minItem);
            && r.rows == Pick(m.rows, us) && r.cols == Pick(m.cols, items)
            && forall a, b :: 0 <= a < |us| && 0 <= b < |items| ==> r.cells[a][b] == m.cells[us[a]][items[b]]
  {
    var us := KeptUsers(m, minUser);
    var items := KeptItems(m, us, minItem);
    Frame(Pick(m.rows, us), Pick(m.cols, items),
      seq(|us|, a requires 0 <= a < |us| => Pick(m.cells[us[a]], items)))
  }

  /** With distinct keys, a key is picked exactly when its position is. */
  lemma PickedKey<T>(s: seq<T>, idx: seq<nat>, i: nat)
    requires Distinct(s) && i < |s|
    requires forall a :: 0 <= a < |idx| ==> idx[a] < |s|
    ensures s[i] in Pick(s, idx) <==> i in idx
  {
    var r := Pick(s, idx);
    if s[i] in r {
      var a :| 0 <= a < |r| && r[a] == s[i];
      assert s[idx[a]] == s[i];
    }
    if i in idx {
      var a :| 0 <= a < |idx| && idx[a] == i;
      assert r[a] == s[i];
    }
  }

  /** With distinct row and column keys (as a group-by produces them): a user
      stays exactly when it has at least minUser positive cells, and an item
      stays exactly when it has at least minItem positive cells among the users
      that stayed. */
  lemma FilterKeepsExactly(m: Frame<int, real>, minUser: int, minItem: int)
    requires m.Shaped() && Distinct(m.rows) && Distinct(m.cols)
    ensures var r := FilterSparseUsersItems(m, minUser, minItem);
            && (forall i :: 0 <= i < |m.rows| ==>
                  (m.rows[i] in r.rows <==> PositiveCount(m.cells[i]) >= minUser))
            && (forall j :: 0 <= j < |m.cols| ==>
                  (m.cols[j] in r.cols <==> ColumnPositives(m.cells, KeptUsers(m, minUser), j) >= minItem))
  {
    var us := KeptUsers(m, minUser);
    var items := KeptItems(m, us, minItem);
    forall i | 0 <= i < |m.rows| ensures m.rows[i] in Pick(m.rows, us) <==> i in us {
      PickedKey(m.rows, us, i);
    }
    forall j | 0 <= j < |m.cols| ensures m.cols[j] in Pick(m.cols, items) <==> j in items {
      PickedKey(m.cols, items, j);
    }
  }

  /** The example matrix of FilterDoesNotRecheckUsers: two users, two items,
      each user with one positive cell in a different column. */
  function Diagonal(): (m: Frame<int, real>)
    ensures m.Shaped()
  {
    Frame([1, 2], ["a", "b"], [[1.0, 0.0], [0.0, 1.0]])
  }

  lemma DiagonalKeepsBothUsers()
    ensures KeptUsers(Diagonal(), 1) == [0, 1]
  {
    var m := Diagonal();
    assert PositiveCount(m.cells[0]) == 1 && PositiveCount(m.cells[1]) == 1;
    var us := KeptUsers(m, 1);
    assert |us| == 2 && us[0] < us[1] < 2;
  }

  lemma DiagonalColumnCounts(j: nat)
    requires j < 2
    ensures ColumnPositives(Diagonal().cells, [0, 1], j) == 1
  {
    var cells := Diagonal().cells;
    assert [0, 1][1..] == [1] && [1][1..] == [];
    assert ColumnPositives(cells, [1], j) == (if cells[1][j] > 0.0 then 1 else 0) + ColumnPositives(cells, [], j);
  }

  /** Users are not checked again after the item filter: here both users pass
      the user threshold of 1, both items fail the item threshold of 2, and
      the kept users are left with no positive cell at all. */
  lemma FilterDoesNotRecheckUsers()
    ensures var r := FilterSparseUsersItems(Diagonal(), 1, 2);
            && r.rows == [1, 2] && r.cols == []
            && forall a :: 0 <= a < |r.rows| ==> PositiveCount(r.cells[a]) < 1
  {
    var m := Diagonal();
    DiagonalKeepsBothUsers();
    var us := KeptUsers(m, 1);
    DiagonalColumnCounts(0);
    DiagonalColumnCounts(1);
    var items := KeptItems(m, us, 2);
    assert items == [];
  }
}
