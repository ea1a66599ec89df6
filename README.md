# SmartCart core in Dafny

SmartCart turns a table of retail transactions (order id, product, quantity,
customer id) into two kinds of advice.

- **Market-basket analysis.** `MBAEngine` holds the frequent itemsets and association rules that the
  mining library produced. It answers queries over them:
  - the top rules by a metric;
  - the products to recommend with a given product;
  - the frequently-bought-together pairs;
  - the top bundles;
  - a summary of the rule table.
- **Hybrid recommender.** `RecommenderEngine` keeps a customer × product quantity matrix and its
  user and item similarity matrices. It builds personal recommendation lists in up to three tiers:
  - a collaborative tier, optionally blended with a matrix-factorisation score;
  - a content-based top-up;
  - a popularity list for customers it does not know.
  It also answers nearest-neighbour queries.
- **Preprocessing and helpers.** These build the binary order × product basket matrix and the
  customer × product quantity matrix. They turn a basket into the transaction list for mining, normalise a
  matrix (min-max or z-score) and drop sparse users and items. They also check required columns, divide
  with a fallback, and compute summary metrics over the whole table and per product.

The modules follow the source:

| module | what it holds |
|---|---|
| `Wrappers` | `Option` and `Result` |
| `Keys` | distinct sorted group-by keys |
| `Transactions` | transaction rows and their group-by sums |
| `Ranking` | the stable descending sort and top-n that every query uses |
| `Preprocessing` | the matrix builders and transforms of `src/preprocessing.py` |
| `Utils` | `src/utils.py` |
| `MarketBasket` | `src/mba_engine.py`, with the class `MBAEngine` |
| `Recommender` | `src/recommender.py`, with the class `RecommenderEngine` |

A pandas DataFrame is a `Frame(rows, cols, cells)`, i.e. row keys, column keys and a rectangular
table of cells. A pandas Series of scores becomes a sequence of `Scored(index, score)`. Both engines
update their fields in place, so they are classes whose `Fit` methods modify `this`. Their queries
are functions that read `this`, or methods that delegate to module-level methods with loops, where
the source loops.

The numeric library's results are parameters:
- the mined itemsets and rules, for `MBAEngine.Fit`;
- the cosine-similarity matrices and whether the factorisation fails, for `RecommenderEngine.Fit`;
- the factorisation's projected score row, for `GetUserRecommendations`;
- the z-score spread, for `NormalizeRatings`.

## Model

| member | source | states |
|---|---|---|
| Ranking.Take | src/recommender.py:132 | the first min(n, \|s\|) elements of s, all of s when it is shorter (a Python slice `[:n]`) |
| Ranking.SortDesc | src/mba_engine.py:159 | the result is a permutation of the input with keys never increasing |
| Ranking.SortDescIsStable | src/mba_engine.py:159 | elements with equal keys keep their input order (Python's `sorted` is stable) |
| Ranking.TopN | src/mba_engine.py:159-160 | min(n, \|s\|) elements, sorted descending, a sub-multiset of s, and no element left out has a larger key than an element kept |
| Ranking.TopNIsStable | src/mba_engine.py:189-190 | the kept elements with a given key are the first elements with that key in input order |
| Keys.KeysOf | src/preprocessing.py:22 | the distinct values of a column, each exactly once and nothing else |
| Keys.KeysOfAscending | src/preprocessing.py:22 | under a strict total order the group-by keys come out smallest first |
| Keys.StringBelowIsStrictTotalOrder | src/preprocessing.py:22 | code-point order on product names is irreflexive, transitive and total |
| Keys.DistinctCard | src/utils.py:38-40 | a list of distinct keys has as many elements as its set |
| Transactions.NoRowsNoQuantity | src/preprocessing.py:41 | a group-by cell that no row contributes to is 0 (the fill value) |
| Transactions.QuantityNonNegative | src/preprocessing.py:41 | with non-negative quantities every summed cell is non-negative |
| Transactions.PositiveIffSomeRowPositive | src/preprocessing.py:22-25 | with non-negative quantities a summed cell is positive exactly when one of its rows has a positive quantity |
| Transactions.OrderTotalsAddUp | src/utils.py:42 | the per-order totals add up to the table's total quantity |
| Transactions.Select | src/utils.py:89 | a boolean-mask selection holds exactly the table's rows that match |
| Transactions.SelectCounts | src/utils.py:89 | each matching row is kept as many times as the table holds it, and no other row is kept |
| Transactions.SelectQuantity | src/utils.py:93 | summing the selected rows gives the selector's sum over the whole table |
| Preprocessing.OrderKeys | src/preprocessing.py:22 | distinct ascending order ids, exactly those of the table |
| Preprocessing.CustomerKeys | src/preprocessing.py:41 | distinct ascending customer ids, exactly those of the table |
| Preprocessing.ProductKeys | src/preprocessing.py:22 | distinct ascending product names, exactly those of the table |
| Preprocessing.PrepareBasketData | src/preprocessing.py:10-27 | one row per order key and one column per product key; each cell is the binarised summed quantity of that order and product |
| Preprocessing.BasketCellMeaning | src/preprocessing.py:22-25 | every basket cell is 0 or 1, and it is 1 exactly when a row of that order and product has a positive quantity |
| Preprocessing.PrepareUserItemMatrix | src/preprocessing.py:30-43 | one row per customer key and one column per product key; each cell is the summed quantity of that customer and product |
| Preprocessing.UserItemCellWithoutRows | src/preprocessing.py:41 | a customer and product that never share a row get 0 |
| Preprocessing.OrderItemsetsAreBaskets | src/preprocessing.py:57-65 | at most one itemset per order; every itemset is non-empty and made of columns; every order with a product yields its itemset |
| Preprocessing.GetFrequentItemsetsData | src/preprocessing.py:46-65 | the loop returns the non-empty item sets of the orders, in row order, and none of them is empty |
| Preprocessing.SeqMin | src/preprocessing.py:80 | the minimum is a cell and no cell is smaller |
| Preprocessing.SeqMax | src/preprocessing.py:81 | the maximum is a cell and no cell is larger |
| Preprocessing.SpreadIffExtremesDiffer | src/preprocessing.py:83 | the matrix has two different cells exactly when its minimum is below its maximum |
| Preprocessing.Shift | src/preprocessing.py:84-91 | same keys and shape; each cell becomes (x - a) / b |
| Preprocessing.Rescale | src/preprocessing.py:84 | same keys and shape; each cell becomes (x - min) / (max - min) |
| Preprocessing.ShiftKeepsOrder | src/preprocessing.py:84-91 | shifting by a positive divisor keeps the order of every pair of cells |
| Preprocessing.RescaleWithin | src/preprocessing.py:79-84 | cells between the extremes land in [0, 1] |
| Preprocessing.RescaleReachesEnds | src/preprocessing.py:79-84 | the smallest cell becomes 0 and the largest becomes 1 |
| Preprocessing.MinMax | src/preprocessing.py:79-86 | unchanged without spread; otherwise every cell x becomes (x - min) / (max - min) with min and max the matrix's extremes, every cell lies in [0, 1], 0 and 1 both occur, and cell order is kept |
| Preprocessing.ColumnMeans | src/preprocessing.py:89 | one mean per column, each its column's sum over the row count |
| Preprocessing.MeanOfShift | src/preprocessing.py:89-91 | the mean of shifted values is the shifted mean |
| Preprocessing.ColumnMeanShift | src/preprocessing.py:89-91 | the column mean of the shifted matrix is the shifted column mean |
| Preprocessing.StandardisedMeanIsZero | src/preprocessing.py:87-91 | subtracting the mean of the column means leaves a mean of column means of 0 |
| Preprocessing.Standardise | src/preprocessing.py:87-94 | each cell is (x - mean) / spread; the new mean of column means is 0; cell order is kept |
| Preprocessing.NormalizeRatings | src/preprocessing.py:68-98 | same keys and shape, and cell order is always kept. "min_max" (the default): each cell x becomes (x - min) / (max - min), in [0, 1] reaching both ends, or unchanged without spread. "z_score": mean 0 and each cell (x - mean) / spread, or unchanged when the spread is absent or not positive. Any other name: unchanged |
| Preprocessing.SelectIndices | src/preprocessing.py:117 | the increasing positions whose flag holds, and only those |
| Preprocessing.KeptUsers | src/preprocessing.py:116-118 | exactly the rows with at least min_user positive cells, in row order |
| Preprocessing.KeptItems | src/preprocessing.py:121-123 | exactly the columns with at least min_item positive cells among the kept rows, in column order |
| Preprocessing.Pick | src/preprocessing.py:118 | the elements at the given positions, in that order |
| Preprocessing.FilterSparseUsersItems | src/preprocessing.py:101-125 | the kept rows and columns with their keys and cells, in the original order |
| Preprocessing.FilterKeepsExactly | src/preprocessing.py:115-125 | a user key stays exactly when its row passes the user threshold; a product key stays exactly when its column passes the item threshold among the kept users |
| Preprocessing.FilterDoesNotRecheckUsers | src/preprocessing.py:115-123 | users are not checked again after the item filter: a kept user can be left below min_user |
| Utils.ValidateDataframe | src/utils.py:10-24 | succeeds with true exactly when every required column is present; otherwise fails with exactly the missing columns, never an empty set |
| Utils.SafeDivide | src/utils.py:61-75 | the default for a zero denominator, otherwise the quotient |
| Utils.KeyCount | src/utils.py:38-40 | a distinct key list covering a column counts its distinct values (`nunique`) |
| Utils.MeanOrderTotal | src/utils.py:42 | None for an empty table, otherwise the total quantity over the number of distinct orders |
| Utils.OrderFacts | src/utils.py:42 | a non-empty table has as many order groups as distinct order ids, at least one, and their totals add up to the total |
| Utils.CalculateBasicMetrics | src/utils.py:27-45 | distinct order, customer and product counts; the row count; the mean order total (None when empty); min(10, product count) top products |
| Utils.TopProductNames | src/utils.py:43 | min(10, product count) names |
| Utils.TopOfDistinct | src/utils.py:43 | the top of distinct keys is distinct, and nothing left out outranks anything kept |
| Utils.TopProductsAreProducts | src/utils.py:43 | each top product is a product of the table, listed with its total quantity |
| Utils.TopProductsDescending | src/utils.py:43 | the top products are distinct and listed by decreasing total |
| Utils.TopProductsAreTop | src/utils.py:43 | no product left out has a larger total than one listed |
| Utils.GetProductStats | src/utils.py:78-98 | distinct orders and customers among the product's rows; its total quantity; its mean per-order quantity, None exactly when the product has no rows |
| Utils.SelectedOrderIds | src/utils.py:89-92 | the order ids of the selection are those of the product's rows |
| Utils.SelectedCustomerIds | src/utils.py:89-94 | the customer ids of the selection are those of the product's rows |
| MarketBasket.MBAEngine.constructor | src/mba_engine.py:25-29 | thresholds stored, no itemsets, rules or basket |
| MarketBasket.MBAEngine.Fit | src/mba_engine.py:31-55 | stores the basket and the mined itemsets; the rules are the mined rules when there are itemsets, an empty table otherwise; thresholds unchanged |
| MarketBasket.RankRules | src/mba_engine.py:75 | min(n, \|rules\|) rules drawn from the table |
| MarketBasket.RankRulesOrder | src/mba_engine.py:72-75 | the ranked rules are ordered by the metric (ascending on request), and no rule left out beats a rule kept |
| MarketBasket.UnknownMetricIsLift | src/mba_engine.py:72-73 | a name that is not a column ranks exactly as "lift" |
| MarketBasket.MBAEngine.GetTopRules | src/mba_engine.py:57-76 | empty table gives empty; ranking by a set column fails exactly when there are rules; otherwise the ranked rules |
| MarketBasket.MatchingRules | src/mba_engine.py:93-95 | exactly the rules whose antecedents hold the product |
| MarketBasket.MBAEngine.GetProductRecommendations | src/mba_engine.py:78-125 | empty for no rules. At most max(n, 1) entries, each from a matching rule, never the query product, each product once, lift non-increasing. Each entry carries the lift of the highest-lift matching rule that names it, and every candidate of a matching rule with a higher lift than some entry is listed. When fewer than n come back, every candidate consequent is listed |
| MarketBasket.ProductRecommendations | src/mba_engine.py:89-125 | the same facts over a given rule table: empty for an empty table, every entry drawn from a rule that matches the product, no matching rule naming an entry has a higher lift than it, and the candidates of rules above an entry's lift are all listed |
| MarketBasket.CollectRecommendations | src/mba_engine.py:107-123 | the rule loop keeps the entries distinct, drawn from the rules and in lift order, and covers every consequent it passes; each entry has the highest lift among the walked rules naming it, and every consequent of a rule with a higher lift than some entry is listed |
| MarketBasket.BestLiftExtend | src/mba_engine.py:107-118 | walking one more rule keeps every entry at the highest lift among the walked rules that name it |
| MarketBasket.WalkStopped | src/mba_engine.py:121-122 | when the walk stops, the rules not walked rank no higher than any entry, so the lift facts hold for all matching rules |
| MarketBasket.AddConsequents | src/mba_engine.py:108-120 | the inner loop appends the unseen consequents of one rule with that rule's metrics, up to the limit |
| MarketBasket.CoveredCandidates | src/mba_engine.py:107-123 | once every rule has been walked, every candidate consequent has been seen |
| MarketBasket.GetProductRecommendationsAtMostN | src/mba_engine.py:107-123 | with the count checked before adding (empty for n = 0; for n >= 1 the as-written walk already stops at n), at most n entries and otherwise the same guarantees, including the highest-lift selection |
| MarketBasket.ZeroRequestedOneReturned | src/mba_engine.py:111-120 | a request for 0 recommendations from the rule {A} -> {B} returns one entry, B |
| MarketBasket.PairOf | src/mba_engine.py:148-155 | a one-to-one rule's pair carries its two products and its metrics |
| MarketBasket.PairsOfMeaning | src/mba_engine.py:143-157 | every pair comes from a one-to-one rule, and every one-to-one rule yields its pair |
| MarketBasket.TopPairs | src/mba_engine.py:141-160 | min(n, pair count) pairs, lift non-increasing, each from a one-to-one rule of the table |
| MarketBasket.TopPairsOutrankRest | src/mba_engine.py:159-160 | no pair left out has a larger lift than one returned |
| MarketBasket.PairsKeepRuleOrder | src/mba_engine.py:159-160 | pairs of equal lift come in rule-table order |
| MarketBasket.AllPairsReturned | src/mba_engine.py:143-160 | with n at least the pair count, every one-to-one rule's pair is returned |
| MarketBasket.MBAEngine.GetFrequentlyBoughtTogether | src/mba_engine.py:127-160 | empty without rules; otherwise the facts of TopPairs over the engine's rules |
| MarketBasket.BundlesOfMeaning | src/mba_engine.py:176-187 | every bundle comes from an itemset of two or more products, and every such itemset yields one |
| MarketBasket.TopBundles | src/mba_engine.py:176-190 | min(n, bundle count) bundles, support non-increasing; each has size equal to its product count, at least 2, and is an itemset of the table |
| MarketBasket.TopBundlesOutrankRest | src/mba_engine.py:189-190 | no bundle left out has a larger support than one returned |
| MarketBasket.BundlesKeepTableOrder | src/mba_engine.py:189-190 | bundles of equal support come in itemset-table order |
| MarketBasket.MBAEngine.GetTopBundles | src/mba_engine.py:162-190 | empty without itemsets; otherwise the facts of TopBundles over the engine's itemsets |
| MarketBasket.MBAEngine.GetRulesSummary | src/mba_engine.py:192-214 | the rule count; zeros and no extremes for no rules; otherwise the mean confidence lies between its extremes and the mean lift is at most the maximum lift |
| MarketBasket.RulesSummaryMeaning | src/mba_engine.py:207-214 | the extremes bound every rule and are attained by one; the means are the sums over the rule count |
| MarketBasket.MeanWithin | src/mba_engine.py:209-213 | a mean lies between the minimum and the maximum |
| MarketBasket.RuleExtremes | src/mba_engine.py:211-213 | every rule lies within the confidence extremes and at most the maximum lift, and each extreme is attained |
| Recommender.RecommenderEngine.constructor | src/recommender.py:19-34 | settings stored, nothing fitted |
| Recommender.RecommenderEngine.Fit | src/recommender.py:36-64 | stores the matrix, its keys and both similarity matrices; a model exists exactly when the clamped component count is at least 1 and the factorisation does not fail |
| Recommender.FirstIndex | src/recommender.py:88 | the first position of the id |
| Recommender.CollaborativeScores | src/recommender.py:97 | each column's score is the similarity-weighted sum over all customers |
| Recommender.Blend | src/recommender.py:106 | each score is 0.6 × collaborative + 0.4 × factorisation |
| Recommender.UserScores | src/recommender.py:93-110 | the blended score when a projection exists, the collaborative score otherwise |
| Recommender.Unmasked | src/recommender.py:113 | the candidates are the unpurchased columns with their scores, all of them |
| Recommender.Positives | src/recommender.py:119-125 | only positively scored entries, tagged, each naming a ranked column with its score |
| Recommender.PositivesDescending | src/recommender.py:116-125 | a descending ranking gives descending entries |
| Recommender.PositivesComplete | src/recommender.py:119-125 | every positively scored ranked column is listed |
| Recommender.Tier | src/recommender.py:113-125 | at most n entries; TierMeaning, TierIsTop and TierDistinct state what the entries are |
| Recommender.TierMeaning | src/recommender.py:113-125 | every entry has a positive score, is an unpurchased column carrying its score and has the tier's tag; scores never increase |
| Recommender.TierComplete | src/recommender.py:116-125 | when a tier is short, every unpurchased positively scored column is in it |
| Recommender.TierIsTop | src/recommender.py:115-125 | a tier holds the best unmasked columns: an unpurchased column scoring more than some entry is itself an entry, with its score |
| Recommender.TierDistinct | src/recommender.py:115-125 | with distinct column names, no product appears twice in a tier |
| Recommender.PositivesDistinct | src/recommender.py:119-125 | entries made from distinct positions of distinct column names name distinct products |
| Recommender.UnmaskedIncreasing | src/recommender.py:113 | the unmasked positions come in increasing order, each once |
| Recommender.SubDistinct | src/recommender.py:116 | taking the top n of a ranking never repeats a position |
| Recommender.KeepPositive | src/recommender.py:118-125 | the loop builds exactly the positive entries of the ranking |
| Recommender.CollaborativeTier | src/recommender.py:116-125 | the loop builds the collaborative tier |
| Recommender.PersonalList | src/recommender.py:113-132 | at most count entries; the lemmas below state the runs, their order, their top columns and their distinctness |
| Recommender.PersonalNoRepurchase | src/recommender.py:113-132 | no personal entry names a purchased product, and every score is positive |
| Recommender.PersonalRuns | src/recommender.py:127-132 | the list is the collaborative tier followed by a content-based run, each in descending score |
| Recommender.PersonalListIsTop | src/recommender.py:113-125 | an unpurchased column scoring more than some collaborative entry is in the collaborative run |
| Recommender.PersonalContentIsTop | src/recommender.py:127-130 | an unpurchased column whose content score beats some content-based entry is in the content-based run |
| Recommender.PersonalListDistinct | src/recommender.py:113-132 | with distinct column names, neither run repeats a product |
| Recommender.PersonalCollaborativeDistinct | src/recommender.py:113-125 | with distinct column names, the collaborative run repeats no product |
| Recommender.PersonalContentDistinct | src/recommender.py:127-132 | with distinct column names, the content-based run repeats no product |
| Recommender.PersonalRecommendations | src/recommender.py:116-132 | the method builds the personal list, topped up and cut to count |
| Recommender.RecommenderEngine.GetUserRecommendations | src/recommender.py:66-132 | empty before fit; the popularity list for an unknown customer; otherwise the personal list of the customer's scores; n defaults to the configured count |
| Recommender.Purchased | src/recommender.py:152 | exactly the positively valued columns, increasing |
| Recommender.ContentScores | src/recommender.py:158-161 | each column's score is the sum over purchased columns of similarity × quantity |
| Recommender.AccumulateSimilarity | src/recommender.py:158-161 | the loop over purchases computes the content scores |
| Recommender.AddPurchase | src/recommender.py:161 | one purchase's weighted similarity row is added to every score in the array |
| Recommender.ContentList | src/recommender.py:152-178 | empty without purchases, at most n entries; the ContentList lemmas below state what the entries are |
| Recommender.ContentListMeaning | src/recommender.py:163-178 | every content-based entry is an unpurchased column with its positive content score, scores never increasing |
| Recommender.ContentListIsTop | src/recommender.py:163-178 | an unpurchased column whose content score beats some entry is listed |
| Recommender.ContentListDistinct | src/recommender.py:163-178 | with distinct column names, no product appears twice |
| Recommender.ContentTier | src/recommender.py:152-178 | the method builds the content-based list |
| Recommender.RecommenderEngine.ContentBasedRecommendations | src/recommender.py:134-178 | empty for an unknown customer; otherwise the content-based list of the customer's row |
| Recommender.ColumnSums | src/recommender.py:194 | each product's popularity is its column total |
| Recommender.ColdStartList | src/recommender.py:194-202 | min(n, product count) entries tagged popularity |
| Recommender.ColdStartDescending | src/recommender.py:194-202 | popularity entries are listed by decreasing total |
| Recommender.ColdStartColumns | src/recommender.py:194-202 | every popularity entry is a column with its total |
| Recommender.ColdStartDistinct | src/recommender.py:194-202 | with distinct column names, no product appears twice in the popularity list |
| Recommender.ColdStartIsTop | src/recommender.py:194-197 | a column with a larger total than some listed entry is listed itself |
| Recommender.Tagged | src/recommender.py:196-202 | each ranked column becomes an entry with its name, score and tag |
| Recommender.RecommenderEngine.ColdStartRecommendations | src/recommender.py:180-204 | empty before fit, otherwise the popularity list |
| Recommender.Neighbours | src/recommender.py:224 | max(0, min(n + 1, row length) - 1) positions, without the first-ranked one |
| Recommender.NeighboursMeaning | src/recommender.py:224 | neighbours carry their similarity, come best first and never repeat |
| Recommender.NeighboursAreTop | src/recommender.py:224 | a position more similar than some neighbour is a neighbour, unless it is the dropped first-ranked position |
| Recommender.NeighboursAreTopAnyTie | src/recommender.py:224 | a position more similar than some neighbour is a neighbour, or it holds the row's largest similarity (the dropped queried id is a maximum, whichever tie a ranking puts first) |
| Recommender.RankingHeadIsMaximal | src/recommender.py:224 | the first-ranked position of a non-empty row holds its largest similarity |
| Recommender.NeighboursTail | src/recommender.py:224 | the neighbours are the top n + 1 without their head, and that head is the head of the full ranking |
| Recommender.UserEntries | src/recommender.py:226-231 | each neighbour becomes its customer id with its similarity |
| Recommender.ProductEntries | src/recommender.py:255-260 | each neighbour becomes its product name with its similarity |
| Recommender.RecommenderEngine.GetSimilarUsers | src/recommender.py:206-233 | empty for an unknown customer; otherwise the neighbours of its similarity row as customer entries |
| Recommender.RecommenderEngine.GetSimilarProducts | src/recommender.py:235-262 | empty for an unknown product; otherwise the neighbours of its similarity row as product entries |

## Left out

The source does not always match what SmartCart's design promises. Where they differ, the model
follows the code:
- The design says the similar-user and similar-product queries exclude the queried id itself. The
  code drops the first-ranked position, which is the id itself only when it ranks first (ties or an
  all-zero row can place another id first). `Neighbours` drops the first-ranked position.
- The design says every rule query on an empty or absent table returns an empty result and never
  fails, and that an unknown metric falls back to lift. The code falls back only for names that are
  not columns. Sorting by the set-valued `antecedents` or `consequents` columns raises.
  `GetTopRules` returns a `Failure` there.
- The design says recommendations stop when n distinct products are collected. The code checks the
  count only after an addition, so a request for 0 still yields one (see Findings).

What the model does not capture:
- format_currency (src/utils.py:48-58) is string formatting of a float and is not part of this model.
- The mining library (apriori, association_rules), cosine similarity and the non-negative matrix
  factorisation are not part of this model. Their results are parameters:
  - the itemsets and rules;
  - the two similarity matrices;
  - a flag for a failing factorisation;
  - the projected factor scores, absent when projecting fails.
  The division of the matrix by its maximum plus 1e-8 only feeds those library calls.
- Preprocessing.NormalizeRatings: the z-score spread is a parameter, not computed. It is the standard
  deviation of the column standard deviations, which needs a square root. `None` stands for the
  NaN that pandas gives for fewer than two values.
- Preprocessing.Standardise requires a non-empty matrix; `NormalizeRatings` only takes the z-score
  branch when the matrix is non-empty, and otherwise returns it unchanged as the source does, where
  NaN statistics fail the `> 0` test.
- NaN results (the mean of an empty column) are `None`; floating-point rounding is not modelled
  (`real` is exact).
- Sorting in numpy (`argsort`) and pandas (`sort_values`, `nlargest`) is not guaranteed stable.
  The model uses one stable sort everywhere. Its contracts promise tie order where the source uses
  Python's stable `sorted` (PairsKeepRuleOrder, BundlesKeepTableOrder). Neighbours, NeighboursTail and
  NeighboursAreTop also fix a tie order. Among equally similar maxima they drop the lowest position,
  while `np.argsort(...)[::-1][1:n+1]` (src/recommender.py:224, 253) usually drops the highest.
  For example, similarities [1.0, 1.0, 0.5] with n = 2 give positions [1, 2] in the model and
  likely [0, 2] in numpy. NeighboursAreTopAnyTie states the top property without any tie order:
  a position more similar than a neighbour is a neighbour, or it is as similar as every position.
- Default arguments are the source's (n = 10, 5 or the configured count; "lift"; "min_max"; thresholds
  1 and 1; engine settings 0.1 / 0.5 and 10 / 10). The z-score spread parameter has no default.
- The distinctness lemmas (TierDistinct, ContentListDistinct, PersonalListDistinct, PersonalCollaborativeDistinct,
  PersonalContentDistinct, ColdStartDistinct)
  assume distinct column names, which the group-by keys that build the matrix always are.
- Preprocessing.FilterSparseUsersItems: rows and columns are kept by position. pandas `.loc[valid_users]`
  and `[valid_items]` (src/preprocessing.py:118, 123) select by label. The two differ only when a row or
  column key repeats, for example rows [7, 7]: pandas keeps every row labelled 7. The group-by and pivot
  builders never produce repeated keys.
- Preprocessing.GetFrequentItemsetsData reads each order's row by position. `basket_df.loc[order_id]`
  (src/preprocessing.py:60) fails on a repeated order id; the model does not model that failure.
- Counts n are natural numbers. Negative n and Python's negative slicing are not modelled.
- Recommender.RecommenderEngine.Fit requires a non-empty matrix. On an empty one the source fails
  inside numpy after assigning part of its state.
- Recommender.RecommenderEngine.GetSimilarUsers, GetSimilarProducts and ContentBasedRecommendations
  require a fitted engine. Before fit the source fails on the missing id arrays or matrix.
- Masking purchased products with negative infinity is modelled as leaving them out of the
  candidates before ranking. A masked entry would rank last and fail the `> 0` filter anyway.
- Recommender.RecommenderEngine.GetUserRecommendations tops the list up with the content-based list
  of the customer's row directly. The source calls the content-based method, which repeats the
  known-customer check that has already passed.
- Products are not de-duplicated across the collaborative and content-based tiers, as in the source.
- MarketBasket: antecedents and consequents are always sets. The source's `isinstance(..., frozenset)`
  guards are not modelled because mined rules always carry frozensets.
- MarketBasket.MBAEngine.GetTopBundles: a bundle's products are a set. The order of the list that
  the source builds from the frozenset is not modelled.
- MarketBasket.MBAEngine.GetTopRules: the rule table holds only support, confidence and lift. Other
  numeric columns that the mining library adds (leverage, conviction and more) would be ranked by
  that column in the source; the model ranks them by lift.
- MarketBasket.MBAEngine.GetRulesSummary: the source's empty summary has no confidence extremes at
  all; the model returns `None` for them.

## Findings

| source | as written | input that shows it | evidently intended | confidence | as-written member | corrected member |
|---|---|---|---|---|---|---|
| src/mba_engine.py:111-123 | the count check `len(recommendations) >= n` runs only after an addition | one rule {A} -> {B}, product A, n = 0: one recommendation (B) is returned | at most n recommendations, none for n = 0 | not executed | MarketBasket.ZeroRequestedOneReturned | MarketBasket.GetProductRecommendationsAtMostN |
