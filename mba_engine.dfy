/** The market-basket query layer: the engine stores the frequent itemsets and
    association rules that the mining library produced for a basket matrix,
    and answers ranking, recommendation, pair, bundle and summary queries over
    them. The mining itself is an input. */
module MarketBasket {
  import opened Wrappers
  import opened Ranking
  import opened Preprocessing

  /** One row of the association-rule table. */
  datatype Rule = Rule(antecedents: set<string>, consequents: set<string>, support: real, confidence: real, lift: real)

  /** One row of the frequent-itemset table. */
  datatype Itemset = Itemset(items: set<string>, support: real)

  /** A recommended product with the metrics of the rule it came from. */
  datatype ProductRecommendation = ProductRecommendation(product: string, confidence: real, lift: real, support: real)

  /** A rule with one antecedent and one consequent, flattened. */
  datatype Pair = Pair(productA: string, productB: string, confidence: real, lift: real, support: real)

  /** A frequent itemset of at least two products. */
  datatype Bundle = Bundle(products: set<string>, support: real, size: nat)

  datatype RulesSummary = RulesSummary(
    totalRules: nat,
    avgConfidence: real,
    avgLift: real,
    maxLift: real,
    minConfidence: Option<real>,
    maxConfidence: Option<real>)

  function LiftOf(r: Rule): real { r.lift }

  function PairLift(p: Pair): real { p.lift }

  function BundleSupport(b: Bundle): real { b.support }

  /** The numeric column a sort request uses: support or confidence when
      named, lift for every other name. */
  function Score(metric: string, r: Rule): real
  {
    if metric == "support" then r.support
    else if metric == "confidence" then r.confidence
    else r.lift
  }

  /** The metric a top-rules request uses: the name itself when it is a
      column of the rule table, "lift" otherwise. */
  function EffectiveMetric(metric: string): string
  {
    if metric in {"antecedents", "consequents", "support", "confidence", "lift"} then metric else "lift"
  }

  /** The sort key of a top-rules request: the score, negated for ascending
      order so that the largest keys are the smallest scores. */
  function SortKey(metric: string, ascending: bool): Rule -> real
  {
    if ascending then r => -Score(metric, r) else r => Score(metric, r)
  }

  /** The first n rules by score (by lowest score when ascending). */
  function RankRules(rules: seq<Rule>, n: nat, metric: string, ascending: bool): (r: seq<Rule>)
    ensures |r| == Min(n, |rules|) && multiset(r) <= multiset(rules)
  {
    TopN(rules, SortKey(EffectiveMetric(metric), ascending), n)
  }

  /** The ranked rules are ordered by the metric (descending, or ascending
      on request) and no rule left out beats a rule kept. */
  lemma RankRulesOrder(rules: seq<Rule>, n: nat, metric: string, ascending: bool)
    ensures var r := RankRules(rules, n, metric, ascending);
            !ascending ==>
              && (forall i, j :: 0 <= i < j < |r| ==> Score(metric, r[j]) <= Score(metric, r[i]))
              && (forall x, y :: x in multiset(rules) - multiset(r) && y in r ==> Score(metric, x) <= Score(metric, y))
    ensures var r := RankRules(rules, n, metric, ascending);
            ascending ==>
              && (forall i, j :: 0 <= i < j < |r| ==> Score(metric, r[i]) <= Score(metric, r[j]))
              && (forall x, y :: x in multiset(rules) - multiset(r) && y in r ==> Score(metric, y) <= Score(metric, x))
  {
    var key := SortKey(EffectiveMetric(metric), ascending);
    var r := RankRules(rules, n, metric, ascending);
    assert r == TopN(rules, key, n);
    assert SortedDesc(r, key);
    forall x | true ensures key(x) == if ascending then -Score(metric, x) else Score(metric, x) {
    }
    forall i, j | 0 <= i < j < |r|
      ensures if ascending then Score(metric, r[i]) <= Score(metric, r[j]) else Score(metric, r[j]) <= Score(metric, r[i])
    {
      assert key(r[j]) <= key(r[i]);
    }
    forall x, y | x in multiset(rules) - multiset(r) && y in r
      ensures if ascending then Score(metric, y) <= Score(metric, x) else Score(metric, x) <= Score(metric, y)
    {
      assert key(x) <= key(y);
    }
  }

  /** rec is drawn from rule r for the query product. */
  predicate FromRule(rec: ProductRecommendation, r: Rule, product: string)
  {
    && product in r.antecedents
    && rec.product in r.consequents
    && rec.confidence == r.confidence
    && rec.lift == r.lift
    && rec.support == r.support
  }

  /** c is a product that some rule with product among its antecedents
      recommends. */
  ghost predicate IsCandidate(c: string, rules: seq<Rule>, product: string)
  {
    c != product && exists r :: r in rules && product in r.antecedents && c in r.consequents
  }

  predicate DistinctProducts(recs: seq<ProductRecommendation>)
  {
    forall k, l :: 0 <= k < l < |recs| ==> recs[k].product != recs[l].product
  }

  /** Every entry carries a lift at least that of each rule of rules that
      has product among its antecedents and the entry's product among its
      consequents: the entry comes from the highest-lift such rule. */
  ghost predicate BestLift(recs: seq<ProductRecommendation>, rules: seq<Rule>, product: string)
  {
    forall k, r :: 0 <= k < |recs| && r in rules && product in r.antecedents && recs[k].product in r.consequents ==>
      r.lift <= recs[k].lift
  }

  /** Every consequent other than product of a rule of rules that has product
      among its antecedents and a lift above that of some entry is listed. */
  ghost predicate HigherListed(recs: seq<ProductRecommendation>, rules: seq<Rule>, product: string)
  {
    forall k, r, c :: 0 <= k < |recs| && r in rules && product in r.antecedents && recs[k].lift < r.lift &&
                      c in r.consequents && c != product ==>
      exists l :: 0 <= l < |recs| && recs[l].product == c
  }

  /** seen holds exactly the products of recs. */
  ghost predicate Tracks(seen: set<string>, recs: seq<ProductRecommendation>)
  {
    forall c :: c in seen <==> exists k :: 0 <= k < |recs| && recs[k].product == c
  }

  /** The rules whose antecedents hold product, in table order. */
  function MatchingRules(rules: seq<Rule>, product: string): (r: seq<Rule>)
    ensures forall x :: x in r <==> x in rules && product in x.antecedents
  {
    if |rules| == 0 then []
    else
      assert forall x :: x in rules <==> x == rules[0] || x in rules[1..];
      (if product in rules[0].antecedents then [rules[0]] else []) + MatchingRules(rules[1..], product)
  }

  /** The one element of a singleton set. */
  function Only(s: set<string>): (x: string)
    requires |s| == 1
    ensures s == {x}
  {
    var x :| x in s;
    assert s == {x} by {
      assert |s - {x}| == 0;
    }
    x
  }

  predicate IsPairRule(r: Rule)
  {
    |r.antecedents| == 1 && |r.consequents| == 1
  }

  function PairOf(r: Rule): (p: Pair)
    requires IsPairRule(r)
    ensures r.antecedents == {p.productA} && r.consequents == {p.productB}
    ensures p.confidence == r.confidence && p.lift == r.lift && p.support == r.support
  {
    Pair(Only(r.antecedents), Only(r.consequents), r.confidence, r.lift, r.support)
  }

  /** The pairs of the one-to-one rules, in table order. */
  function PairsOf(rules: seq<Rule>): seq<Pair>
  {
    if |rules| == 0 then []
    else
      var last := rules[|rules| - 1];
      PairsOf(rules[..|rules| - 1]) + (if IsPairRule(last) then [PairOf(last)] else [])
  }

  predicate IsBundle(s: Itemset)
  {
    |s.items| >= 2
  }

  function BundleOf(s: Itemset): Bundle
  {
    Bundle(s.items, s.support, |s.items|)
  }

  /** The bundles of the itemsets of two or more products, in table order. */
  function BundlesOf(itemsets: seq<Itemset>): seq<Bundle>
  {
    if |itemsets| == 0 then []
    else
      var last := itemsets[|itemsets| - 1];
      BundlesOf(itemsets[..|itemsets| - 1]) + (if IsBundle(last) then [BundleOf(last)] else [])
  }

  function Confidences(rules: seq<Rule>): (r: seq<real>)
    ensures |r| == |rules| && forall i :: 0 <= i < |rules| ==> r[i] == rules[i].confidence
  {
    seq(|rules|, i requires 0 <= i < |rules| => rules[i].confidence)
  }

  function Lifts(rules: seq<Rule>): (r: seq<real>)
    ensures |r| == |rules| && forall i :: 0 <= i < |rules| ==> r[i] == rules[i].lift
  {
    seq(|rules|, i requires 0 <= i < |rules| => rules[i].lift)
  }

  /** The n pairs of the largest lift. */
  function TopPairs(rules: seq<Rule>, n: nat): (r: seq<Pair>)
    ensures |r| == Min(n, |PairsOf(rules)|)
    ensures SortedDesc(r, PairLift)
    ensures forall p :: p in r ==> exists x :: x in rules && IsPairRule(x) && PairOf(x) == p
  {
    var all := PairsOf(rules);
    var top := TopN(all, PairLift, n);
    assert forall p :: p in top ==> exists x :: x in rules && IsPairRule(x) && PairOf(x) == p by {
      PairsOfMeaning(rules);
      forall p | p in top ensures p in all {
        assert p in multiset(top);
      }
    }
    top
  }

  /** The n bundles of the largest support. */
  function TopBundles(itemsets: seq<Itemset>, n: nat): (r: seq<Bundle>)
    ensures |r| == Min(n, |BundlesOf(itemsets)|)
    ensures SortedDesc(r, BundleSupport)
    ensures forall b :: b in r ==> b.size == |b.products| >= 2 && Itemset(b.products, b.support) in itemsets
  {
    var all := BundlesOf(itemsets);
    var top := TopN(all, BundleSupport, n);
    assert forall b :: b in top ==> b.size == |b.products| >= 2 && Itemset(b.products, b.support) in itemsets by {
      BundlesOfMeaning(itemsets);
      forall b | b in top ensures b in all {
        assert b in multiset(top);
      }
    }
    top
  }

  /** No pair left out has a larger lift than a pair returned. */
  lemma TopPairsOutrankRest(rules: seq<Rule>, n: nat)
    ensures var r := TopPairs(rules, n);
            forall x, y :: x in multiset(PairsOf(rules)) - multiset(r) && y in r ==> x.lift <= y.lift
  {
    var r := TopPairs(rules, n);
    assert r == TopN(PairsOf(rules), PairLift, n);
    forall x, y | x in multiset(PairsOf(rules)) - multiset(r) && y in r ensures x.lift <= y.lift {
      assert PairLift(x) <= PairLift(y);
    }
  }

  /** No bundle left out has a larger support than a bundle returned. */
  lemma TopBundlesOutrankRest(itemsets: seq<Itemset>, n: nat)
    ensures var r := TopBundles(itemsets, n);
            forall x, y :: x in multiset(BundlesOf(itemsets)) - multiset(r) && y in r ==> x.support <= y.support
  {
    var r := TopBundles(itemsets, n);
    assert r == TopN(BundlesOf(itemsets), BundleSupport, n);
    forall x, y | x in multiset(BundlesOf(itemsets)) - multiset(r) && y in r ensures x.support <= y.support {
      assert BundleSupport(x) <= BundleSupport(y);
    }
  }

  /** Pairs of equal lift keep the order of their rules in the table, and
      those kept are the first of them. */
  lemma PairsKeepRuleOrder(rules: seq<Rule>, n: nat, lift: real)
    ensures var w := WithKey(TopPairs(rules, n), PairLift, lift);
            |w| <= |WithKey(PairsOf(rules), PairLift, lift)| && w == WithKey(PairsOf(rules), PairLift, lift)[..|w|]
  {
    assert TopPairs(rules, n) == TopN(PairsOf(rules), PairLift, n);
    TopNIsStable(PairsOf(rules), PairLift, n, lift);
  }

  /** Bundles of equal support keep the order of their itemsets in the table,
      and those kept are the first of them. */
  lemma BundlesKeepTableOrder(itemsets: seq<Itemset>, n: nat, support: real)
    ensures var w := WithKey(TopBundles(itemsets, n), BundleSupport, support);
            |w| <= |WithKey(BundlesOf(itemsets), BundleSupport, support)| && w == WithKey(BundlesOf(itemsets), BundleSupport, support)[..|w|]
  {
    assert TopBundles(itemsets, n) == TopN(BundlesOf(itemsets), BundleSupport, n);
    TopNIsStable(BundlesOf(itemsets), BundleSupport, n, support);
  }

  /** Asking for at least as many pairs as there are one-to-one rules returns
      the pair of every such rule. */
  lemma AllPairsReturned(rules: seq<Rule>, n: nat)
    requires |PairsOf(rules)| <= n
    ensures forall x :: x in rules && IsPairRule(x) ==> PairOf(x) in TopPairs(rules, n)
  {
    var r := TopPairs(rules, n);
    PairsOfMeaning(rules);
    SubmultisetOfSameSize(r, PairsOf(rules));
    forall x | x in rules && IsPairRule(x) ensures PairOf(x) in r {
      assert PairOf(x) in multiset(r);
    }
  }

  class MBAEngine {
    var minSupport: real
    var minConfidence: real
    var frequentItemsets: Option<seq<Itemset>>
    var rules: Option<seq<Rule>>
    var basket: Option<Frame<int, int>>

    /** An engine with the given thresholds and nothing fitted. */
    constructor(minSupport: real := 0.1, minConfidence: real := 0.5)
      ensures this.minSupport == minSupport && this.minConfidence == minConfidence
      ensures frequentItemsets.None? && rules.None? && basket.None?
    {
      this.minSupport := minSupport;
      this.minConfidence := minConfidence;
      frequentItemsets := None;
      rules := None;
      basket := None;
    }

    /** Stores the basket and the mined tables. The rules are kept only when
        some itemset was frequent; otherwise the rule table is empty. */
    method Fit(basket: Frame<int, int>, mined: seq<Itemset>, minedRules: seq<Rule>)
      modifies this
      ensures this.basket == Some(basket)
      ensures frequentItemsets == Some(mined)
      ensures rules == Some(if |mined| > 0 then minedRules else [])
      ensures minSupport == old(minSupport) && minConfidence == old(minConfidence)
    {
      this.basket := Some(basket);
      frequentItemsets := Some(mined);
      if |mined| > 0 {
        rules := Some(minedRules);
      } else {
        rules := Some([]);
      }
    }

    /** The rule table, empty when absent. */
    function RuleList(): seq<Rule>
      reads this
    {
      if rules.Some? then rules.value else []
    }

    /** The itemset table, empty when absent. */
    function ItemsetList(): seq<Itemset>
      reads this
    {
      if frequentItemsets.Some? then frequentItemsets.value else []
    }

    /** The n rules with the largest score (the smallest when ascending);
        sorting by a column of sets fails, every name that is not a column
        sorts by lift. */
    function GetTopRules(n: nat := 10, metric: string := "lift", ascending: bool := false): (r: Result<seq<Rule>, string>)
      reads this
      ensures RuleList() == [] ==> r == Success([])
      ensures r.Failure? <==> RuleList() != [] && (metric == "antecedents" || metric == "consequents")
      ensures r.Success? ==> r.value == RankRules(RuleList(), n, metric, ascending)
    {
      if RuleList() == [] then Success([])
      else if metric == "antecedents" || metric == "consequents" then Failure("cannot rank rules by a column of sets")
      else Success(RankRules(RuleList(), n, metric, ascending))
    }

    /** The pairs of the one-to-one rules, largest lift first, at most n of
        them; empty when there are no rules. */
    function GetFrequentlyBoughtTogether(n: nat := 10): (r: seq<Pair>)
      reads this
      ensures RuleList() == [] ==> r == []
      ensures |r| == Min(n, |PairsOf(RuleList())|)
      ensures SortedDesc(r, PairLift)
      ensures forall p :: p in r ==> exists x :: x in RuleList() && IsPairRule(x) && PairOf(x) == p
    {
      TopPairs(RuleList(), n)
    }

    /** The itemsets of two or more products with their size, largest support
        first, at most n of them; empty when there are no itemsets. */
    function GetTopBundles(n: nat := 10): (r: seq<Bundle>)
      reads this
      ensures ItemsetList() == [] ==> r == []
      ensures |r| == Min(n, |BundlesOf(ItemsetList())|)
      ensures SortedDesc(r, BundleSupport)
      ensures forall b :: b in r ==> b.size == |b.products| >= 2 && Itemset(b.products, b.support) in ItemsetList()
    {
      TopBundles(ItemsetList(), n)
    }

    /** The rule count, the mean confidence and lift, the largest lift and the
        confidence extremes; zeros and no extremes when there are no rules. */
    function GetRulesSummary(): (r: RulesSummary)
      reads this
      ensures r.totalRules == |RuleList()|
      ensures RuleList() == [] ==> r == RulesSummary(0, 0.0, 0.0, 0.0, None, None)
      ensures RuleList() != [] ==>
                && r.minConfidence.Some? && r.maxConfidence.Some?
                && r.minConfidence.value <= r.avgConfidence <= r.maxConfidence.value
                && r.avgLift <= r.maxLift
    {
      var rules := RuleList();
      if rules == [] then RulesSummary(0, 0.0, 0.0, 0.0, None, None)
      else
        var cs, ls := Confidences(rules), Lifts(rules);
        MeanWithin(cs);
        MeanWithin(ls);
        RulesSummary(|rules|, Sum(cs) / |rules| as real, Sum(ls) / |rules| as real, SeqMax(ls), Some(SeqMin(cs)), Some(SeqMax(cs)))
    }

    /** For the query product, the consequents of the rules whose antecedents
        hold it, rule by rule in descending lift, each product once and never
        the query product itself, until n have been collected. The check for
        n follows an addition, so a request for 0 still yields one. */
    method GetProductRecommendations(product: string, n: nat := 5) returns (recs: seq<ProductRecommendation>)
      ensures RuleList() == [] ==> recs == []
      ensures |recs| <= Max(n, 1)
      ensures DistinctProducts(recs)
      ensures Drawn(recs, RuleList(), product)
      ensures forall k, l :: 0 <= k < l < |recs| ==> recs[l].lift <= recs[k].lift
      ensures |recs| < n ==>
                forall c :: IsCandidate(c, RuleList(), product) ==> exists k :: 0 <= k < |recs| && recs[k].product == c
      ensures n == 0 && recs == [] && (exists r :: r in RuleList() && product in r.antecedents) ==>
                exists r :: r in RuleList() && product in r.antecedents && r.consequents <= {product}
      ensures BestLift(recs, RuleList(), product) && HigherListed(recs, RuleList(), product)
    {
      var all := RuleList();
      recs := ProductRecommendations(all, product, n);
    }
  }

  /** get_product_recommendations over the rule table all. */
  method ProductRecommendations(all: seq<Rule>, product: string, n: nat) returns (recs: seq<ProductRecommendation>)
    ensures all == [] ==> recs == []
    ensures |recs| <= Max(n, 1)
    ensures DistinctProducts(recs)
    ensures Drawn(recs, all, product)
    ensures forall k, l :: 0 <= k < l < |recs| ==> recs[l].lift <= recs[k].lift
    ensures |recs| < n ==>
              forall c :: IsCandidate(c, all, product) ==> exists k :: 0 <= k < |recs| && recs[k].product == c
    ensures n == 0 && recs == [] && (exists r :: r in all && product in r.antecedents) ==>
              exists r :: r in all && product in r.antecedents && r.consequents <= {product}
    ensures BestLift(recs, all, product) && HigherListed(recs, all, product)
  {
    recs := [];
    var productRules := MatchingRules(all, product);
    if |productRules| == 0 {
      return;
    }
    var sorted := SortDesc(productRules, LiftOf);
    forall r | r in sorted ensures r in all && product in r.antecedents {
      assert r in multiset(productRules);
    }
    var seen;
    recs, seen := CollectRecommendations(sorted, all, product, n);
    MatchingRulesSorted(all, product, sorted);
    if |recs| < n {
      CoveredCandidates(all, product, sorted, seen);
    }
    if n == 0 && recs == [] {
      assert sorted[0] in multiset(productRules);
    }
  }

  /** The loop of get_product_recommendations over the rules sorted by
      decreasing lift: it stops before a rule once n entries are collected,
      but always takes the first rule. */
  method CollectRecommendations(sorted: seq<Rule>, all: seq<Rule>, product: string, n: nat)
    returns (recs: seq<ProductRecommendation>, seen: set<string>)
    requires |sorted| > 0 && SortedDesc(sorted, LiftOf)
    requires forall r :: r in sorted ==> r in all && product in r.antecedents
    ensures |recs| <= Max(n, 1)
    ensures DistinctProducts(recs) && Tracks(seen, recs)
    ensures Drawn(recs, all, product) && LiftsDescending(recs)
    ensures |recs| < n ==> Covered(sorted, product, seen)
    ensures n == 0 && recs == [] ==> sorted[0].consequents <= {product}
    ensures BestLift(recs, sorted, product) && HigherListed(recs, sorted, product)
  {
    recs, seen := [], {};
    var i := 0;
    while i < |sorted| && (i == 0 || |recs| < n)
      invariant 0 <= i <= |sorted|
      invariant i == 0 ==> recs == []
      invariant |recs| <= Max(n, 1)
      invariant DistinctProducts(recs) && Tracks(seen, recs)
      invariant Drawn(recs, all, product)
      invariant LiftsDescending(recs)
      invariant i < |sorted| ==> LiftsAtLeast(recs, sorted[i].lift)
      invariant |recs| < Max(n, 1) ==> Covered(sorted[..i], product, seen)
      invariant i >= 1 ==> LiftsAtLeast(recs, sorted[i - 1].lift) && Covered(sorted[..i - 1], product, seen)
      invariant BestLift(recs, sorted[..i], product)
    {
      var rule := sorted[i];
      var before, seenBefore := recs, seen;
      assert Covered(sorted[..i], product, seenBefore);
      recs, seen := AddConsequents(product, n, rule, recs, seen);
      DrawnExtend(before, recs, all, rule, product);
      LiftsExtend(before, recs, rule, product);
      BestLiftExtend(sorted, i, product, before, seenBefore, recs);
      CoveredMore(sorted[..i], product, seenBefore, seen);
      if |recs| < Max(n, 1) {
        CoveredExtend(sorted, i, product, seenBefore, seen);
      }
      i := i + 1;
      if i < |sorted| {
        assert sorted[i].lift <= rule.lift;
        LiftsLower(recs, rule.lift, sorted[i].lift);
      }
    }
    WalkStopped(sorted, i, product, recs, seen);
    if |recs| < n {
      assert sorted[..i] == sorted;
    }
    if n == 0 && recs == [] {
      assert seen == {} by {
        assert forall c :: c !in seen;
      }
      FirstRuleSelfOnly(sorted, i, product);
    }
  }

  /** Adds, in some order, the consequents of rule that are neither the query
      product nor already recommended, with rule's metrics, and stops right
      after an addition that brings the list to n entries. */
  method AddConsequents(product: string, n: nat, rule: Rule, recs: seq<ProductRecommendation>, seen: set<string>)
    returns (recs': seq<ProductRecommendation>, seen': set<string>)
    requires |recs| < Max(n, 1)
    requires DistinctProducts(recs) && Tracks(seen, recs)
    requires forall k :: 0 <= k < |recs| ==> recs[k].product != product
    ensures |recs| <= |recs'| <= Max(n, 1) && recs'[..|recs|] == recs
    ensures DistinctProducts(recs') && Tracks(seen', recs') && seen <= seen'
    ensures forall k :: |recs| <= k < |recs'| ==>
              recs'[k] == ProductRecommendation(recs'[k].product, rule.confidence, rule.lift, rule.support) &&
              recs'[k].product in rule.consequents && recs'[k].product != product
    ensures |recs'| < Max(n, 1) ==> forall c :: c in rule.consequents && c != product ==> c in seen'
  {
    recs', seen' := recs, seen;
    var rest := rule.consequents;
    while rest != {}
      invariant rest <= rule.consequents
      invariant |recs| <= |recs'| < Max(n, 1) && recs'[..|recs|] == recs
      invariant DistinctProducts(recs') && Tracks(seen', recs') && seen <= seen'
      invariant forall k :: 0 <= k < |recs| ==> recs'[k].product != product
      invariant forall k :: |recs| <= k < |recs'| ==>
                  recs'[k] == ProductRecommendation(recs'[k].product, rule.confidence, rule.lift, rule.support) &&
                  recs'[k].product in rule.consequents && recs'[k].product != product
      invariant forall c :: c in rule.consequents - rest && c != product ==> c in seen'
      decreases rest
    {
      var c :| c in rest;
      rest := rest - {c};
      if c != product && c !in seen' {
        var rec := ProductRecommendation(c, rule.confidence, rule.lift, rule.support);
        TracksAppend(seen', recs', rec);
        recs' := recs' + [rec];
        seen' := seen' + {c};
        if |recs'| >= n {
          return;
        }
      }
    }
  }

  /** Every entry of recs is drawn from a rule of rules and is not the query product. */
  ghost predicate Drawn(recs: seq<ProductRecommendation>, rules: seq<Rule>, product: string)
  {
    forall k :: 0 <= k < |recs| ==>
      recs[k].product != product && exists r :: r in rules && FromRule(recs[k], r, product)
  }

  ghost predicate LiftsDescending(recs: seq<ProductRecommendation>)
  {
    forall k, l :: 0 <= k < l < |recs| ==> recs[l].lift <= recs[k].lift
  }

  ghost predicate LiftsAtLeast(recs: seq<ProductRecommendation>, x: real)
  {
    forall k :: 0 <= k < |recs| ==> x <= recs[k].lift
  }

  /** Every consequent other than product of the given rules is in seen. */
  ghost predicate Covered(rules: seq<Rule>, product: string, seen: set<string>)
  {
    forall j, c :: 0 <= j < |rules| && c in rules[j].consequents && c != product ==> c in seen
  }

  /** recs is before followed by consequents of rule carrying its metrics. */
  ghost predicate Extends(recs: seq<ProductRecommendation>, before: seq<ProductRecommendation>, rule: Rule, product: string)
  {
    && |before| <= |recs| && recs[..|before|] == before
    && forall k :: |before| <= k < |recs| ==>
         recs[k] == ProductRecommendation(recs[k].product, rule.confidence, rule.lift, rule.support) &&
         recs[k].product in rule.consequents && recs[k].product != product
  }

  lemma DrawnExtend(before: seq<ProductRecommendation>, recs: seq<ProductRecommendation>, rules: seq<Rule>, rule: Rule, product: string)
    requires Drawn(before, rules, product) && Extends(recs, before, rule, product)
    requires rule in rules && product in rule.antecedents
    ensures Drawn(recs, rules, product)
  {
    forall k | 0 <= k < |recs|
      ensures recs[k].product != product && exists r :: r in rules && FromRule(recs[k], r, product)
    {
      if k >= |before| {
        assert FromRule(recs[k], rule, product);
      } else {
        assert recs[k] == before[k];
      }
    }
  }

  lemma LiftsExtend(before: seq<ProductRecommendation>, recs: seq<ProductRecommendation>, rule: Rule, product: string)
    requires LiftsDescending(before) && LiftsAtLeast(before, rule.lift) && Extends(recs, before, rule, product)
    ensures LiftsDescending(recs) && LiftsAtLeast(recs, rule.lift)
  {
    forall k | 0 <= k < |recs| ensures rule.lift <= recs[k].lift {
      if k < |before| {
        assert recs[k] == before[k];
      }
    }
    forall k, l | 0 <= k < l < |recs| ensures recs[l].lift <= recs[k].lift {
      if l < |before| {
        assert recs[k] == before[k] && recs[l] == before[l];
      }
    }
  }

  lemma CoveredMore(rules: seq<Rule>, product: string, seen: set<string>, more: set<string>)
    requires Covered(rules, product, seen) && seen <= more
    ensures Covered(rules, product, more)
  {
  }

  /** Walking rule sorted[i] keeps every entry at the highest lift among the
      walked rules naming it: the new entries were not seen in an earlier
      rule, and the old ones are at least as high as sorted[i]. */
  lemma BestLiftExtend(sorted: seq<Rule>, i: nat, product: string, before: seq<ProductRecommendation>,
                       seenBefore: set<string>, recs: seq<ProductRecommendation>)
    requires i < |sorted| && product in sorted[i].antecedents
    requires BestLift(before, sorted[..i], product) && LiftsAtLeast(before, sorted[i].lift)
    requires Covered(sorted[..i], product, seenBefore) && Tracks(seenBefore, before)
    requires Extends(recs, before, sorted[i], product) && DistinctProducts(recs)
    ensures BestLift(recs, sorted[..i + 1], product)
  {
    var walked := sorted[..i + 1];
    forall k, r | 0 <= k < |recs| && r in walked && product in r.antecedents && recs[k].product in r.consequents
      ensures r.lift <= recs[k].lift
    {
      var j :| 0 <= j <= i && walked[j] == r;
      if k < |before| {
        assert recs[k] == before[k];
        if j < i {
          assert r in sorted[..i];
        }
      } else {
        var c := recs[k].product;
        assert c !in seenBefore by {
          forall l | 0 <= l < |before| ensures before[l].product != c {
            assert recs[l] == before[l];
          }
        }
        forall q | 0 <= q < i ensures c !in sorted[q].consequents {
          assert sorted[..i][q] == sorted[q];
        }
        assert j == i;
      }
    }
  }

  /** When the walk stops after i rules, the rules not walked have lift at
      most that of every entry, and the rules before the last one walked
      were walked to the end. */
  lemma WalkStopped(sorted: seq<Rule>, i: nat, product: string, recs: seq<ProductRecommendation>, seen: set<string>)
    requires 1 <= i <= |sorted| && SortedDesc(sorted, LiftOf)
    requires LiftsAtLeast(recs, sorted[i - 1].lift) && Covered(sorted[..i - 1], product, seen) && Tracks(seen, recs)
    requires BestLift(recs, sorted[..i], product)
    ensures BestLift(recs, sorted, product) && HigherListed(recs, sorted, product)
  {
    assert forall j :: i - 1 <= j < |sorted| ==> LiftOf(sorted[j]) <= LiftOf(sorted[i - 1]);
    forall k, r | 0 <= k < |recs| && r in sorted && product in r.antecedents && recs[k].product in r.consequents
      ensures r.lift <= recs[k].lift
    {
      var j :| 0 <= j < |sorted| && sorted[j] == r;
      if j < i {
        assert r in sorted[..i];
      }
    }
    forall k, r, c | 0 <= k < |recs| && r in sorted && product in r.antecedents && recs[k].lift < r.lift &&
                     c in r.consequents && c != product
      ensures exists l :: 0 <= l < |recs| && recs[l].product == c
    {
      var j :| 0 <= j < |sorted| && sorted[j] == r;
      assert j < i - 1;
      assert sorted[..i - 1][j] == r;
      assert c in seen;
    }
  }

  lemma LiftsLower(recs: seq<ProductRecommendation>, x: real, y: real)
    requires LiftsAtLeast(recs, x) && y <= x
    ensures LiftsAtLeast(recs, y)
  {
  }

  lemma CoveredExtend(sorted: seq<Rule>, i: nat, product: string, seenBefore: set<string>, seen: set<string>)
    requires i < |sorted| && Covered(sorted[..i], product, seenBefore) && seenBefore <= seen
    requires forall c :: c in sorted[i].consequents && c != product ==> c in seen
    ensures Covered(sorted[..i + 1], product, seen)
  {
    var pre := sorted[..i + 1];
    forall j | 0 <= j < |pre|
      ensures forall c :: c in pre[j].consequents && c != product ==> c in seen
    {
      if j < i {
        assert pre[j] == sorted[..i][j];
      }
    }
  }

  /** Nothing seen after the first rule: that rule names no product but the query. */
  lemma FirstRuleSelfOnly(sorted: seq<Rule>, i: nat, product: string)
    requires 1 <= i <= |sorted| && Covered(sorted[..i], product, {})
    ensures sorted[0].consequents <= {product}
  {
    assert sorted[..i][0] == sorted[0];
  }

  /** What holds of the sorted matching rules holds of the matching rules of
      the whole table. */
  lemma MatchingRulesSorted(all: seq<Rule>, product: string, sorted: seq<Rule>)
    requires multiset(sorted) == multiset(MatchingRules(all, product))
    ensures forall r :: r in all && product in r.antecedents ==> r in sorted
  {
    forall r | r in all && product in r.antecedents ensures r in sorted {
      assert r in multiset(MatchingRules(all, product));
    }
  }

  /** When every matching rule is covered, every candidate has been seen. */
  lemma CoveredCandidates(all: seq<Rule>, product: string, sorted: seq<Rule>, seen: set<string>)
    requires multiset(sorted) == multiset(MatchingRules(all, product))
    requires Covered(sorted, product, seen)
    ensures forall c :: IsCandidate(c, all, product) ==> c in seen
  {
    forall c | IsCandidate(c, all, product) ensures c in seen {
      var r :| r in all && product in r.antecedents && c in r.consequents;
      assert r in multiset(sorted);
      var j :| 0 <= j < |sorted| && sorted[j] == r;
    }
  }

  lemma TracksAppend(seen: set<string>, recs: seq<ProductRecommendation>, rec: ProductRecommendation)
    requires Tracks(seen, recs)
    ensures Tracks(seen + {rec.product}, recs + [rec])
  {
    var recs' := recs + [rec];
    forall c ensures c in seen + {rec.product} <==> exists k :: 0 <= k < |recs'| && recs'[k].product == c {
      if c in seen {
        var k :| 0 <= k < |recs| && recs[k].product == c;
        assert recs'[k] == recs[k];
      }
      if c == rec.product {
        assert recs'[|recs|] == rec;
      }
      if exists k :: 0 <= k < |recs'| && recs'[k].product == c {
        var k :| 0 <= k < |recs'| && recs'[k].product == c;
        if k < |recs| {
          assert recs[k] == recs'[k];
        }
      }
    }
  }

  /** The recommendations with the count check placed before an addition, so
      that at most n are returned; otherwise as GetProductRecommendations.
      For n = 0 nothing is added; for n >= 1 the as-written walk already stops
      as soon as it holds n entries, so calling it gives the same list as
      checking the count before each addition. */
  method GetProductRecommendationsAtMostN(e: MBAEngine, product: string, n: nat) returns (recs: seq<ProductRecommendation>)
    ensures |recs| <= n
    ensures DistinctProducts(recs)
    ensures Drawn(recs, e.RuleList(), product)
    ensures forall k, l :: 0 <= k < l < |recs| ==> recs[l].lift <= recs[k].lift
    ensures |recs| < n ==>
              forall c :: IsCandidate(c, e.RuleList(), product) ==> exists k :: 0 <= k < |recs| && recs[k].product == c
    ensures BestLift(recs, e.RuleList(), product) && HigherListed(recs, e.RuleList(), product)
  {
    if n == 0 {
      return [];
    }
    recs := e.GetProductRecommendations(product, n);
  }

  /** A request for no recommendations from an engine holding the single rule
      {A} -> {B} returns one. */
  method ZeroRequestedOneReturned() returns (recs: seq<ProductRecommendation>)
    ensures |recs| == 1 && recs[0].product == "B"
  {
    var e := new MBAEngine(0.1, 0.5);
    e.Fit(Frame([1], ["A", "B"], [[1, 1]]), [Itemset({"A", "B"}, 1.0)], [Rule({"A"}, {"B"}, 1.0, 1.0, 1.0)]);
    recs := e.GetProductRecommendations("A", 0);
    assert e.RuleList() == [Rule({"A"}, {"B"}, 1.0, 1.0, 1.0)];
    assert "B" != "A";
    assert recs[0].product in {"B"};
  }

  /** Every pair comes from a one-to-one rule of the table, with its metrics,
      and every one-to-one rule yields its pair. */
  lemma {:induction false} PairsOfMeaning(rules: seq<Rule>)
    ensures forall p :: p in PairsOf(rules) ==>
              exists r :: r in rules && IsPairRule(r) && PairOf(r) == p
    ensures forall r :: r in rules && IsPairRule(r) ==> PairOf(r) in PairsOf(rules)
  {
    if |rules| > 0 {
      var init := rules[..|rules| - 1];
      PairsOfMeaning(init);
      assert rules == init + [rules[|rules| - 1]];
    }
  }

  /** Every bundle comes from an itemset of two or more products and has its
      size and support, and every such itemset yields its bundle. */
  lemma {:induction false} BundlesOfMeaning(itemsets: seq<Itemset>)
    ensures forall b :: b in BundlesOf(itemsets) ==>
              b.size == |b.products| >= 2 && Itemset(b.products, b.support) in itemsets
    ensures forall s :: s in itemsets && IsBundle(s) ==> BundleOf(s) in BundlesOf(itemsets)
  {
    if |itemsets| > 0 {
      var init := itemsets[..|itemsets| - 1];
      BundlesOfMeaning(init);
      assert itemsets == init + [itemsets[|itemsets| - 1]];
    }
  }

  /** A name that is neither a column of sets nor "support" nor "confidence"
      ranks exactly as "lift" does. */
  lemma UnknownMetricIsLift(e: MBAEngine, n: nat, metric: string, ascending: bool)
    requires metric !in {"antecedents", "consequents", "support", "confidence"}
    ensures e.GetTopRules(n, metric, ascending) == e.GetTopRules(n, "lift", ascending)
  {
  }

  lemma {:induction false} SumAtLeast(s: seq<real>, lo: real)
    requires forall i :: 0 <= i < |s| ==> lo <= s[i]
    ensures |s| as real * lo <= Sum(s)
  {
    if |s| > 0 {
      SumAtLeast(s[1..], lo);
    }
  }

  lemma {:induction false} SumAtMost(s: seq<real>, hi: real)
    requires forall i :: 0 <= i < |s| ==> s[i] <= hi
    ensures Sum(s) <= |s| as real * hi
  {
    if |s| > 0 {
      SumAtMost(s[1..], hi);
    }
  }

  /** The mean of a non-empty sequence lies between its extremes. */
  lemma MeanWithin(s: seq<real>)
    requires |s| > 0
    ensures SeqMin(s) <= Sum(s) / |s| as real <= SeqMax(s)
  {
    assert forall i :: 0 <= i < |s| ==> s[i] in s;
    MeanBetween(s, SeqMin(s), SeqMax(s));
  }

  /** The mean of a non-empty sequence lies between any bounds of its elements. */
  lemma MeanBetween(s: seq<real>, lo: real, hi: real)
    requires |s| > 0
    requires forall i :: 0 <= i < |s| ==> lo <= s[i] <= hi
    ensures lo <= Sum(s) / |s| as real <= hi
  {
    SumAtLeast(s, lo);
    SumAtMost(s, hi);
    QuotientBounds(Sum(s), |s|, lo, hi);
  }

  lemma QuotientBounds(total: real, k: nat, lo: real, hi: real)
    requires k > 0 && k as real * lo <= total <= k as real * hi
    ensures lo <= total / k as real <= hi
  {
    var n := k as real;
    var q := total / n;
    assert q * n == total;
  }

  /** The extremes of the confidence and lift columns are values of rules and
      bound every rule. */
  lemma RuleExtremes(rules: seq<Rule>)
    requires |rules| > 0
    ensures forall x :: x in rules ==>
              SeqMin(Confidences(rules)) <= x.confidence <= SeqMax(Confidences(rules)) && x.lift <= SeqMax(Lifts(rules))
    ensures exists x :: x in rules && x.lift == SeqMax(Lifts(rules))
    ensures exists x :: x in rules && x.confidence == SeqMin(Confidences(rules))
    ensures exists x :: x in rules && x.confidence == SeqMax(Confidences(rules))
  {
    var cs, ls := Confidences(rules), Lifts(rules);
    forall x | x in rules
      ensures SeqMin(cs) <= x.confidence <= SeqMax(cs) && x.lift <= SeqMax(ls)
    {
      var i :| 0 <= i < |rules| && rules[i] == x;
      assert cs[i] in cs && ls[i] in ls;
    }
    var a :| 0 <= a < |ls| && ls[a] == SeqMax(ls);
    assert rules[a] in rules;
    var b :| 0 <= b < |cs| && cs[b] == SeqMin(cs);
    assert rules[b] in rules;
    var c :| 0 <= c < |cs| && cs[c] == SeqMax(cs);
    assert rules[c] in rules;
  }

  /** The summary of a non-empty rule table: its confidence extremes and
      largest lift are values of rules and bound every rule, and the averages
      are the column means. */
  lemma RulesSummaryMeaning(e: MBAEngine)
    requires e.RuleList() != []
    ensures var r, rules := e.GetRulesSummary(), e.RuleList();
            && r.minConfidence.Some? && r.maxConfidence.Some?
            && (forall x :: x in rules ==>
                  r.minConfidence.value <= x.confidence <= r.maxConfidence.value && x.lift <= r.maxLift)
            && (exists x :: x in rules && x.confidence == r.minConfidence.value)
            && (exists x :: x in rules && x.confidence == r.maxConfidence.value)
            && (exists x :: x in rules && x.lift == r.maxLift)
            && r.avgConfidence == Sum(Confidences(rules)) / |rules| as real
            && r.avgLift == Sum(Lifts(rules)) / |rules| as real
  {
    RuleExtremes(e.RuleList());
  }
}

