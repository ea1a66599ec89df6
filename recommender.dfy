/** The hybrid recommender: user-based collaborative scores, optionally
    blended with a matrix-factorisation score, an item-similarity tier that
    tops the list up, a popularity list for unknown customers, and
    nearest-neighbour queries. The similarity matrices and factor scores are
    given matrices (they come from the numeric library). */
module Recommender {
  import opened Wrappers
  import opened Ranking
  import opened Keys
  import opened Preprocessing

  /** Which strategy produced an entry; each stands for the reasoning text
      the engine attaches. */
  datatype Reasoning = Collaborative | ContentBased | Popularity

  datatype Recommendation = Recommendation(product: string, score: real, reasoning: Reasoning)

  datatype SimilarUser = SimilarUser(customerId: int, similarity: real)

  datatype SimilarProduct = SimilarProduct(product: string, similarity: real)

  /** A column position and its score, the unit that the rankings order. */
  datatype Scored = Scored(index: nat, score: real)

  function ScoreOf(s: Scored): real
  {
    s.score
  }

  /** Each entry is a position of scores carrying that position's score. */
  ghost predicate Entries(top: seq<Scored>, scores: seq<real>)
  {
    forall i :: 0 <= i < |top| ==> top[i].index < |scores| && top[i].score == scores[top[i].index]
  }

  /** No entry is a position that row marks as purchased. */
  ghost predicate Unpurchased(top: seq<Scored>, row: seq<real>)
  {
    forall i :: 0 <= i < |top| ==> top[i].index < |row| && row[top[i].index] <= 0.0
  }

  ghost predicate IndicesBelow(top: seq<Scored>, n: nat)
  {
    forall i :: 0 <= i < |top| ==> top[i].index < n
  }

  lemma SubEntries(a: seq<Scored>, b: seq<Scored>, scores: seq<real>)
    requires multiset(a) <= multiset(b) && Entries(b, scores)
    ensures Entries(a, scores)
  {
    forall i | 0 <= i < |a| ensures a[i].index < |scores| && a[i].score == scores[a[i].index] {
      assert a[i] in multiset(a);
      var j :| 0 <= j < |b| && b[j] == a[i];
    }
  }

  lemma SubUnpurchased(a: seq<Scored>, b: seq<Scored>, row: seq<real>)
    requires multiset(a) <= multiset(b) && Unpurchased(b, row)
    ensures Unpurchased(a, row)
  {
    forall i | 0 <= i < |a| ensures a[i].index < |row| && row[a[i].index] <= 0.0 {
      assert a[i] in multiset(a);
      var j :| 0 <= j < |b| && b[j] == a[i];
    }
  }

  /** Every position of scores with its score, in order. */
  function Indexed(scores: seq<real>): (r: seq<Scored>)
    ensures |r| == |scores|
    ensures forall j :: 0 <= j < |r| ==> r[j] == Scored(j, scores[j])
  {
    seq(|scores|, j requires 0 <= j < |scores| => Scored(j, scores[j]))
  }

  /** The positions whose quantity in row is not positive, with their scores:
      the entries that survive masking the purchased columns with minus
      infinity. */
  function Unmasked(scores: seq<real>, row: seq<real>): (r: seq<Scored>)
    requires |scores| == |row|
    ensures Entries(r, scores) && Unpurchased(r, row)
    ensures forall j :: 0 <= j < |row| && row[j] <= 0.0 ==> Scored(j, scores[j]) in r
    decreases |scores|, 1
  {
    if |scores| == 0 then []
    else
      UnmaskedPrefix(scores, row);
      Unmasked(scores[..|scores| - 1], row[..|scores| - 1])
        + (if row[|scores| - 1] <= 0.0 then [Scored(|scores| - 1, scores[|scores| - 1])] else [])
  }

  lemma UnmaskedPrefix(scores: seq<real>, row: seq<real>)
    requires |scores| == |row| > 0
    ensures var k := |scores| - 1;
            var r := Unmasked(scores[..k], row[..k]) + (if row[k] <= 0.0 then [Scored(k, scores[k])] else []);
            && Entries(r, scores) && Unpurchased(r, row)
            && forall j :: 0 <= j < |row| && row[j] <= 0.0 ==> Scored(j, scores[j]) in r
    decreases |scores|, 0
  {
    var k := |scores| - 1;
    var init := Unmasked(scores[..k], row[..k]);
    var r := init + (if row[k] <= 0.0 then [Scored(k, scores[k])] else []);
    forall i | 0 <= i < |r|
      ensures r[i].index < |scores| && r[i].score == scores[r[i].index] && row[r[i].index] <= 0.0
    {
      if i < |init| {
        assert r[i] == init[i];
      }
    }
    forall j | 0 <= j < |row| && row[j] <= 0.0 ensures Scored(j, scores[j]) in r {
      if j < k {
        assert Scored(j, scores[..k][j]) in init;
      } else {
        assert r[|init|] == Scored(k, scores[k]);
      }
    }
  }

  /** The entries made from the positively scored positions of top, in order. */
  function Positives(top: seq<Scored>, ids: seq<string>, tag: Reasoning): (r: seq<Recommendation>)
    requires IndicesBelow(top, |ids|)
    ensures |r| <= |top|
    ensures forall k :: 0 <= k < |r| ==>
              r[k].score > 0.0 && r[k].reasoning == tag &&
              exists i :: 0 <= i < |top| && r[k].product == ids[top[i].index] && r[k].score == top[i].score
    decreases |top|, 1
  {
    if |top| == 0 then []
    else
      PositivesPrefix(top, ids, tag);
      Positives(top[..|top| - 1], ids, tag)
        + (if top[|top| - 1].score > 0.0 then [Recommendation(ids[top[|top| - 1].index], top[|top| - 1].score, tag)] else [])
  }

  lemma PositivesPrefix(top: seq<Scored>, ids: seq<string>, tag: Reasoning)
    requires IndicesBelow(top, |ids|) && |top| > 0
    ensures IndicesBelow(top[..|top| - 1], |ids|)
    ensures var k := |top| - 1;
            var r := Positives(top[..k], ids, tag) + (if top[k].score > 0.0 then [Recommendation(ids[top[k].index], top[k].score, tag)] else []);
            forall i :: 0 <= i < |r| ==>
              r[i].score > 0.0 && r[i].reasoning == tag &&
              exists l :: 0 <= l < |top| && r[i].product == ids[top[l].index] && r[i].score == top[l].score
    decreases |top|, 0
  {
    var k := |top| - 1;
    assert IndicesBelow(top[..k], |ids|);
    var init := Positives(top[..k], ids, tag);
    var r := init + (if top[k].score > 0.0 then [Recommendation(ids[top[k].index], top[k].score, tag)] else []);
    forall i | 0 <= i < |r|
      ensures r[i].score > 0.0 && r[i].reasoning == tag &&
              exists l :: 0 <= l < |top| && r[i].product == ids[top[l].index] && r[i].score == top[l].score
    {
      if i < |init| {
        assert r[i] == init[i];
        var l :| 0 <= l < k && init[i].product == ids[top[..k][l].index] && init[i].score == top[..k][l].score;
        assert top[..k][l] == top[l];
      } else {
        assert r[i].product == ids[top[k].index] && r[i].score == top[k].score;
      }
    }
  }

  lemma {:induction false} PositivesDescending(top: seq<Scored>, ids: seq<string>, tag: Reasoning)
    requires IndicesBelow(top, |ids|)
    requires SortedDesc(top, ScoreOf)
    ensures forall k, l :: 0 <= k < l < |Positives(top, ids, tag)| ==>
              Positives(top, ids, tag)[l].score <= Positives(top, ids, tag)[k].score
  {
    if |top| > 0 {
      var k := |top| - 1;
      assert IndicesBelow(top[..k], |ids|);
      PositivesDescending(top[..k], ids, tag);
      var init := Positives(top[..k], ids, tag);
      var r := Positives(top, ids, tag);
      if top[k].score > 0.0 {
        assert r == init + [Recommendation(ids[top[k].index], top[k].score, tag)];
        forall a, b | 0 <= a < b < |r| ensures r[b].score <= r[a].score {
          assert r[a] == init[a];
          if b < |init| {
            assert r[b] == init[b];
          } else {
            var l :| 0 <= l < k && init[a].score == top[..k][l].score;
            assert ScoreOf(top[k]) <= ScoreOf(top[l]);
          }
        }
      } else {
        assert r == init;
      }
    }
  }

  /** Every positively scored position of top gives an entry. */
  lemma {:induction false} PositivesComplete(top: seq<Scored>, ids: seq<string>, tag: Reasoning)
    requires IndicesBelow(top, |ids|)
    ensures forall i :: 0 <= i < |top| && top[i].score > 0.0 ==>
              Recommendation(ids[top[i].index], top[i].score, tag) in Positives(top, ids, tag)
  {
    if |top| > 0 {
      var k := |top| - 1;
      assert IndicesBelow(top[..k], |ids|);
      PositivesComplete(top[..k], ids, tag);
      var init := Positives(top[..k], ids, tag);
      var tail := if top[k].score > 0.0 then [Recommendation(ids[top[k].index], top[k].score, tag)] else [];
      var r := Positives(top, ids, tag);
      assert r == init + tail;
      forall i | 0 <= i < |top| && top[i].score > 0.0
        ensures Recommendation(ids[top[i].index], top[i].score, tag) in r
      {
        if i < k {
          assert top[..k][i] == top[i];
          assert Recommendation(ids[top[i].index], top[i].score, tag) in init;
        } else {
          assert Recommendation(ids[top[i].index], top[i].score, tag) in tail;
        }
      }
    }
  }

  /** When every position of top is positive, every one gives an entry. */
  lemma {:induction false} PositivesCount(top: seq<Scored>, ids: seq<string>, tag: Reasoning)
    requires IndicesBelow(top, |ids|)
    requires forall i :: 0 <= i < |top| ==> top[i].score > 0.0
    ensures |Positives(top, ids, tag)| == |top|
  {
    if |top| > 0 {
      var k := |top| - 1;
      assert IndicesBelow(top[..k], |ids|);
      PositivesCount(top[..k], ids, tag);
    }
  }

  /** One tier of a personal list: the n best unmasked positions by score,
      those with a positive score, as tagged entries. */
  function Tier(scores: seq<real>, row: seq<real>, ids: seq<string>, n: nat, tag: Reasoning): (r: seq<Recommendation>)
    requires |scores| == |row| == |ids|
    ensures |r| <= n
  {
    TierTop(scores, row, n);
    Positives(TopN(Unmasked(scores, row), ScoreOf, n), ids, tag)
  }

  lemma TierTop(scores: seq<real>, row: seq<real>, n: nat)
    requires |scores| == |row|
    ensures Entries(TopN(Unmasked(scores, row), ScoreOf, n), scores)
    ensures Unpurchased(TopN(Unmasked(scores, row), ScoreOf, n), row)
  {
    var cands := Unmasked(scores, row);
    var top := TopN(cands, ScoreOf, n);
    SubEntries(top, cands, scores);
    SubUnpurchased(top, cands, row);
  }

  /** No entry of a tier names a purchased column, every entry carries the
      score of its column, scores are positive and never increase. */
  lemma TierMeaning(scores: seq<real>, row: seq<real>, ids: seq<string>, n: nat, tag: Reasoning)
    requires |scores| == |row| == |ids|
    ensures forall k :: 0 <= k < |Tier(scores, row, ids, n, tag)| ==>
              var e := Tier(scores, row, ids, n, tag)[k];
              e.score > 0.0 && e.reasoning == tag &&
              exists j :: 0 <= j < |ids| && ids[j] == e.product && row[j] <= 0.0 && scores[j] == e.score
    ensures forall k, l :: 0 <= k < l < |Tier(scores, row, ids, n, tag)| ==>
              Tier(scores, row, ids, n, tag)[l].score <= Tier(scores, row, ids, n, tag)[k].score
  {
    var top := TopN(Unmasked(scores, row), ScoreOf, n);
    TierTop(scores, row, n);
    var r := Tier(scores, row, ids, n, tag);
    PositivesDescending(top, ids, tag);
    forall k | 0 <= k < |r|
      ensures exists j :: 0 <= j < |ids| && ids[j] == r[k].product && row[j] <= 0.0 && scores[j] == r[k].score
    {
      var i :| 0 <= i < |top| && r[k].product == ids[top[i].index] && r[k].score == top[i].score;
      var j := top[i].index;
    }
  }

  /** Fewer than n entries in a tier means that every unmasked position with a
      positive score made it into the tier. */
  lemma TierComplete(scores: seq<real>, row: seq<real>, ids: seq<string>, n: nat, tag: Reasoning, j: nat)
    requires |scores| == |row| == |ids|
    requires |Tier(scores, row, ids, n, tag)| < n
    requires j < |row| && row[j] <= 0.0 && scores[j] > 0.0
    ensures Recommendation(ids[j], scores[j], tag) in Tier(scores, row, ids, n, tag)
  {
    var cands := Unmasked(scores, row);
    var top := TopN(cands, ScoreOf, n);
    TierTop(scores, row, n);
    var x := Scored(j, scores[j]);
    assert x in cands;
    PositivesComplete(top, ids, tag);
    if |top| == |cands| {
      SubmultisetOfSameSize(top, cands);
      assert x in multiset(top);
    } else if x !in top {
      forall i | 0 <= i < |top| ensures top[i].score > 0.0 {
        assert x in multiset(cands) - multiset(top);
        assert top[i] in top;
        assert ScoreOf(x) <= ScoreOf(top[i]);
      }
      PositivesCount(top, ids, tag);
    }
    if x in top {
      var i :| 0 <= i < |top| && top[i] == x;
    }
  }

  /** No two entries name the same product. */
  predicate DistinctNames(s: seq<Recommendation>)
  {
    forall a, b :: 0 <= a < b < |s| ==> s[a].product != s[b].product
  }

  /** The unmasked positions come in increasing order. */
  lemma {:induction false} UnmaskedIncreasing(scores: seq<real>, row: seq<real>)
    requires |scores| == |row|
    ensures forall a, b :: 0 <= a < b < |Unmasked(scores, row)| ==> Unmasked(scores, row)[a].index < Unmasked(scores, row)[b].index
  {
    if |scores| > 0 {
      var k := |scores| - 1;
      UnmaskedIncreasing(scores[..k], row[..k]);
      var init := Unmasked(scores[..k], row[..k]);
      var r := Unmasked(scores, row);
      assert r == init + (if row[k] <= 0.0 then [Scored(k, scores[k])] else []);
      forall a, b | 0 <= a < b < |r| ensures r[a].index < r[b].index {
        assert r[a] == init[a];
        if b < |init| {
          assert r[b] == init[b];
        } else {
          assert r[b].index == k;
        }
      }
    }
  }

  /** Entries made from distinct positions of distinct ids name distinct
      products. */
  lemma {:induction false} PositivesDistinct(top: seq<Scored>, ids: seq<string>, tag: Reasoning)
    requires IndicesBelow(top, |ids|) && DistinctIndices(top) && Distinct(ids)
    ensures DistinctNames(Positives(top, ids, tag))
  {
    if |top| > 0 {
      var k := |top| - 1;
      var pre := top[..k];
      assert IndicesBelow(pre, |ids|);
      assert DistinctIndices(pre) by {
        forall a, b | 0 <= a < b < |pre| ensures pre[a].index != pre[b].index {
          assert pre[a] == top[a] && pre[b] == top[b];
        }
      }
      PositivesDistinct(pre, ids, tag);
      var init := Positives(pre, ids, tag);
      var r := Positives(top, ids, tag);
      if top[k].score > 0.0 {
        assert r == init + [Recommendation(ids[top[k].index], top[k].score, tag)];
        forall a, b | 0 <= a < b < |r| ensures r[a].product != r[b].product {
          assert r[a] == init[a];
          if b < |init| {
            assert r[b] == init[b];
          } else {
            var i :| 0 <= i < |pre| && init[a].product == ids[pre[i].index] && init[a].score == pre[i].score;
            assert pre[i] == top[i];
          }
        }
      } else {
        assert r == init;
      }
    }
  }

  /** A tier names every product once when the column names are distinct. */
  lemma TierDistinct(scores: seq<real>, row: seq<real>, ids: seq<string>, n: nat, tag: Reasoning)
    requires |scores| == |row| == |ids| && Distinct(ids)
    ensures DistinctNames(Tier(scores, row, ids, n, tag))
  {
    var cands := Unmasked(scores, row);
    var top := TopN(cands, ScoreOf, n);
    TierTop(scores, row, n);
    UnmaskedIncreasing(scores, row);
    SubDistinct(cands, top);
    PositivesDistinct(top, ids, tag);
  }

  /** A tier holds the best unmasked columns: an unpurchased column scoring
      more than some entry is itself an entry, with its score. */
  lemma TierIsTop(scores: seq<real>, row: seq<real>, ids: seq<string>, n: nat, tag: Reasoning)
    requires |scores| == |row| == |ids|
    ensures forall j, k :: 0 <= j < |row| && row[j] <= 0.0 && 0 <= k < |Tier(scores, row, ids, n, tag)| &&
                           Tier(scores, row, ids, n, tag)[k].score < scores[j] ==>
              Recommendation(ids[j], scores[j], tag) in Tier(scores, row, ids, n, tag)
  {
    forall j, k | 0 <= j < |row| && row[j] <= 0.0 && 0 <= k < |Tier(scores, row, ids, n, tag)| &&
                  Tier(scores, row, ids, n, tag)[k].score < scores[j]
      ensures Recommendation(ids[j], scores[j], tag) in Tier(scores, row, ids, n, tag)
    {
      TierOutranked(scores, row, ids, n, tag, j, k);
    }
  }

  lemma TierOutranked(scores: seq<real>, row: seq<real>, ids: seq<string>, n: nat, tag: Reasoning, j: nat, k: nat)
    requires |scores| == |row| == |ids| && j < |row| && row[j] <= 0.0
    requires k < |Tier(scores, row, ids, n, tag)| && Tier(scores, row, ids, n, tag)[k].score < scores[j]
    ensures Recommendation(ids[j], scores[j], tag) in Tier(scores, row, ids, n, tag)
  {
    var cands := Unmasked(scores, row);
    var top := TopN(cands, ScoreOf, n);
    TierTop(scores, row, n);
    var r := Tier(scores, row, ids, n, tag);
    assert r == Positives(top, ids, tag);
    var i :| 0 <= i < |top| && r[k].product == ids[top[i].index] && r[k].score == top[i].score;
    var x := Scored(j, scores[j]);
    assert x in top by {
      assert x in multiset(cands);
      assert top[i] in top;
      assert ScoreOf(top[i]) < ScoreOf(x);
    }
    PositivesComplete(top, ids, tag);
    var l := Find(top, x);
    assert top[l].score > 0.0;
  }

  /** Σ over rows v of weights[v] · cells[v][j]: one entry of the product of
      a row of similarities with the user-item matrix. */
  function WeightedColumn(cells: seq<seq<real>>, weights: seq<real>, j: nat): real
    requires |weights| == |cells| && forall v :: 0 <= v < |cells| ==> j < |cells[v]|
  {
    if |cells| == 0 then 0.0
    else
      var k := |cells| - 1;
      WeightedColumn(cells[..k], weights[..k], j) + weights[k] * cells[k][j]
  }

  /** The user-based collaborative scores of every column. */
  function CollaborativeScores(cells: seq<seq<real>>, weights: seq<real>, width: nat): (r: seq<real>)
    requires |weights| == |cells| && forall v :: 0 <= v < |cells| ==> |cells[v]| == width
    ensures |r| == width && forall j :: 0 <= j < width ==> r[j] == WeightedColumn(cells, weights, j)
  {
    seq(width, j requires 0 <= j < width => WeightedColumn(cells, weights, j))
  }

  /** 0.6 of the collaborative score plus 0.4 of the factorisation score. */
  function Blend(weighted: seq<real>, factor: seq<real>): (r: seq<real>)
    requires |weighted| == |factor|
    ensures |r| == |weighted| && forall j :: 0 <= j < |r| ==> r[j] == 0.6 * weighted[j] + 0.4 * factor[j]
  {
    seq(|weighted|, j requires 0 <= j < |weighted| => 0.6 * weighted[j] + 0.4 * factor[j])
  }

  /** The positions with a positive quantity, in order. */
  function Purchased(row: seq<real>): (r: seq<nat>)
    ensures forall p :: p in r <==> 0 <= p < |row| && row[p] > 0.0
    ensures forall i :: 0 <= i < |r| ==> r[i] < |row|
    ensures forall a, b :: 0 <= a < b < |r| ==> r[a] < r[b]
    decreases |row|
  {
    if |row| == 0 then []
    else
      var k := |row| - 1;
      var init := Purchased(row[..k]);
      assert forall a :: 0 <= a < |init| ==> init[a] in init && init[a] < k;
      init + (if row[k] > 0.0 then [k] else [])
  }

  ghost predicate Square(m: seq<seq<real>>, n: nat)
  {
    |m| == n && forall i :: 0 <= i < |m| ==> |m[i]| == n
  }

  /** Σ over the purchased positions p of itemSim[p][j] · row[p]. */
  function SimilaritySum(itemSim: seq<seq<real>>, row: seq<real>, ps: seq<nat>, j: nat): real
    requires Square(itemSim, |row|) && j < |row|
    requires forall i :: 0 <= i < |ps| ==> ps[i] < |row|
  {
    if |ps| == 0 then 0.0
    else
      var k := |ps| - 1;
      SimilaritySum(itemSim, row, ps[..k], j) + Contribution(itemSim, row, ps[k], j)
  }

  /** What one purchased position p adds to the score of column j. */
  function Contribution(itemSim: seq<seq<real>>, row: seq<real>, p: nat, j: nat): real
    requires Square(itemSim, |row|) && p < |row| && j < |row|
  {
    itemSim[p][j] * row[p]
  }

  /** Adding the k-th purchase to the sum adds its one term. */
  lemma SimilaritySumStep(itemSim: seq<seq<real>>, row: seq<real>, ps: seq<nat>, k: nat, j: nat)
    requires Square(itemSim, |row|) && j < |row| && k < |ps|
    requires forall i :: 0 <= i < |ps| ==> ps[i] < |row|
    ensures SimilaritySum(itemSim, row, ps[..k + 1], j)
            == SimilaritySum(itemSim, row, ps[..k], j) + Contribution(itemSim, row, ps[k], j)
  {
    assert ps[..k + 1][..k] == ps[..k];
  }

  /** The content-based score of every column. */
  function ContentScores(itemSim: seq<seq<real>>, row: seq<real>): (r: seq<real>)
    requires Square(itemSim, |row|)
    ensures |r| == |row| && forall j :: 0 <= j < |row| ==> r[j] == SimilaritySum(itemSim, row, Purchased(row), j)
  {
    seq(|row|, j requires 0 <= j < |row| => SimilaritySum(itemSim, row, Purchased(row), j))
  }

  function ColumnSums(cells: seq<seq<real>>, width: nat): (r: seq<real>)
    requires forall v :: 0 <= v < |cells| ==> |cells[v]| == width
    ensures |r| == width && forall j :: 0 <= j < width ==> r[j] == ColumnSum(cells, j)
  {
    seq(width, j requires 0 <= j < width => ColumnSum(cells, j))
  }

  /** The n columns with the largest totals, best first, tagged as popular. */
  function ColdStartList(m: Frame<int, real>, n: nat): (r: seq<Recommendation>)
    requires m.Shaped()
    ensures |r| == Min(n, |m.cols|)
    ensures forall k :: 0 <= k < |r| ==> r[k].reasoning == Popularity
  {
    PopularTopFacts(m, n);
    var top := TopN(Indexed(ColumnSums(m.cells, |m.cols|)), ScoreOf, n);
    seq(|top|, k requires 0 <= k < |top| => Recommendation(m.cols[top[k].index], top[k].score, Popularity))
  }

  lemma PopularTopFacts(m: Frame<int, real>, n: nat)
    requires m.Shaped()
    ensures Entries(TopN(Indexed(ColumnSums(m.cells, |m.cols|)), ScoreOf, n), ColumnSums(m.cells, |m.cols|))
  {
    var all := Indexed(ColumnSums(m.cells, |m.cols|));
    SubEntries(TopN(all, ScoreOf, n), all, ColumnSums(m.cells, |m.cols|));
  }

  /** Popularity entries are listed best first. */
  lemma ColdStartDescending(m: Frame<int, real>, n: nat)
    requires m.Shaped()
    ensures forall k, l :: 0 <= k < l < |ColdStartList(m, n)| ==>
              ColdStartList(m, n)[l].score <= ColdStartList(m, n)[k].score
  {
    var top := TopN(Indexed(ColumnSums(m.cells, |m.cols|)), ScoreOf, n);
    var r := ColdStartList(m, n);
    forall k, l | 0 <= k < l < |r| ensures r[l].score <= r[k].score {
      assert r[k].score == top[k].score && r[l].score == top[l].score;
      assert ScoreOf(top[l]) <= ScoreOf(top[k]);
    }
  }

  /** Every popularity entry is a column carrying its total. */
  lemma ColdStartColumns(m: Frame<int, real>, n: nat, k: nat)
    requires m.Shaped() && k < |ColdStartList(m, n)|
    ensures exists j :: 0 <= j < |m.cols| && m.cols[j] == ColdStartList(m, n)[k].product &&
                        ColdStartList(m, n)[k].score == ColumnSum(m.cells, j)
  {
    var sums := ColumnSums(m.cells, |m.cols|);
    var top := TopN(Indexed(sums), ScoreOf, n);
    PopularTopFacts(m, n);
    var j := top[k].index;
    assert j < |m.cols| && top[k].score == sums[j];
    assert ColdStartList(m, n)[k] == Recommendation(m.cols[j], top[k].score, Popularity);
  }

  /** A column that totals more than some listed entry is listed itself. */
  lemma ColdStartIsTop(m: Frame<int, real>, n: nat)
    requires m.Shaped()
    ensures forall j, k :: 0 <= j < |m.cols| && 0 <= k < |ColdStartList(m, n)| &&
                           ColdStartList(m, n)[k].score < ColumnSum(m.cells, j) ==>
              Recommendation(m.cols[j], ColumnSum(m.cells, j), Popularity) in ColdStartList(m, n)
  {
    var r := ColdStartList(m, n);
    forall j, k | 0 <= j < |m.cols| && 0 <= k < |r| && r[k].score < ColumnSum(m.cells, j)
      ensures Recommendation(m.cols[j], ColumnSum(m.cells, j), Popularity) in r
    {
      ColumnOutranks(m, n, j, k);
    }
  }

  /** With distinct column names, the popularity list names every product
      once. */
  lemma ColdStartDistinct(m: Frame<int, real>, n: nat)
    requires m.Shaped() && Distinct(m.cols)
    ensures DistinctNames(ColdStartList(m, n))
  {
    var sums := ColumnSums(m.cells, |m.cols|);
    var top := TopN(Indexed(sums), ScoreOf, n);
    PopularTopFacts(m, n);
    IndexedDistinct(sums, top);
    var r := ColdStartList(m, n);
    forall a, b | 0 <= a < b < |r| ensures r[a].product != r[b].product {
      assert r[a].product == m.cols[top[a].index] && r[b].product == m.cols[top[b].index];
    }
  }

  lemma ColumnOutranks(m: Frame<int, real>, n: nat, j: nat, k: nat)
    requires m.Shaped() && j < |m.cols| && k < |ColdStartList(m, n)|
    requires ColdStartList(m, n)[k].score < ColumnSum(m.cells, j)
    ensures Recommendation(m.cols[j], ColumnSum(m.cells, j), Popularity) in ColdStartList(m, n)
  {
    var sums := ColumnSums(m.cells, |m.cols|);
    var all := Indexed(sums);
    var top := TopN(all, ScoreOf, n);
    var r := ColdStartList(m, n);
    assert r[k].score == top[k].score;
    PopularColumnListed(all, top, n, j, k);
    var l := Find(top, all[j]);
    assert r[l] == Recommendation(m.cols[j], ColumnSum(m.cells, j), Popularity);
  }

  /** A position of x in s. */
  lemma Find<T>(s: seq<T>, x: T) returns (l: nat)
    requires x in s
    ensures l < |s| && s[l] == x
  {
    l :| 0 <= l < |s| && s[l] == x;
  }

  /** A position that outscores some entry of the top-n is in the top-n. */
  lemma PopularColumnListed(all: seq<Scored>, top: seq<Scored>, n: nat, j: nat, k: nat)
    requires top == TopN(all, ScoreOf, n)
    requires j < |all| && k < |top| && top[k].score < all[j].score
    ensures all[j] in top
  {
    assert all[j] in multiset(all);
    assert top[k] in top;
  }

  /** The descending order of a similarity row without its first-ranked
      position (the queried id itself), cut at n. */
  function Neighbours(sims: seq<real>, n: nat): (r: seq<Scored>)
    ensures |r| == Max(0, Min(n + 1, |sims|) - 1)
    ensures IndicesBelow(r, |sims|)
  {
    SubEntries(TopN(Indexed(sims), ScoreOf, n + 1), Indexed(sims), sims);
    if |TopN(Indexed(sims), ScoreOf, n + 1)| == 0 then [] else TopN(Indexed(sims), ScoreOf, n + 1)[1..]
  }

  /** Neighbours are positions with their similarity, best first, and never
      repeated. */
  lemma NeighboursMeaning(sims: seq<real>, n: nat)
    ensures Entries(Neighbours(sims, n), sims)
    ensures forall a, b :: 0 <= a < b < |Neighbours(sims, n)| ==>
              Neighbours(sims, n)[b].score <= Neighbours(sims, n)[a].score &&
              Neighbours(sims, n)[a].index != Neighbours(sims, n)[b].index
  {
    var all := Indexed(sims);
    var top := TopN(all, ScoreOf, n + 1);
    var r := Neighbours(sims, n);
    SubEntries(top, all, sims);
    IndexedDistinct(sims, top);
    if |top| > 0 {
      assert r == top[1..];
      forall a, b | 0 <= a < b < |r| ensures r[b].score <= r[a].score && r[a].index != r[b].index {
        assert r[a] == top[a + 1] && r[b] == top[b + 1];
        assert ScoreOf(top[b + 1]) <= ScoreOf(top[a + 1]);
      }
    }
  }

  /** A position more similar than some neighbour is a neighbour itself,
      unless it is the dropped first-ranked position. */
  lemma NeighboursAreTop(sims: seq<real>, n: nat)
    ensures forall j, i :: 0 <= j < |sims| && 0 <= i < |Neighbours(sims, n)| && Neighbours(sims, n)[i].score < sims[j] ==>
              Scored(j, sims[j]) in Neighbours(sims, n) || j == SortDesc(Indexed(sims), ScoreOf)[0].index
  {
    forall j, i | 0 <= j < |sims| && 0 <= i < |Neighbours(sims, n)| && Neighbours(sims, n)[i].score < sims[j]
      ensures Scored(j, sims[j]) in Neighbours(sims, n) || j == SortDesc(Indexed(sims), ScoreOf)[0].index
    {
      NeighbourOutranked(sims, n, j, i);
    }
  }

  lemma NeighbourOutranked(sims: seq<real>, n: nat, j: nat, i: nat)
    requires j < |sims| && i < |Neighbours(sims, n)| && Neighbours(sims, n)[i].score < sims[j]
    ensures Scored(j, sims[j]) in Neighbours(sims, n) || j == SortDesc(Indexed(sims), ScoreOf)[0].index
  {
    var top := TopN(Indexed(sims), ScoreOf, n + 1);
    NeighboursTail(sims, n);
    PopularColumnListed(Indexed(sims), top, n + 1, j, i + 1);
    HeadOrTail(top, Scored(j, sims[j]));
  }

  /** NeighboursAreTop without the tie order: a position more similar than
      some neighbour is a neighbour, or it is as similar as every position,
      as the dropped head is whichever maximum the ranking puts first. */
  lemma {:induction false} NeighboursAreTopAnyTie(sims: seq<real>, n: nat)
    ensures forall j, i :: 0 <= j < |sims| && 0 <= i < |Neighbours(sims, n)| && Neighbours(sims, n)[i].score < sims[j] ==>
              Scored(j, sims[j]) in Neighbours(sims, n) || forall k :: 0 <= k < |sims| ==> sims[k] <= sims[j]
  {
    NeighboursAreTop(sims, n);
    if |sims| > 0 {
      RankingHeadIsMaximal(sims);
    }
  }

  /** The head of the ranking of a non-empty row is a position holding the
      row's largest similarity. */
  lemma RankingHeadIsMaximal(sims: seq<real>)
    requires |sims| > 0
    ensures var h := SortDesc(Indexed(sims), ScoreOf)[0];
            h.index < |sims| && h.score == sims[h.index] && forall k :: 0 <= k < |sims| ==> sims[k] <= h.score
  {
    var all := Indexed(sims);
    var t := SortDesc(all, ScoreOf);
    assert t[0] in multiset(all);
    var q := Find(all, t[0]);
    forall k | 0 <= k < |sims|
      ensures sims[k] <= t[0].score
    {
      assert all[k] in multiset(t);
      var p := Find(t, all[k]);
      if p > 0 {
        assert ScoreOf(t[p]) <= ScoreOf(t[0]);
      }
    }
  }

  /** The neighbours are the ranking of the n + 1 most similar positions
      without its head, the head being the head of the full ranking. */
  lemma NeighboursTail(sims: seq<real>, n: nat)
    ensures |Neighbours(sims, n)| > 0 ==>
              && |TopN(Indexed(sims), ScoreOf, n + 1)| > 0
              && Neighbours(sims, n) == TopN(Indexed(sims), ScoreOf, n + 1)[1..]
              && TopN(Indexed(sims), ScoreOf, n + 1)[0] == SortDesc(Indexed(sims), ScoreOf)[0]
  {
  }

  lemma HeadOrTail<T>(s: seq<T>, x: T)
    requires x in s
    ensures x == s[0] || x in s[1..]
  {
  }

  /** No position occurs twice in s. */
  ghost predicate DistinctIndices(s: seq<Scored>)
  {
    forall a, b :: 0 <= a < b < |s| ==> s[a].index != s[b].index
  }

  /** A sub-multiset of the indexed row never repeats a position. */
  lemma IndexedDistinct(sims: seq<real>, top: seq<Scored>)
    requires multiset(top) <= multiset(Indexed(sims))
    ensures DistinctIndices(top)
  {
    SubDistinct(Indexed(sims), top);
  }

  /** A sub-multiset of a sequence without repeated positions has none
      either. */
  lemma SubDistinct(all: seq<Scored>, top: seq<Scored>)
    requires DistinctIndices(all) && multiset(top) <= multiset(all)
    ensures DistinctIndices(top)
  {
    forall a, b | 0 <= a < b < |top| ensures top[a].index != top[b].index {
      if top[a].index == top[b].index {
        assert top[a] in multiset(all) && top[b] in multiset(all);
        var p := Find(all, top[a]);
        var q := Find(all, top[b]);
        assert p == q;
        assert multiset(top)[top[a]] >= 2 by {
          assert top == top[..a] + [top[a]] + top[a + 1..];
          assert top[b] in top[a + 1..];
          assert multiset(top) == multiset(top[..a]) + multiset{top[a]} + multiset(top[a + 1..]);
        }
        OccursOnce(all, p);
        assert false;
      }
    }
  }

  lemma OccursOnce(all: seq<Scored>, p: nat)
    requires DistinctIndices(all) && p < |all|
    ensures multiset(all)[all[p]] == 1
  {
    assert all == all[..p] + [all[p]] + all[p + 1..];
    forall a | 0 <= a < p ensures all[..p][a] != all[p] {
      assert all[..p][a] == all[a];
    }
    ghost var rest := all[p + 1..];
    forall b | 0 <= b < |rest| ensures rest[b] != all[p] {
      assert rest[b] == all[p + 1 + b];
    }
    assert all[p] !in all[..p] && all[p] !in rest;
    assert multiset(all) == multiset(all[..p]) + multiset{all[p]} + multiset(all[p + 1..]);
  }

  /** The first position of x in s (numpy's where(...)[0][0]). */
  function FirstIndex<T(==)>(s: seq<T>, x: T): (i: nat)
    requires x in s
    ensures i < |s| && s[i] == x && forall k :: 0 <= k < i ==> s[k] != x
  {
    if s[0] == x then 0 else 1 + FirstIndex(s[1..], x)
  }

  /** The number of factorisation components fit requests. */
  function Components(nComponents: int, rows: nat, cols: nat): int
  {
    Min(nComponents, Min(rows, cols) - 1)
  }

  /** The final score of every column for row u: the collaborative score,
      blended 0.6 / 0.4 with the factorisation score when there is one. */
  function UserScores(m: Frame<int, real>, u: nat, userSim: seq<seq<real>>, factor: Option<seq<real>>): (r: seq<real>)
    requires m.Shaped() && u < |m.rows| && Square(userSim, |m.rows|)
    requires factor.Some? ==> |factor.value| == |m.cols|
    ensures |r| == |m.cols|
    ensures forall j :: 0 <= j < |m.cols| ==>
              r[j] == if factor.Some? then 0.6 * WeightedColumn(m.cells, userSim[u], j) + 0.4 * factor.value[j]
                      else WeightedColumn(m.cells, userSim[u], j)
  {
    if factor.Some? then Blend(CollaborativeScores(m.cells, userSim[u], |m.cols|), factor.value)
    else CollaborativeScores(m.cells, userSim[u], |m.cols|)
  }

  /** The content-based tier for a row: empty without purchases, otherwise
      the tier of the item-similarity scores. */
  function ContentList(row: seq<real>, itemSim: seq<seq<real>>, ids: seq<string>, n: nat): (r: seq<Recommendation>)
    requires Square(itemSim, |row|) && |ids| == |row|
    ensures |r| <= n
    ensures |Purchased(row)| == 0 ==> r == []
  {
    if |Purchased(row)| == 0 then [] else Tier(ContentScores(itemSim, row), row, ids, n, ContentBased)
  }

  /** Each content-based entry is an unpurchased column carrying its
      positive content score, and scores never increase. */
  lemma ContentListMeaning(row: seq<real>, itemSim: seq<seq<real>>, ids: seq<string>, n: nat)
    requires Square(itemSim, |row|) && |ids| == |row|
    ensures forall k :: 0 <= k < |ContentList(row, itemSim, ids, n)| ==>
              var e := ContentList(row, itemSim, ids, n)[k];
              e.score > 0.0 && e.reasoning == ContentBased &&
              exists j :: 0 <= j < |ids| && ids[j] == e.product && row[j] <= 0.0 && ContentScores(itemSim, row)[j] == e.score
    ensures forall k, l :: 0 <= k < l < |ContentList(row, itemSim, ids, n)| ==>
              ContentList(row, itemSim, ids, n)[l].score <= ContentList(row, itemSim, ids, n)[k].score
  {
    TierMeaning(ContentScores(itemSim, row), row, ids, n, ContentBased);
  }

  /** Every unpurchased column whose content score beats an entry of the
      content-based list is listed. */
  lemma ContentListIsTop(row: seq<real>, itemSim: seq<seq<real>>, ids: seq<string>, n: nat)
    requires Square(itemSim, |row|) && |ids| == |row|
    ensures forall j, k :: 0 <= j < |row| && row[j] <= 0.0 && 0 <= k < |ContentList(row, itemSim, ids, n)| &&
                           ContentList(row, itemSim, ids, n)[k].score < ContentScores(itemSim, row)[j] ==>
              Recommendation(ids[j], ContentScores(itemSim, row)[j], ContentBased) in ContentList(row, itemSim, ids, n)
  {
    TierIsTop(ContentScores(itemSim, row), row, ids, n, ContentBased);
  }

  /** The content-based list names every product once when the column names
      are distinct. */
  lemma ContentListDistinct(row: seq<real>, itemSim: seq<seq<real>>, ids: seq<string>, n: nat)
    requires Square(itemSim, |row|) && |ids| == |row| && Distinct(ids)
    ensures DistinctNames(ContentList(row, itemSim, ids, n))
  {
    TierDistinct(ContentScores(itemSim, row), row, ids, n, ContentBased);
  }

  /** The personal list of a customer row from its final scores: the
      collaborative tier, topped up by at most count minus its length
      content-based entries when it is short. */
  function PersonalList(scores: seq<real>, row: seq<real>, itemSim: seq<seq<real>>, ids: seq<string>,
                        count: nat): (r: seq<Recommendation>)
    requires |scores| == |row| == |ids| && Square(itemSim, |row|)
    ensures |r| <= count
  {
    var collab := Tier(scores, row, ids, count, Collaborative);
    if |collab| < count then collab + ContentList(row, itemSim, ids, count - |collab|) else collab
  }

  /** The personal list never names a product the customer already bought,
      and every score in it is positive. */
  lemma PersonalNoRepurchase(scores: seq<real>, row: seq<real>, itemSim: seq<seq<real>>, ids: seq<string>,
                             count: nat, k: nat)
    requires |scores| == |row| == |ids| && Square(itemSim, |row|)
    requires k < |PersonalList(scores, row, itemSim, ids, count)|
    ensures PersonalList(scores, row, itemSim, ids, count)[k].score > 0.0
    ensures exists j :: 0 <= j < |ids| && ids[j] == PersonalList(scores, row, itemSim, ids, count)[k].product &&
                        row[j] <= 0.0
  {
    var collab := Tier(scores, row, ids, count, Collaborative);
    var r := PersonalList(scores, row, itemSim, ids, count);
    if |collab| < count {
      var content := ContentList(row, itemSim, ids, count - |collab|);
      assert r == collab + content;
      if k < |collab| {
        assert r[k] == collab[k];
        TierMeaning(scores, row, ids, count, Collaborative);
      } else {
        assert r[k] == content[k - |collab|];
        assert |Purchased(row)| > 0;
        TierMeaning(ContentScores(itemSim, row), row, ids, count - |collab|, ContentBased);
      }
    } else {
      TierMeaning(scores, row, ids, count, Collaborative);
    }
  }

  /** Every entry of s carries tag and scores never increase along s. */
  ghost predicate Run(s: seq<Recommendation>, tag: Reasoning)
  {
    && (forall k :: 0 <= k < |s| ==> s[k].reasoning == tag)
    && (forall k, l :: 0 <= k < l < |s| ==> s[l].score <= s[k].score)
  }

  /** A tier is a run of its tag. */
  lemma TierRun(scores: seq<real>, row: seq<real>, ids: seq<string>, n: nat, tag: Reasoning)
    requires |scores| == |row| == |ids|
    ensures Run(Tier(scores, row, ids, n, tag), tag)
  {
    TierMeaning(scores, row, ids, n, tag);
  }

  /** The personal list is a collaborative run, the collaborative tier,
      followed by a content-based run. */
  lemma PersonalRuns(scores: seq<real>, row: seq<real>, itemSim: seq<seq<real>>, ids: seq<string>, count: nat)
    requires |scores| == |row| == |ids| && Square(itemSim, |row|)
    ensures var r := PersonalList(scores, row, itemSim, ids, count);
            var collab := Tier(scores, row, ids, count, Collaborative);
            && |collab| <= |r|
            && r[..|collab|] == collab
            && Run(r[..|collab|], Collaborative)
            && Run(r[|collab|..], ContentBased)
  {
    var collab := Tier(scores, row, ids, count, Collaborative);
    var r := PersonalList(scores, row, itemSim, ids, count);
    TierRun(scores, row, ids, count, Collaborative);
    if |collab| < count {
      var content := ContentList(row, itemSim, ids, count - |collab|);
      if |Purchased(row)| > 0 {
        TierRun(ContentScores(itemSim, row), row, ids, count - |collab|, ContentBased);
      } else {
        assert content == [];
      }
      assert r == collab + content;
      assert r[..|collab|] == collab && r[|collab|..] == content;
    } else {
      assert r[..|collab|] == collab && r[|collab|..] == [];
    }
  }

  /** The collaborative run of the personal list holds the best columns: an
      unpurchased column scoring more than a collaborative entry is in that
      run. */
  lemma PersonalListIsTop(scores: seq<real>, row: seq<real>, itemSim: seq<seq<real>>, ids: seq<string>, count: nat)
    requires |scores| == |row| == |ids| && Square(itemSim, |row|)
    ensures var r := PersonalList(scores, row, itemSim, ids, count);
            var collab := Tier(scores, row, ids, count, Collaborative);
            && |collab| <= |r|
            && forall j, k :: 0 <= j < |row| && row[j] <= 0.0 && 0 <= k < |collab| && r[k].score < scores[j] ==>
                 Recommendation(ids[j], scores[j], Collaborative) in r[..|collab|]
  {
    var r := PersonalList(scores, row, itemSim, ids, count);
    var collab := Tier(scores, row, ids, count, Collaborative);
    PersonalRuns(scores, row, itemSim, ids, count);
    TierIsTop(scores, row, ids, count, Collaborative);
  }

  /** The content-based run of the personal list holds the best columns by
      content score: an unpurchased column whose content score beats a
      content-based entry is in that run. */
  lemma PersonalContentIsTop(scores: seq<real>, row: seq<real>, itemSim: seq<seq<real>>, ids: seq<string>, count: nat)
    requires |scores| == |row| == |ids| && Square(itemSim, |row|)
    ensures var r := PersonalList(scores, row, itemSim, ids, count);
            var collab := Tier(scores, row, ids, count, Collaborative);
            && |collab| <= |r|
            && forall j, k :: 0 <= j < |row| && row[j] <= 0.0 && |collab| <= k < |r| &&
                              r[k].score < ContentScores(itemSim, row)[j] ==>
                 Recommendation(ids[j], ContentScores(itemSim, row)[j], ContentBased) in r[|collab|..]
  {
    var r := PersonalList(scores, row, itemSim, ids, count);
    var collab := Tier(scores, row, ids, count, Collaborative);
    if |collab| < count {
      PersonalContentTop(row, itemSim, ids, count - |collab|, collab, r);
    } else {
      assert r == collab;
    }
  }

  /** The content-based half of PersonalListIsTop, for r the collaborative
      run collab followed by the content-based list for n entries. */
  lemma PersonalContentTop(row: seq<real>, itemSim: seq<seq<real>>, ids: seq<string>, n: nat,
                           collab: seq<Recommendation>, r: seq<Recommendation>)
    requires Square(itemSim, |row|) && |ids| == |row|
    requires r == collab + ContentList(row, itemSim, ids, n)
    ensures r[..|collab|] == collab
    ensures forall j, k :: 0 <= j < |row| && row[j] <= 0.0 && |collab| <= k < |r| &&
                           r[k].score < ContentScores(itemSim, row)[j] ==>
              Recommendation(ids[j], ContentScores(itemSim, row)[j], ContentBased) in r[|collab|..]
  {
    var content := ContentList(row, itemSim, ids, n);
    assert r[..|collab|] == collab && r[|collab|..] == content;
    ContentListIsTop(row, itemSim, ids, n);
    forall j, k | 0 <= j < |row| && row[j] <= 0.0 && |collab| <= k < |r| && r[k].score < ContentScores(itemSim, row)[j]
      ensures Recommendation(ids[j], ContentScores(itemSim, row)[j], ContentBased) in r[|collab|..]
    {
      assert r[k] == content[k - |collab|];
    }
  }

  /** With distinct column names, neither run of the personal list repeats
      a product (the two runs are not checked against each other). */
  lemma PersonalListDistinct(scores: seq<real>, row: seq<real>, itemSim: seq<seq<real>>, ids: seq<string>, count: nat)
    requires |scores| == |row| == |ids| && Square(itemSim, |row|) && Distinct(ids)
    ensures var r := PersonalList(scores, row, itemSim, ids, count);
            var collab := Tier(scores, row, ids, count, Collaborative);
            |collab| <= |r| && DistinctNames(r[..|collab|]) && DistinctNames(r[|collab|..])
  {
    PersonalCollaborativeDistinct(scores, row, itemSim, ids, count);
    PersonalContentDistinct(scores, row, itemSim, ids, count);
  }

  /** The collaborative run of the personal list repeats no product. */
  lemma PersonalCollaborativeDistinct(scores: seq<real>, row: seq<real>, itemSim: seq<seq<real>>, ids: seq<string>, count: nat)
    requires |scores| == |row| == |ids| && Square(itemSim, |row|) && Distinct(ids)
    ensures var r := PersonalList(scores, row, itemSim, ids, count);
            var collab := Tier(scores, row, ids, count, Collaborative);
            |collab| <= |r| && DistinctNames(r[..|collab|])
  {
    var r := PersonalList(scores, row, itemSim, ids, count);
    var collab := Tier(scores, row, ids, count, Collaborative);
    TierDistinct(scores, row, ids, count, Collaborative);
    if |collab| < count {
      var content := ContentList(row, itemSim, ids, count - |collab|);
      assert r == collab + content;
      assert r[..|collab|] == collab;
    } else {
      assert r == collab && r[..|collab|] == collab;
    }
  }

  /** The content run of the personal list repeats no product. */
  lemma PersonalContentDistinct(scores: seq<real>, row: seq<real>, itemSim: seq<seq<real>>, ids: seq<string>, count: nat)
    requires |scores| == |row| == |ids| && Square(itemSim, |row|) && Distinct(ids)
    ensures var r := PersonalList(scores, row, itemSim, ids, count);
            var collab := Tier(scores, row, ids, count, Collaborative);
            |collab| <= |r| && DistinctNames(r[|collab|..])
  {
    var r := PersonalList(scores, row, itemSim, ids, count);
    var collab := Tier(scores, row, ids, count, Collaborative);
    if |collab| < count {
      var content := ContentList(row, itemSim, ids, count - |collab|);
      ContentListDistinct(row, itemSim, ids, count - |collab|);
      assert r == collab + content;
      assert r[|collab|..] == content;
    } else {
      assert r == collab && r[|collab|..] == [];
    }
  }

  /** The recommendation engine with its fitted state. */
  class RecommenderEngine {
    var nComponents: int
    var nRecommendations: nat
    var matrix: Option<Frame<int, real>>
    var userIds: seq<int>
    var itemIds: seq<string>
    var userSimilarity: seq<seq<real>>
    var itemSimilarity: seq<seq<real>>
    /** The number of components of the fitted factorisation, when there is one. */
    var model: Option<nat>

    /** Once fitted, the ids are the matrix's index and columns and the
        similarity matrices are square over them. */
    ghost predicate Valid()
      reads this
    {
      matrix.Some? ==>
        && matrix.value.Shaped()
        && userIds == matrix.value.rows && itemIds == matrix.value.cols
        && Square(userSimilarity, |userIds|) && Square(itemSimilarity, |itemIds|)
    }

    constructor(nComponents: int := 10, nRecommendations: nat := 10)
      ensures Valid() && matrix.None? && model.None?
      ensures this.nComponents == nComponents && this.nRecommendations == nRecommendations
    {
      this.nComponents := nComponents;
      this.nRecommendations := nRecommendations;
      matrix := None;
      userIds := [];
      itemIds := [];
      userSimilarity := [];
      itemSimilarity := [];
      model := None;
    }

    /** Records the matrix, its ids and the two similarity matrices, and
        fits a factorisation with Components(...) components; a request for
        fewer than one component, or any failure, leaves the model absent. */
    method Fit(m: Frame<int, real>, userSim: seq<seq<real>>, itemSim: seq<seq<real>>, factorisationFails: bool)
      modifies this
      requires m.Shaped() && |m.rows| > 0 && |m.cols| > 0
      requires Square(userSim, |m.rows|) && Square(itemSim, |m.cols|)
      ensures Valid()
      ensures matrix == Some(m) && userIds == m.rows && itemIds == m.cols
      ensures userSimilarity == userSim && itemSimilarity == itemSim
      ensures model.Some? <==> Components(nComponents, |m.rows|, |m.cols|) >= 1 && !factorisationFails
      ensures model.Some? ==> model.value == Components(nComponents, |m.rows|, |m.cols|)
      ensures nComponents == old(nComponents) && nRecommendations == old(nRecommendations)
    {
      matrix := Some(m);
      userIds := m.rows;
      itemIds := m.cols;
      userSimilarity := userSim;
      itemSimilarity := itemSim;
      var k := Components(nComponents, |m.rows|, |m.cols|);
      if k >= 1 && !factorisationFails {
        model := Some(k);
      } else {
        model := None;
      }
    }

    /** Personal recommendations: none before fit, the popularity list for
        an unknown customer, otherwise the personal list of the customer's
        row. projection is the factorisation's score row for the customer,
        absent when projecting fails. */
    method GetUserRecommendations(customerId: int, n: Option<nat> := None, projection: Option<seq<real>>)
      returns (recs: seq<Recommendation>)
      requires Valid()
      requires matrix.Some? && projection.Some? ==> |projection.value| == |itemIds|
      ensures matrix.None? ==> recs == []
      ensures matrix.Some? && customerId !in userIds ==>
                recs == ColdStartList(matrix.value, if n.Some? then n.value else nRecommendations)
      ensures matrix.Some? && customerId in userIds ==>
                recs == PersonalList(UserScores(matrix.value, FirstIndex(userIds, customerId), userSimilarity,
                                                if model.Some? then projection else None),
                                     matrix.value.cells[FirstIndex(userIds, customerId)], itemSimilarity, itemIds,
                                     if n.Some? then n.value else nRecommendations)
    {
      var count := if n.Some? then n.value else nRecommendations;
      if matrix.None? {
        return [];
      }
      if customerId !in userIds {
        recs := ColdStartRecommendations(count);
        return;
      }
      var u := FirstIndex(userIds, customerId);
      var scores := UserScores(matrix.value, u, userSimilarity, if model.Some? then projection else None);
      recs := PersonalRecommendations(scores, matrix.value.cells[u], itemSimilarity, itemIds, count);
    }

    /** The item-similarity tier for a customer: none for an unknown
        customer or one without purchases. */
    method ContentBasedRecommendations(customerId: int, n: nat) returns (recs: seq<Recommendation>)
      requires Valid() && matrix.Some?
      ensures customerId !in userIds ==> recs == []
      ensures customerId in userIds ==>
                recs == ContentList(matrix.value.cells[FirstIndex(userIds, customerId)], itemSimilarity, itemIds, n)
    {
      if customerId !in userIds {
        return [];
      }
      recs := ContentTier(matrix.value.cells[FirstIndex(userIds, customerId)], itemSimilarity, itemIds, n);
    }

    /** The popularity list, none before fit. */
    method ColdStartRecommendations(n: nat) returns (recs: seq<Recommendation>)
      requires Valid()
      ensures matrix.None? ==> recs == []
      ensures matrix.Some? ==> recs == ColdStartList(matrix.value, n)
    {
      if matrix.None? {
        return [];
      }
      var m := matrix.value;
      var top := TopN(Indexed(ColumnSums(m.cells, |m.cols|)), ScoreOf, n);
      PopularTopFacts(m, n);
      recs := Tagged(top, m.cols, Popularity);
    }

    /** The customers most similar to customerId, without the first-ranked
        one; none for an unknown customer. */
    method GetSimilarUsers(customerId: int, n: nat := 5) returns (similar: seq<SimilarUser>)
      requires Valid() && matrix.Some?
      ensures customerId !in userIds ==> similar == []
      ensures customerId in userIds ==>
                var nb := Neighbours(userSimilarity[FirstIndex(userIds, customerId)], n);
                |similar| == |nb| &&
                forall k :: 0 <= k < |nb| ==> similar[k] == SimilarUser(userIds[nb[k].index], nb[k].score)
    {
      if customerId !in userIds {
        return [];
      }
      var sims := userSimilarity[FirstIndex(userIds, customerId)];
      var nb := Neighbours(sims, n);
      similar := UserEntries(nb, userIds);
    }

    /** The products most similar to product, without the first-ranked one;
        none for an unknown product. */
    method GetSimilarProducts(product: string, n: nat := 5) returns (similar: seq<SimilarProduct>)
      requires Valid() && matrix.Some?
      ensures product !in itemIds ==> similar == []
      ensures product in itemIds ==>
                var nb := Neighbours(itemSimilarity[FirstIndex(itemIds, product)], n);
                |similar| == |nb| &&
                forall k :: 0 <= k < |nb| ==> similar[k] == SimilarProduct(itemIds[nb[k].index], nb[k].score)
    {
      if product !in itemIds {
        return [];
      }
      var sims := itemSimilarity[FirstIndex(itemIds, product)];
      var nb := Neighbours(sims, n);
      similar := ProductEntries(nb, itemIds);
    }
  }

  /** The personal list of a customer row: the collaborative tier of the
      final scores, topped up with the content-based tier for the missing
      count, cut to count entries. */
  method PersonalRecommendations(scores: seq<real>, row: seq<real>, itemSim: seq<seq<real>>, ids: seq<string>,
                                 count: nat) returns (recs: seq<Recommendation>)
    requires |scores| == |row| == |ids| && Square(itemSim, |row|)
    ensures recs == PersonalList(scores, row, itemSim, ids, count)
  {
    recs := CollaborativeTier(scores, row, ids, count);
    if |recs| < count {
      var content := ContentTier(row, itemSim, ids, count - |recs|);
      recs := recs + content;
    }
    assert recs == PersonalList(scores, row, itemSim, ids, count);
    recs := Take(recs, count);
  }

  /** The collaborative tier: the final scores ranked, kept when positive. */
  method CollaborativeTier(scores: seq<real>, row: seq<real>, ids: seq<string>, count: nat)
    returns (recs: seq<Recommendation>)
    requires |scores| == |row| == |ids|
    ensures recs == Tier(scores, row, ids, count, Collaborative)
  {
    TierTop(scores, row, count);
    recs := KeepPositive(TopN(Unmasked(scores, row), ScoreOf, count), ids, Collaborative);
  }

  /** The content-based tier of a row: nothing without purchases, otherwise
      the accumulated item-similarity scores ranked and kept when positive. */
  method ContentTier(row: seq<real>, itemSim: seq<seq<real>>, ids: seq<string>, n: nat) returns (recs: seq<Recommendation>)
    requires Square(itemSim, |row|) && |ids| == |row|
    ensures recs == ContentList(row, itemSim, ids, n)
  {
    if |Purchased(row)| == 0 {
      return [];
    }
    var scores := AccumulateSimilarity(itemSim, row);
    TierTop(scores, row, n);
    recs := KeepPositive(TopN(Unmasked(scores, row), ScoreOf, n), ids, ContentBased);
  }

  /** The item-similarity scores of every column, accumulated purchase by
      purchase into a zero-initialised array. */
  method AccumulateSimilarity(itemSim: seq<seq<real>>, row: seq<real>) returns (scores: seq<real>)
    requires Square(itemSim, |row|)
    ensures scores == ContentScores(itemSim, row)
  {
    var purchased := Purchased(row);
    var itemScores := new real[|row|](_ => 0.0);
    var k := 0;
    while k < |purchased|
      invariant 0 <= k <= |purchased|
      invariant forall j :: 0 <= j < itemScores.Length ==>
                  itemScores[j] == SimilaritySum(itemSim, row, purchased[..k], j)
    {
      AddPurchase(itemScores, itemSim, row, purchased, k);
      k := k + 1;
    }
    assert purchased[..k] == purchased;
    scores := itemScores[..];
  }

  /** Adds the contribution of the k-th purchased position to every column's
      running score. */
  method AddPurchase(itemScores: array<real>, itemSim: seq<seq<real>>, row: seq<real>, purchased: seq<nat>, k: nat)
    modifies itemScores
    requires Square(itemSim, |row|) && itemScores.Length == |row| && k < |purchased|
    requires forall i :: 0 <= i < |purchased| ==> purchased[i] < |row|
    requires forall i :: 0 <= i < itemScores.Length ==>
               itemScores[i] == SimilaritySum(itemSim, row, purchased[..k], i)
    ensures forall i :: 0 <= i < itemScores.Length ==>
              itemScores[i] == SimilaritySum(itemSim, row, purchased[..k + 1], i)
  {
    var p := purchased[k];
    ghost var done := purchased[..k];
    ghost var next := purchased[..k + 1];
    var j := 0;
    while j < itemScores.Length
      invariant 0 <= j <= itemScores.Length
      invariant forall i :: 0 <= i < j ==> itemScores[i] == SimilaritySum(itemSim, row, next, i)
      invariant forall i :: j <= i < itemScores.Length ==> itemScores[i] == SimilaritySum(itemSim, row, done, i)
    {
      SimilaritySumStep(itemSim, row, purchased, k, j);
      itemScores[j] := itemScores[j] + Contribution(itemSim, row, p, j);
      j := j + 1;
    }
  }

  method UserEntries(nb: seq<Scored>, ids: seq<int>) returns (similar: seq<SimilarUser>)
    requires IndicesBelow(nb, |ids|)
    ensures |similar| == |nb| && forall k :: 0 <= k < |nb| ==> similar[k] == SimilarUser(ids[nb[k].index], nb[k].score)
  {
    similar := [];
    var i := 0;
    while i < |nb|
      invariant 0 <= i <= |nb| && |similar| == i
      invariant forall k :: 0 <= k < i ==> similar[k] == SimilarUser(ids[nb[k].index], nb[k].score)
    {
      similar := similar + [SimilarUser(ids[nb[i].index], nb[i].score)];
      i := i + 1;
    }
  }

  method ProductEntries(nb: seq<Scored>, ids: seq<string>) returns (similar: seq<SimilarProduct>)
    requires IndicesBelow(nb, |ids|)
    ensures |similar| == |nb| && forall k :: 0 <= k < |nb| ==> similar[k] == SimilarProduct(ids[nb[k].index], nb[k].score)
  {
    similar := [];
    var i := 0;
    while i < |nb|
      invariant 0 <= i <= |nb| && |similar| == i
      invariant forall k :: 0 <= k < i ==> similar[k] == SimilarProduct(ids[nb[k].index], nb[k].score)
    {
      similar := similar + [SimilarProduct(ids[nb[i].index], nb[i].score)];
      i := i + 1;
    }
  }

  /** The loop that builds one tagged entry per ranked position. */
  method Tagged(top: seq<Scored>, ids: seq<string>, tag: Reasoning) returns (recs: seq<Recommendation>)
    requires IndicesBelow(top, |ids|)
    ensures |recs| == |top| && forall k :: 0 <= k < |top| ==> recs[k] == Recommendation(ids[top[k].index], top[k].score, tag)
  {
    recs := [];
    var i := 0;
    while i < |top|
      invariant 0 <= i <= |top| && |recs| == i
      invariant forall k :: 0 <= k < i ==> recs[k] == Recommendation(ids[top[k].index], top[k].score, tag)
    {
      recs := recs + [Recommendation(ids[top[i].index], top[i].score, tag)];
      i := i + 1;
    }
  }

  /** The loop that keeps the positively scored positions of a ranking, in
      order, as tagged entries. */
  method KeepPositive(top: seq<Scored>, ids: seq<string>, tag: Reasoning) returns (recs: seq<Recommendation>)
    requires IndicesBelow(top, |ids|)
    ensures recs == Positives(top, ids, tag)
  {
    recs := [];
    var i := 0;
    while i < |top|
      invariant 0 <= i <= |top|
      invariant IndicesBelow(top[..i], |ids|)
      invariant recs == Positives(top[..i], ids, tag)
    {
      assert top[..i + 1][..i] == top[..i];
      assert IndicesBelow(top[..i + 1], |ids|);
      if top[i].score > 0.0 {
        recs := recs + [Recommendation(ids[top[i].index], top[i].score, tag)];
      }
      i := i + 1;
    }
    assert top[..i] == top;
  }
}
