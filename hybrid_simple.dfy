/** The older content-based recommender of api/hybrid_model.py, of which
    the `HybridRecommender` class in api/server.py:225-338 is a
    line-for-line copy.

    It differs from the primary variant in four ways: the dislike factor is
    0.3 and no interaction is skipped; candidates are not checked against
    the catalogue; a video's score is its raw accumulated similarity; and
    the cold start and the fill are random. The constructor creates neither
    `video_id_to_idx` nor `idx_to_video_id`, so a user with history asked
    about before any successful fit makes the scoring loop raise
    `AttributeError`; the model returns an `Err` there. */
module HybridSimple {
  import opened Common
  import opened Sorting
  import opened Similarity
  import opened HybridScoring

  /** `video_scores.items()` as recommendations labelled
      "Content-based similarity", in insertion order. */
  function ContentRecs(scores: Scores): (recs: seq<Rec>)
    ensures Ids(recs) == scores.order
    ensures forall i :: 0 <= i < |recs| ==> recs[i].reason == ContentBased
    ensures forall i :: 0 <= i < |recs| ==> scores.order[i] in scores.entries ==> recs[i].score == scores.entries[scores.order[i]].content
  {
    seq(|scores.order|, i requires 0 <= i < |scores.order| =>
      var v := scores.order[i];
      Rec(v, if v in scores.entries then scores.entries[v].content else 0.0, ContentBased))
  }

  /** The outcome of `random.sample(all_videos, min(n, len(all_videos)))`
      with a `random.random()` score each: that many videos drawn without
      replacement, each scored in [0, 1). */
  ghost predicate ColdStartOutcome(catalog: seq<int>, n: nat, recs: seq<Rec>)
  {
    && |recs| == Min(n, |catalog|)
    && DrawnWithoutReplacement(catalog, recs)
    && forall i :: 0 <= i < |recs| ==> recs[i].reason == ColdStartRandom && 0.0 <= recs[i].score < 1.0
  }

  /** The cold-start sample. */
  method ColdStart(catalog: seq<int>, n: nat) returns (recs: seq<Rec>)
    ensures ColdStartOutcome(catalog, n, recs)
    ensures Distinct(catalog) ==> Distinct(Ids(recs))
  {
    var k := Min(n, |catalog|);
    var available := catalog;
    recs := [];
    while |recs| < k
      invariant |recs| <= k
      invariant available == After(catalog, recs) && |available| == |catalog| - |recs|
      invariant DrawnWithoutReplacement(catalog, recs)
      invariant forall i :: 0 <= i < |recs| ==> recs[i].reason == ColdStartRandom && 0.0 <= recs[i].score < 1.0
    {
      var j :| 0 <= j < |available|;
      var score :| 0.0 <= score < 1.0;
      var pick := Rec(available[j], score, ColdStartRandom);
      DrawnAppend(catalog, recs, pick);
      recs := recs + [pick];
      available := RemoveFirst(available, pick.videoId);
    }
    if Distinct(catalog) {
      DrawnDistinct(catalog, recs);
    }
  }

  /** The `while len(recommendations) < n` fill: `recs` extends `top`; each
      added video is drawn from the catalogue videos not interacted with and
      not yet recommended at its turn, at score 0.1; the loop stops once
      `n` is reached or nothing is left. */
  ghost predicate FilledRandomly(top: seq<Rec>, catalog: seq<int>, seen: set<int>, n: nat, recs: seq<Rec>)
  {
    && |top| <= |recs| && recs[..|top|] == top
    && (|recs| > |top| ==> |recs| <= n)
    && (forall i :: |top| <= i < |recs| ==>
          recs[i].videoId in Without(catalog, seen + IdSet(recs[..i]))
          && recs[i].score == 0.1 && recs[i].reason == Exploration)
    && (|recs| >= n || Without(catalog, seen + IdSet(recs)) == [])
  }

  method FillRandomly(top: seq<Rec>, catalog: seq<int>, seen: set<int>, n: nat) returns (recs: seq<Rec>)
    ensures FilledRandomly(top, catalog, seen, n, recs)
  {
    recs := top;
    while |recs| < n
      invariant |top| <= |recs| && recs[..|top|] == top
      invariant |recs| > |top| ==> |recs| <= n
      invariant forall i :: |top| <= i < |recs| ==>
        recs[i].videoId in Without(catalog, seen + IdSet(recs[..i]))
        && recs[i].score == 0.1 && recs[i].reason == Exploration
      decreases n - |recs|
    {
      var remaining := Without(catalog, seen + IdSet(recs));
      if remaining == [] {
        break;
      }
      var j :| 0 <= j < |remaining|;
      var next := recs + [Rec(remaining[j], 0.1, Exploration)];
      assert next[..|recs|] == recs;
      assert forall i :: 0 <= i <= |recs| ==> next[..i] == recs[..i];
      recs := next;
    }
  }

  /** Every video the fill adds is new to the answer and was never
      interacted with, so the answer repeats no video when the ranked part
      does not. */
  lemma FilledRandomlyFacts(top: seq<Rec>, catalog: seq<int>, seen: set<int>, n: nat, recs: seq<Rec>)
    requires FilledRandomly(top, catalog, seen, n, recs)
    ensures forall i :: |top| <= i < |recs| ==> recs[i].videoId in catalog && recs[i].videoId !in seen
    ensures Distinct(Ids(top)) ==> Distinct(Ids(recs))
  {
    assert forall i :: 0 <= i < |top| ==> recs[i] == recs[..|top|][i] == top[i];
    if Distinct(Ids(top)) {
      forall i, j | 0 <= i < j < |recs|
        ensures Ids(recs)[i] != Ids(recs)[j]
      {
        if j >= |top| {
          assert recs[..j][i] == recs[i];
          assert Ids(recs[..j])[i] == recs[i].videoId;
          assert recs[i].videoId in IdSet(recs[..j]);
        } else {
          assert Ids(top)[i] != Ids(top)[j];
        }
      }
    }
  }

  /** The answer for a user with history once an index exists, given the
      videos excluded up front (none in the code as written). */
  ghost predicate Recommended(ix: Index, catalog: seq<int>, history: seq<Interaction>, n: nat,
                              extra: set<int>, recs: seq<Rec>)
    requires IndexValid(ix)
  {
    var st := Accumulate(SimpleConfig, Some(ix), catalog, history, extra);
    FilledRandomly(Top(ContentRecs(st.scores), n), catalog, st.seen, n, recs)
  }

  /** At most `n` distinct recommendations; the ranked part is sorted by
      raw score and beats every scored video it leaves out; the fill holds
      no video of the history. */
  lemma RecommendedFacts(ix: Index, catalog: seq<int>, history: seq<Interaction>, n: nat,
                         extra: set<int>, recs: seq<Rec>)
    requires IndexValid(ix)
    requires Recommended(ix, catalog, history, n, extra, recs)
    ensures var st := Accumulate(SimpleConfig, Some(ix), catalog, history, extra);
      var top := Top(ContentRecs(st.scores), n);
      && |recs| <= n
      && Distinct(Ids(recs))
      && recs[..|top|] == top && SortedBy(top, ScoreGe)
      && (forall v :: v in st.scores.entries && v !in Ids(top) ==>
            |top| == n && forall i :: 0 <= i < |top| ==> top[i].score >= st.scores.entries[v].content)
      && (forall i :: |top| <= i < |recs| ==> recs[i].videoId in catalog && recs[i].videoId !in HistoryIds(history))
  {
    var st := Accumulate(SimpleConfig, Some(ix), catalog, history, extra);
    AccumulateFacts(SimpleConfig, Some(ix), catalog, history, extra);
    var items := ContentRecs(st.scores);
    var top := Top(items, n);
    TopSorted(items, n);
    TopDistinct(items, n);
    FilledRandomlyFacts(top, catalog, st.seen, n, recs);
    forall v | v in st.scores.entries && v !in Ids(top)
      ensures |top| == n && forall i :: 0 <= i < |top| ==> top[i].score >= st.scores.entries[v].content
    {
      var k :| 0 <= k < |st.scores.order| && st.scores.order[k] == v;
      assert Ids(items)[k] == v;
      TopDominates(items, n, items[k]);
    }
  }

  /** With every history video excluded up front, nothing in the answer was
      already interacted with. */
  lemma CorrectedNeverRecommendsSeen(ix: Index, catalog: seq<int>, history: seq<Interaction>, n: nat, recs: seq<Rec>)
    requires IndexValid(ix)
    requires Recommended(ix, catalog, history, n, HistoryIds(history), recs)
    ensures forall i :: 0 <= i < |recs| ==> recs[i].videoId !in HistoryIds(history)
  {
    var extra := HistoryIds(history);
    RecommendedFacts(ix, catalog, history, n, extra, recs);
    var st := Accumulate(SimpleConfig, Some(ix), catalog, history, extra);
    var items := ContentRecs(st.scores);
    var top := Top(items, n);
    TopSorted(items, n);
    UpfrontExclusionNeverScoresSeen(SimpleConfig, Some(ix), catalog, history, extra);
    AccumulateFacts(SimpleConfig, Some(ix), catalog, history, extra);
    forall i | 0 <= i < |top|
      ensures recs[i].videoId !in HistoryIds(history)
    {
      assert recs[i] == recs[..|top|][i] == top[i];
      var k :| 0 <= k < |items| && items[k] == top[i];
      assert Ids(items)[k] == st.scores.order[k];
    }
  }

  class HybridRecommender {
    /** `item_similarity` together with the two map attributes, which only
        exist once a fit has succeeded. */
    var index: Option<Index>
    var isFitted: bool

    ghost predicate Valid()
      reads this
    {
      && (index.Some? ==> IndexValid(index.value))
      && (isFitted <==> index.Some?)
    }

    constructor ()
      ensures Valid() && index == None && !isFitted
    {
      index := None;
      isFitted := false;
    }

    /** `update_item_similarity`: an empty result set or a failing
        vectoriser leaves everything as it was; otherwise the index built
        from the rows replaces the stored one. */
    method UpdateItemSimilarity(rows: seq<VideoRow>, cosine: (seq<string>, nat, nat) -> real, fails: bool)
      requires Valid()
      modifies this
      ensures Valid()
      ensures Fit(rows, cosine, fails).Some? ==> index == Fit(rows, cosine, fails) && isFitted
      ensures Fit(rows, cosine, fails).None? ==> index == old(index) && isFitted == old(isFitted)
    {
      if rows == [] {
        return;
      }
      var ids, texts := CollectRows(rows);
      if fails {
        return;
      }
      index := Some(BuildIndex(ids, texts, cosine));
      isFitted := true;
    }

    /** `get_recommendations` as written. */
    method GetRecommendations(rows: seq<VideoRow>, cosine: (seq<string>, nat, nat) -> real, fails: bool,
                              history: seq<Interaction>, catalog: seq<int>, n: nat) returns (r: Result<seq<Rec>>)
      requires Valid()
      modifies this
      ensures Valid()
      ensures old(isFitted) ==> index == old(index)
      ensures !old(isFitted) ==> index == Fit(rows, cosine, fails)
      ensures history == [] ==> r.Ok? && ColdStartOutcome(catalog, n, r.value)
      ensures history != [] && index.None? ==> r.Err?
      ensures history != [] && index.Some? ==> r.Ok? && Recommended(index.value, catalog, history, n, {}, r.value)
    {
      if !isFitted {
        UpdateItemSimilarity(rows, cosine, fails);
      }
      if history == [] {
        var recs := ColdStart(catalog, n);
        return Ok(recs);
      }
      if index.None? {
        return Err("AttributeError: 'HybridRecommender' object has no attribute 'video_id_to_idx'");
      }
      var st := AccumulateScores(SimpleConfig, index, catalog, history, {});
      var top := Top(ContentRecs(st.scores), n);
      var recs := FillRandomly(top, catalog, st.seen, n);
      return Ok(recs);
    }

    /** `get_recommendations` with the history excluded up front. */
    method GetRecommendationsCorrected(rows: seq<VideoRow>, cosine: (seq<string>, nat, nat) -> real, fails: bool,
                                       history: seq<Interaction>, catalog: seq<int>, n: nat) returns (r: Result<seq<Rec>>)
      requires Valid()
      modifies this
      ensures Valid()
      ensures old(isFitted) ==> index == old(index)
      ensures !old(isFitted) ==> index == Fit(rows, cosine, fails)
      ensures history == [] ==> r.Ok? && ColdStartOutcome(catalog, n, r.value)
      ensures history != [] && index.None? ==> r.Err?
      ensures history != [] && index.Some? ==> r.Ok? && Recommended(index.value, catalog, history, n, HistoryIds(history), r.value)
      ensures r.Ok? ==> forall i :: 0 <= i < |r.value| ==> r.value[i].videoId !in HistoryIds(history)
    {
      if !isFitted {
        UpdateItemSimilarity(rows, cosine, fails);
      }
      if history == [] {
        var recs := ColdStart(catalog, n);
        return Ok(recs);
      }
      if index.None? {
        return Err("AttributeError: 'HybridRecommender' object has no attribute 'video_id_to_idx'");
      }
      var st := AccumulateScores(SimpleConfig, index, catalog, history, HistoryIds(history));
      var top := Top(ContentRecs(st.scores), n);
      var recs := FillRandomly(top, catalog, st.seen, n);
      CorrectedNeverRecommendsSeen(index.value, catalog, history, n, recs);
      return Ok(recs);
    }
  }
}
