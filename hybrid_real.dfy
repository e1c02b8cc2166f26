/** The primary content-based recommender of api/hybrid_model_real.py.

    `get_recommendations` refits the similarity index when it was never
    fitted, answers a user without history with the first catalogue videos
    at decreasing scores, and otherwise scores videos through the
    similarity loop of `HybridScoring` (dislike factor 0.2, early dislikes
    skipped, catalogue videos only), turns every entry into the average
    content score plus a popularity boost of `min(0.1 * count, 0.3)`, sorts
    by score, keeps `n`, and fills the remaining slots with unseen
    catalogue videos at a random score in [0.1, 0.3].

    The database queries are inputs: `rows` are the `videos` rows the
    refit would read, `history` the user's interactions and `catalog` the
    available video ids, in query order. */
module HybridReal {
  import opened Common
  import opened Sorting
  import opened Similarity
  import opened HybridScoring

  /** `_cold_start_recommendations`: the i-th id scores `0.6 - 0.05 * i`. */
  function ColdStart(ids: seq<int>): (recs: seq<Rec>)
    ensures Ids(recs) == ids
    ensures forall i :: 0 <= i < |recs| ==> recs[i].reason == ColdStartContent
    ensures |recs| > 0 ==> recs[0].score == 0.6
    ensures forall i, j :: 0 <= i < j < |recs| ==> recs[i].score > recs[j].score
  {
    seq(|ids|, i requires 0 <= i < |ids| => Rec(ids[i], 0.6 - i as real * 0.05, ColdStartContent))
  }

  /** The `for i, video_id in enumerate(video_ids)` loop. */
  method ColdStartRecommendations(ids: seq<int>) returns (recs: seq<Rec>)
    ensures recs == ColdStart(ids)
  {
    recs := [];
    var i := 0;
    while i < |ids|
      invariant i <= |ids| && |recs| == i
      invariant forall k :: 0 <= k < i ==> recs[k] == Rec(ids[k], 0.6 - k as real * 0.05, ColdStartContent)
    {
      var score := 0.6 - i as real * 0.05;
      recs := recs + [Rec(ids[i], score, ColdStartContent)];
      i := i + 1;
    }
  }

  /** The final score of one `video_scores` entry: the average content
      score plus the popularity boost. The boost is always between 0.1 and
      0.3, so the " + multi-interaction boost" suffix is always present. */
  function FinalRec(v: int, e: Entry): (r: Rec)
    requires e.count > 0
    ensures r.videoId == v && r.reason.ContentSimilarity?
    ensures r.reason.contentScore == e.content / e.count as real
    ensures 0.1 <= r.score - r.reason.contentScore <= 0.3
    ensures r.reason.boosted
    ensures e.count >= 3 ==> r.score == r.reason.contentScore + 0.3
  {
    var content := e.content / e.count as real;
    var boost := MinReal(e.count as real * 0.1, 0.3);
    Rec(v, content + boost, ContentSimilarity(content, boost > 0.0))
  }

  /** `final_scores`: one record per entry with a positive count, in the
      insertion order of `video_scores`. */
  function Finals(entries: map<int, Entry>, order: seq<int>): (recs: seq<Rec>)
    ensures |recs| <= |order|
    ensures forall i :: 0 <= i < |recs| ==>
      var v := recs[i].videoId;
      v in order && v in entries && entries[v].count > 0 && recs[i] == FinalRec(v, entries[v])
    decreases |order|
  {
    if order == [] then []
    else
      var v := order[|order| - 1];
      var prev := Finals(entries, order[..|order| - 1]);
      assert forall x :: x in order[..|order| - 1] ==> x in order;
      if v in entries && entries[v].count > 0 then prev + [FinalRec(v, entries[v])] else prev
  }

  /** The `count > 0` filter drops nothing: every scored video has a final
      score, in insertion order. */
  lemma {:induction false} FinalsKeepAll(entries: map<int, Entry>, order: seq<int>)
    requires forall v :: v in order ==> v in entries && entries[v].count > 0
    ensures Ids(Finals(entries, order)) == order
    decreases |order|
  {
    if order != [] {
      var front := order[..|order| - 1];
      assert forall x :: x in front ==> x in order;
      FinalsKeepAll(entries, front);
      IdsAppend(Finals(entries, front), FinalRec(order[|order| - 1], entries[order[|order| - 1]]));
      assert front + [order[|order| - 1]] == order;
    }
  }

  /** The loop over `video_scores.items()`. */
  method FinalScores(scores: Scores) returns (finals: seq<Rec>)
    ensures finals == Finals(scores.entries, scores.order)
  {
    finals := [];
    var i := 0;
    while i < |scores.order|
      invariant i <= |scores.order|
      invariant finals == Finals(scores.entries, scores.order[..i])
    {
      var v := scores.order[i];
      assert scores.order[..i + 1][..i] == scores.order[..i];
      if v in scores.entries && scores.entries[v].count > 0 {
        finals := finals + [FinalRec(v, scores.entries[v])];
      }
      i := i + 1;
    }
    assert scores.order[..i] == scores.order;
  }

  /** `final_scores` sorted by score and cut to `n`. */
  function Ranked(scores: Scores, n: nat): seq<Rec>
  {
    Top(Finals(scores.entries, scores.order), n)
  }

  /** The ranked list holds `min(n, #scored)` distinct scored videos with
      their final scores, in non-increasing score order. */
  lemma RankedSorted(scores: Scores, n: nat)
    requires ScoresValid(scores)
    ensures var top := Ranked(scores, n);
      && |top| == Min(n, |scores.order|)
      && SortedBy(top, ScoreGe)
      && Distinct(Ids(top))
      && (forall i :: 0 <= i < |top| ==>
            top[i].videoId in scores.entries && top[i] == FinalRec(top[i].videoId, scores.entries[top[i].videoId]))
  {
    FinalsKeepAll(scores.entries, scores.order);
    TopSorted(Finals(scores.entries, scores.order), n);
    TopDistinct(Finals(scores.entries, scores.order), n);
  }

  /** A scored video the cut leaves out scores no higher than anything the
      ranked list keeps, and the list is then full. */
  lemma RankedDominates(scores: Scores, n: nat, v: int)
    requires ScoresValid(scores)
    requires v in scores.entries && v !in Ids(Ranked(scores, n))
    ensures var top := Ranked(scores, n);
      |top| == n && forall i :: 0 <= i < |top| ==> top[i].score >= FinalRec(v, scores.entries[v]).score
  {
    var finals := Finals(scores.entries, scores.order);
    FinalsKeepAll(scores.entries, scores.order);
    var k :| 0 <= k < |scores.order| && scores.order[k] == v;
    assert Ids(finals)[k] == v;
    TopDominates(finals, n, finals[k]);
  }

  /** The facts about the ranked list together. */
  lemma RankedFacts(scores: Scores, n: nat)
    requires ScoresValid(scores)
    ensures var top := Ranked(scores, n);
      && |top| == Min(n, |scores.order|)
      && SortedBy(top, ScoreGe)
      && Distinct(Ids(top))
      && (forall i :: 0 <= i < |top| ==>
            top[i].videoId in scores.entries && top[i] == FinalRec(top[i].videoId, scores.entries[top[i].videoId]))
      && (forall v :: v in scores.entries && v !in Ids(top) ==>
            |top| == n && forall i :: 0 <= i < |top| ==> top[i].score >= FinalRec(v, scores.entries[v]).score)
  {
    RankedSorted(scores, n);
    forall v | v in scores.entries && v !in Ids(Ranked(scores, n))
      ensures |Ranked(scores, n)| == n
      ensures forall i :: 0 <= i < |Ranked(scores, n)| ==> Ranked(scores, n)[i].score >= FinalRec(v, scores.entries[v]).score
    {
      RankedDominates(scores, n, v);
    }
  }

  /** `unseen_videos`: catalogue videos neither interacted with nor already
      recommended, in catalogue order. */
  function FillPool(catalog: seq<int>, seen: set<int>, top: seq<Rec>): seq<int>
  {
    Without(catalog, seen + IdSet(top))
  }

  /** `recs` is `top` followed, when `top` is short of `n`, by the first
      `n - |top|` videos of `pool`, each at a score of
      `random.uniform(0.1, 0.3)`, which is `0.1 + 0.2 * random()` and so in
      [0.1, 0.3). */
  ghost predicate FilledFrom(top: seq<Rec>, pool: seq<int>, n: nat, recs: seq<Rec>)
  {
    && |recs| == |top| + (if |top| < n then Min(n - |top|, |pool|) else 0)
    && recs[..|top|] == top
    && forall i :: |top| <= i < |recs| ==>
         recs[i].videoId == pool[i - |top|] && recs[i].reason == ExplorationUnseen && 0.1 <= recs[i].score < 0.3
  }

  /** The exploration fill at the end of `get_recommendations`. */
  method Fill(top: seq<Rec>, catalog: seq<int>, seen: set<int>, n: nat) returns (recs: seq<Rec>)
    ensures FilledFrom(top, FillPool(catalog, seen, top), n, recs)
  {
    recs := top;
    if |recs| < n {
      var unseen := FillPool(catalog, seen, top);
      var k := Min(n - |top|, |unseen|);
      var i := 0;
      while i < k
        invariant i <= k && |recs| == |top| + i
        invariant recs[..|top|] == top
        invariant forall j :: |top| <= j < |recs| ==>
          recs[j].videoId == unseen[j - |top|] && recs[j].reason == ExplorationUnseen && 0.1 <= recs[j].score < 0.3
      {
        var draw :| 0.0 <= draw < 1.0;
        var explorationScore := 0.1 + (0.3 - 0.1) * draw;
        recs := recs + [Rec(unseen[i], explorationScore, ExplorationUnseen)];
        i := i + 1;
      }
    }
  }

  /** The answer for a user with history, given the index in force and the
      videos excluded up front (none in the code as written). */
  ghost predicate Recommended(ix: Option<Index>, catalog: seq<int>, history: seq<Interaction>, n: nat,
                              extra: set<int>, recs: seq<Rec>)
    requires ix.Some? ==> IndexValid(ix.value)
  {
    var st := Accumulate(RealConfig, ix, catalog, history, extra);
    var top := Ranked(st.scores, n);
    FilledFrom(top, FillPool(catalog, st.seen, top), n, recs)
  }

  /** A filled answer starts with the ranked part, then takes only pool
      videos, and holds at most `n` entries beyond a longer ranked part. */
  lemma FilledFacts(top: seq<Rec>, pool: seq<int>, n: nat, recs: seq<Rec>)
    requires FilledFrom(top, pool, n, recs)
    ensures |top| <= |recs| && (|top| <= n ==> |recs| <= n)
    ensures forall i :: 0 <= i < |top| ==> recs[i] == top[i]
    ensures forall i :: |top| <= i < |recs| ==> recs[i].videoId in pool
  {
    assert forall i :: 0 <= i < |top| ==> recs[i] == recs[..|top|][i];
    forall i | |top| <= i < |recs|
      ensures recs[i].videoId in pool
    {
      assert recs[i].videoId == pool[i - |top|];
    }
  }

  /** A fill from a pool of distinct videos that avoids the ranked ones
      keeps the whole answer free of repeats. */
  lemma FilledDistinct(top: seq<Rec>, pool: seq<int>, n: nat, recs: seq<Rec>)
    requires FilledFrom(top, pool, n, recs)
    requires Distinct(Ids(top)) && Distinct(pool)
    requires forall v :: v in pool ==> v !in Ids(top)
    ensures Distinct(Ids(recs))
  {
    assert forall i :: 0 <= i < |top| ==> recs[i] == recs[..|top|][i] == top[i];
    forall i, j | 0 <= i < j < |recs|
      ensures Ids(recs)[i] != Ids(recs)[j]
    {
      if j >= |top| && i < |top| {
        assert recs[j].videoId == pool[j - |top|] && pool[j - |top|] in pool;
        assert Ids(top)[i] == recs[i].videoId && Ids(top)[i] in Ids(top);
      } else if i >= |top| {
        assert recs[i].videoId == pool[i - |top|] && recs[j].videoId == pool[j - |top|];
      } else {
        assert Ids(top)[i] != Ids(top)[j];
      }
    }
  }

  /** Every recommendation is a catalogue video, and no two coincide when
      the catalogue has no duplicates. */
  lemma RecommendedDistinct(ix: Option<Index>, catalog: seq<int>, history: seq<Interaction>, n: nat,
                            extra: set<int>, recs: seq<Rec>)
    requires ix.Some? ==> IndexValid(ix.value)
    requires Recommended(ix, catalog, history, n, extra, recs)
    ensures forall i :: 0 <= i < |recs| ==> recs[i].videoId in catalog
    ensures Distinct(catalog) ==> Distinct(Ids(recs))
  {
    var st := Accumulate(RealConfig, ix, catalog, history, extra);
    AccumulateFacts(RealConfig, ix, catalog, history, extra);
    var top := Ranked(st.scores, n);
    RankedSorted(st.scores, n);
    var pool := FillPool(catalog, st.seen, top);
    FilledFacts(top, pool, n, recs);
    if Distinct(catalog) {
      FilledDistinct(top, pool, n, recs);
    }
  }

  /** At most `n` recommendations; the ranked part is sorted by score and
      beats every scored video it leaves out; the fill holds no video of
      the history. */
  lemma RecommendedRanking(ix: Option<Index>, catalog: seq<int>, history: seq<Interaction>, n: nat,
                           extra: set<int>, recs: seq<Rec>)
    requires ix.Some? ==> IndexValid(ix.value)
    requires Recommended(ix, catalog, history, n, extra, recs)
    ensures var st := Accumulate(RealConfig, ix, catalog, history, extra);
      var top := Ranked(st.scores, n);
      && ScoresValid(st.scores)
      && |top| <= |recs| <= n
      && SortedBy(recs[..|top|], ScoreGe)
      && (forall v :: v in st.scores.entries && v !in Ids(top) ==>
            |top| == n && forall i :: 0 <= i < |top| ==> recs[i].score >= FinalRec(v, st.scores.entries[v]).score)
      && (forall i :: |top| <= i < |recs| ==> recs[i].videoId !in HistoryIds(history))
  {
    var st := Accumulate(RealConfig, ix, catalog, history, extra);
    AccumulateFacts(RealConfig, ix, catalog, history, extra);
    var top := Ranked(st.scores, n);
    RankedFacts(st.scores, n);
    FilledFacts(top, FillPool(catalog, st.seen, top), n, recs);
    assert recs[..|top|] == top;
  }

  /** With every history video excluded up front, nothing in the answer was
      already interacted with. */
  lemma CorrectedNeverRecommendsSeen(ix: Option<Index>, catalog: seq<int>, history: seq<Interaction>, n: nat, recs: seq<Rec>)
    requires ix.Some? ==> IndexValid(ix.value)
    requires Recommended(ix, catalog, history, n, HistoryIds(history), recs)
    ensures forall i :: 0 <= i < |recs| ==> recs[i].videoId !in HistoryIds(history)
  {
    var extra := HistoryIds(history);
    RecommendedRanking(ix, catalog, history, n, extra, recs);
    var st := Accumulate(RealConfig, ix, catalog, history, extra);
    AccumulateFacts(RealConfig, ix, catalog, history, extra);
    var top := Ranked(st.scores, n);
    RankedSorted(st.scores, n);
    UpfrontExclusionNeverScoresSeen(RealConfig, ix, catalog, history, extra);
    forall i | 0 <= i < |top|
      ensures recs[i].videoId !in HistoryIds(history)
    {
      assert recs[i] == recs[..|top|][i] == top[i];
    }
  }

  /** The code as written recommends a video the user has already watched:
      with the index and history of `SeenVideoCanBeScored` and `n = 1`, the
      only recommendation is video 2, the second video of the history. */
  lemma AsWrittenRecommendsSeen(recs: seq<Rec>)
    requires Recommended(Some(Index([[1.0, 0.5], [0.5, 1.0]], map[1 := 0, 2 := 1], map[0 := 1, 1 := 2])), [1, 2],
                         [Interaction(1, Some(100), None), Interaction(2, Some(100), None)], 1, {}, recs)
    ensures |recs| == 1 && recs[0].videoId == 2
    ensures recs[0].videoId in HistoryIds([Interaction(1, Some(100), None), Interaction(2, Some(100), None)])
  {
    var ix := Index([[1.0, 0.5], [0.5, 1.0]], map[1 := 0, 2 := 1], map[0 := 1, 1 := 2]);
    var history := [Interaction(1, Some(100), None), Interaction(2, Some(100), None)];
    SeenVideoCanBeScored(RealConfig);
    var st := Accumulate(RealConfig, Some(ix), [1, 2], history, {});
    AccumulateFacts(RealConfig, Some(ix), [1, 2], history, {});
    FirstVideoNeverScored(RealConfig, Some(ix), [1, 2], history, {});
    assert forall v :: v in st.scores.entries ==> v == 2;
    assert 2 in st.scores.order;
    RankedSorted(st.scores, 1);
    var top := Ranked(st.scores, 1);
    assert |top| == 1 && top[0].videoId in st.scores.entries;
    assert recs[0] == recs[..|top|][0] == top[0];
  }

  class HybridRecommender {
    var itemSimilarity: Option<seq<seq<real>>>
    var isFitted: bool
    var videoIdToIdx: map<int, nat>
    var idxToVideoId: map<nat, int>

    /** The index in force: the matrix with the two maps, once one exists. */
    function CurrentIndex(): Option<Index>
      reads this
    {
      if itemSimilarity.Some? then Some(Index(itemSimilarity.value, videoIdToIdx, idxToVideoId)) else None
    }

    /** A stored matrix is a well-formed index; `is_fitted` says whether one
        is stored; the maps stay empty until then. */
    ghost predicate Valid()
      reads this
    {
      && (CurrentIndex().Some? ==> IndexValid(CurrentIndex().value))
      && (isFitted <==> itemSimilarity.Some?)
      && (itemSimilarity.None? ==> videoIdToIdx == map[] && idxToVideoId == map[])
    }

    constructor ()
      ensures Valid()
      ensures itemSimilarity == None && !isFitted && videoIdToIdx == map[] && idxToVideoId == map[]
    {
      itemSimilarity := None;
      isFitted := false;
      videoIdToIdx := map[];
      idxToVideoId := map[];
    }

    /** `update_item_similarity`: an empty result set or a failing
        vectoriser leaves everything as it was; otherwise the index built
        from the rows replaces the stored one and `is_fitted` is set. */
    method UpdateItemSimilarity(rows: seq<VideoRow>, cosine: (seq<string>, nat, nat) -> real, fails: bool)
      requires Valid()
      modifies this
      ensures Valid()
      ensures Fit(rows, cosine, fails).Some? ==> CurrentIndex() == Fit(rows, cosine, fails) && isFitted
      ensures Fit(rows, cosine, fails).None? ==>
        itemSimilarity == old(itemSimilarity) && isFitted == old(isFitted)
        && videoIdToIdx == old(videoIdToIdx) && idxToVideoId == old(idxToVideoId)
    {
      if rows == [] {
        return;
      }
      var ids, texts := CollectRows(rows);
      if fails {
        return;
      }
      var ix := BuildIndex(ids, texts, cosine);
      itemSimilarity := Some(ix.similarity);
      videoIdToIdx := ix.idToIdx;
      idxToVideoId := ix.idxToId;
      isFitted := true;
    }

    /** `get_content_similarity`: 0.0 unless both videos are indexed, then
        their matrix entry (see `FittedSimilarityIsCosine`). */
    function GetContentSimilarity(a: int, b: int): (r: real)
      requires Valid()
      reads this
      ensures !isFitted || a !in videoIdToIdx || b !in videoIdToIdx ==> r == 0.0
      ensures isFitted ==> r == PairSimilarity(CurrentIndex().value, a, b)
    {
      if !isFitted || a !in videoIdToIdx || b !in videoIdToIdx then 0.0
      else itemSimilarity.value[videoIdToIdx[a]][videoIdToIdx[b]]
    }

    /** `get_recommendations` as written: the interacted set grows during
        the scoring loop. */
    method GetRecommendations(rows: seq<VideoRow>, cosine: (seq<string>, nat, nat) -> real, fails: bool,
                              history: seq<Interaction>, catalog: seq<int>, n: nat) returns (recs: seq<Rec>)
      requires Valid()
      modifies this
      ensures Valid()
      ensures old(isFitted) ==> CurrentIndex() == old(CurrentIndex()) && isFitted
      ensures !old(isFitted) && Fit(rows, cosine, fails).Some? ==> CurrentIndex() == Fit(rows, cosine, fails) && isFitted
      ensures !old(isFitted) && Fit(rows, cosine, fails).None? ==> CurrentIndex() == None && !isFitted
      ensures history == [] ==> recs == ColdStart(catalog[..Min(n, |catalog|)])
      ensures history != [] ==> Recommended(CurrentIndex(), catalog, history, n, {}, recs)
    {
      if !isFitted {
        UpdateItemSimilarity(rows, cosine, fails);
      }
      if history == [] {
        recs := ColdStartRecommendations(catalog[..Min(n, |catalog|)]);
        return;
      }
      var st := AccumulateScores(RealConfig, CurrentIndex(), catalog, history, {});
      var finals := FinalScores(st.scores);
      var top := Top(finals, n);
      recs := Fill(top, catalog, st.seen, n);
    }

    /** `get_recommendations` with the history excluded up front: the
        behaviour the "Don't recommend already seen videos" check intends. */
    method GetRecommendationsCorrected(rows: seq<VideoRow>, cosine: (seq<string>, nat, nat) -> real, fails: bool,
                                       history: seq<Interaction>, catalog: seq<int>, n: nat) returns (recs: seq<Rec>)
      requires Valid()
      modifies this
      ensures Valid()
      ensures old(isFitted) ==> CurrentIndex() == old(CurrentIndex()) && isFitted
      ensures !old(isFitted) && Fit(rows, cosine, fails).Some? ==> CurrentIndex() == Fit(rows, cosine, fails) && isFitted
      ensures !old(isFitted) && Fit(rows, cosine, fails).None? ==> CurrentIndex() == None && !isFitted
      ensures history == [] ==> recs == ColdStart(catalog[..Min(n, |catalog|)])
      ensures history != [] ==> Recommended(CurrentIndex(), catalog, history, n, HistoryIds(history), recs)
      ensures forall i :: 0 <= i < |recs| ==> recs[i].videoId !in HistoryIds(history)
    {
      if !isFitted {
        UpdateItemSimilarity(rows, cosine, fails);
      }
      if history == [] {
        recs := ColdStartRecommendations(catalog[..Min(n, |catalog|)]);
        return;
      }
      var st := AccumulateScores(RealConfig, CurrentIndex(), catalog, history, HistoryIds(history));
      var finals := FinalScores(st.scores);
      var top := Top(finals, n);
      recs := Fill(top, catalog, st.seen, n);
      CorrectedNeverRecommendsSeen(CurrentIndex(), catalog, history, n, recs);
    }
  }
}
