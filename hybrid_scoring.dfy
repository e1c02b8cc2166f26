/** The item-similarity scoring loop shared by the hybrid recommenders of
    api/hybrid_model_real.py, api/hybrid_model.py and api/server.py:225-338.

    For each interaction of the user's history, in order, the video is added
    to the interacted set, a weight is derived from the watch percentage and
    the like flag, and, when the video has a row in the similarity matrix,
    every video of that row that is not yet interacted with receives
    `similarity * weight`. The interacted set grows inside the loop, so a
    video listed LATER in the history can still be scored by an earlier
    interaction. `Accumulate` takes an extra exclusion set: empty, it is the
    loop as written; the full set of history ids gives the loop the source
    evidently intends. */
module HybridScoring {
  import opened Common
  import opened Sorting
  import opened Similarity

  /** What differs between the variants: the dislike multiplier (0.2 in the
      primary variant, 0.3 in the others), whether a disliked interaction
      watched for under 20% is skipped, and whether candidates outside the
      catalogue are dropped. */
  datatype Config = Config(dislikeFactor: real, skipEarlyDislike: bool, catalogOnly: bool)

  const RealConfig := Config(0.2, true, true)
  const SimpleConfig := Config(0.3, false, false)

  /** One entry of `video_scores`; the older variants keep only the content
      score, which is the first field here. */
  datatype Entry = Entry(content: real, count: nat, totalWeight: real)

  /** `video_scores`: the entries and the order in which their keys were
      first inserted (the order `items()` yields them in). */
  datatype Scores = Scores(entries: map<int, Entry>, order: seq<int>)

  /** Scoring state after a prefix of the history: the scores and the
      interacted set. */
  datatype State = State(scores: Scores, seen: set<int>)

  const Empty := State(Scores(map[], []), {})

  ghost predicate ScoresValid(s: Scores)
  {
    && Distinct(s.order)
    && (forall v :: v in s.entries <==> v in s.order)
    && (forall v :: v in s.entries ==> s.entries[v].count >= 1)
  }

  function Lookup(s: Scores, v: int): Option<Entry>
  {
    if v in s.entries then Some(s.entries[v]) else None
  }

  /** `interaction_weight`: `(watched_percent or 0) / 100`, times 1.5 for a
      like and times the dislike factor for a dislike. */
  function Weight(cfg: Config, it: Interaction): (w: real)
    ensures it.liked != Some(1) && it.liked != Some(-1) ==> w == WatchedOrZero(it.watched) as real / 100.0
    ensures 0 <= WatchedOrZero(it.watched) <= 100 && 0.0 <= cfg.dislikeFactor <= 1.0 ==> 0.0 <= w <= 1.5
  {
    var base := WatchedOrZero(it.watched) as real / 100.0;
    if it.liked == Some(1) then base * 1.5
    else if it.liked == Some(-1) then
      assert 0.0 <= base <= 1.0 && 0.0 <= cfg.dislikeFactor <= 1.0 ==> 0.0 <= base * cfg.dislikeFactor <= base by {
        if 0.0 <= base <= 1.0 && 0.0 <= cfg.dislikeFactor <= 1.0 {
          assert base * cfg.dislikeFactor <= base * 1.0;
        }
      }
      base * cfg.dislikeFactor
    else base
  }

  /** `liked == -1 and watched_percent and watched_percent < 20`: a non-zero
      percentage under 20 on a disliked video. */
  predicate Skipped(cfg: Config, it: Interaction)
  {
    cfg.skipEarlyDislike && it.liked == Some(-1) && it.watched.Some? && it.watched.value != 0 && it.watched.value < 20
  }

  /** Adding `score` (from an interaction of weight `w`) to video `v`. */
  function AddTo(s: Scores, v: int, score: real, w: real): Scores
  {
    if v in s.entries then
      var e := s.entries[v];
      Scores(s.entries[v := Entry(e.content + score, e.count + 1, e.totalWeight + w)], s.order)
    else
      Scores(s.entries[v := Entry(0.0 + score, 0 + 1, 0.0 + w)], s.order + [v])
  }

  /** The inner loop over the first `j` entries of one similarity row. */
  function ScanRow(cfg: Config, ix: Index, catalog: seq<int>, excluded: set<int>, w: real,
                   row: seq<real>, acc: Scores, j: nat): Scores
    requires IndexValid(ix) && j <= |row| == |ix.similarity|
    decreases j
  {
    if j == 0 then acc
    else
      var prev := ScanRow(cfg, ix, catalog, excluded, w, row, acc, j - 1);
      var v := ix.idxToId[j - 1];
      if v in excluded || (cfg.catalogOnly && v !in catalog) then prev
      else AddTo(prev, v, row[j - 1] * w, w)
  }

  /** One iteration of the outer loop. The video joins the interacted set
      first, so it never scores itself; `extra` is excluded as well. */
  function Step(cfg: Config, ix: Option<Index>, catalog: seq<int>, extra: set<int>, st: State, it: Interaction): State
    requires ix.Some? ==> IndexValid(ix.value)
  {
    var seen := st.seen + {it.videoId};
    if Skipped(cfg, it) then State(st.scores, seen)
    else if ix.Some? && it.videoId in ix.value.idToIdx then
      var row := ix.value.similarity[ix.value.idToIdx[it.videoId]];
      State(ScanRow(cfg, ix.value, catalog, seen + extra, Weight(cfg, it), row, st.scores, |row|), seen)
    else State(st.scores, seen)
  }

  /** The outer loop over the history. */
  function Accumulate(cfg: Config, ix: Option<Index>, catalog: seq<int>, history: seq<Interaction>, extra: set<int>): (st: State)
    requires ix.Some? ==> IndexValid(ix.value)
    ensures st.seen == HistoryIds(history)
    decreases |history|
  {
    if history == [] then Empty
    else
      HistoryIdsSnoc(history);
      Step(cfg, ix, catalog, extra, Accumulate(cfg, ix, catalog, history[..|history| - 1], extra), history[|history| - 1])
  }

  function HistoryIds(history: seq<Interaction>): (ids: set<int>)
    ensures forall v :: v in ids <==> exists t :: 0 <= t < |history| && history[t].videoId == v
  {
    set t | 0 <= t < |history| :: history[t].videoId
  }

  // ----- what one row scan does -----

  /** A row scan keeps the scores well formed, never touches an excluded
      video, and only adds videos that are not excluded (and are in the
      catalogue when the variant demands it). */
  lemma {:induction false} ScanRowFacts(cfg: Config, ix: Index, catalog: seq<int>, excluded: set<int>, w: real,
                                        row: seq<real>, acc: Scores, j: nat)
    requires IndexValid(ix) && j <= |row| == |ix.similarity|
    requires ScoresValid(acc)
    ensures var r := ScanRow(cfg, ix, catalog, excluded, w, row, acc, j);
      && ScoresValid(r)
      && (forall v :: v in excluded ==> Lookup(r, v) == Lookup(acc, v))
      && (forall v :: v in r.entries && v !in acc.entries ==> v !in excluded && (cfg.catalogOnly ==> v in catalog))
      && (forall v :: v in acc.entries ==> v in r.entries)
    decreases j
  {
    if j > 0 {
      ScanRowFacts(cfg, ix, catalog, excluded, w, row, acc, j - 1);
      var prev := ScanRow(cfg, ix, catalog, excluded, w, row, acc, j - 1);
      var v := ix.idxToId[j - 1];
      if !(v in excluded || (cfg.catalogOnly && v !in catalog)) {
        var r := AddTo(prev, v, row[j - 1] * w, w);
        if v !in prev.entries {
          assert v !in prev.order;
          forall a, b | 0 <= a < b < |r.order|
            ensures r.order[a] != r.order[b]
          {
            if b == |prev.order| {
              assert r.order[a] == prev.order[a];
            }
          }
        }
      }
    }
  }

  /** The state after the history is well formed: every interacted video is
      in the interacted set, and in the primary variant every scored video
      is in the catalogue. */
  lemma {:induction false} AccumulateFacts(cfg: Config, ix: Option<Index>, catalog: seq<int>, history: seq<Interaction>, extra: set<int>)
    requires ix.Some? ==> IndexValid(ix.value)
    ensures var st := Accumulate(cfg, ix, catalog, history, extra);
      && ScoresValid(st.scores)
      && st.seen == HistoryIds(history)
      && (cfg.catalogOnly ==> forall v :: v in st.scores.entries ==> v in catalog)
    decreases |history|
  {
    if history != [] {
      var front := history[..|history| - 1];
      var it := history[|history| - 1];
      AccumulateFacts(cfg, ix, catalog, front, extra);
      var st := Accumulate(cfg, ix, catalog, front, extra);
      var seen := st.seen + {it.videoId};
      if !Skipped(cfg, it) && ix.Some? && it.videoId in ix.value.idToIdx {
        var row := ix.value.similarity[ix.value.idToIdx[it.videoId]];
        ScanRowFacts(cfg, ix.value, catalog, seen + extra, Weight(cfg, it), row, st.scores, |row|);
      }
    }
  }

  /** The ids of a history grow by the id of its last interaction. */
  lemma HistoryIdsSnoc(history: seq<Interaction>)
    requires history != []
    ensures HistoryIds(history) == HistoryIds(history[..|history| - 1]) + {history[|history| - 1].videoId}
  {
    var front := history[..|history| - 1];
    forall v | v in HistoryIds(history)
      ensures v in HistoryIds(front) + {history[|history| - 1].videoId}
    {
      var t :| 0 <= t < |history| && history[t].videoId == v;
      if t < |front| {
        assert front[t] == history[t];
      }
    }
    forall v | v in HistoryIds(front)
      ensures v in HistoryIds(history)
    {
      var t :| 0 <= t < |front| && front[t].videoId == v;
      assert history[t] == front[t];
    }
  }

  lemma PrefixUnfold(history: seq<Interaction>, len: nat)
    requires 0 < len <= |history|
    ensures history[..len][..len - 1] == history[..len - 1]
    ensures history[..len][len - 1] == history[len - 1]
  {
  }

  /** The weaker guarantee the loop as written gives: once a video has been
      met in the history, its score is frozen. Every contribution to the
      score of `history[t].videoId` comes from interactions before
      position t. */
  lemma {:induction false} ScoreFrozenOnceSeen(cfg: Config, ix: Option<Index>, catalog: seq<int>,
                                               history: seq<Interaction>, extra: set<int>, t: nat, len: nat)
    requires ix.Some? ==> IndexValid(ix.value)
    requires t < len <= |history|
    ensures Lookup(Accumulate(cfg, ix, catalog, history[..len], extra).scores, history[t].videoId)
         == Lookup(Accumulate(cfg, ix, catalog, history[..t], extra).scores, history[t].videoId)
    decreases len
  {
    var v := history[t].videoId;
    PrefixUnfold(history, len);
    var before := Accumulate(cfg, ix, catalog, history[..len - 1], extra);
    var it := history[len - 1];
    assert Accumulate(cfg, ix, catalog, history[..len], extra) == Step(cfg, ix, catalog, extra, before, it);
    if len - 1 > t {
      ScoreFrozenOnceSeen(cfg, ix, catalog, history, extra, t, len - 1);
      AccumulateFacts(cfg, ix, catalog, history[..len - 1], extra);
      assert history[..len - 1][t] == history[t];
      assert v in before.seen;
    }
    var seen := before.seen + {it.videoId};
    assert v in seen;
    AccumulateFacts(cfg, ix, catalog, history[..len - 1], extra);
    if !Skipped(cfg, it) && ix.Some? && it.videoId in ix.value.idToIdx {
      var row := ix.value.similarity[ix.value.idToIdx[it.videoId]];
      ScanRowFacts(cfg, ix.value, catalog, seen + extra, Weight(cfg, it), row, before.scores, |row|);
    }
  }

  /** Consequence: the video of the first interaction is never scored. */
  lemma FirstVideoNeverScored(cfg: Config, ix: Option<Index>, catalog: seq<int>, history: seq<Interaction>, extra: set<int>)
    requires ix.Some? ==> IndexValid(ix.value)
    requires |history| > 0
    ensures history[0].videoId !in Accumulate(cfg, ix, catalog, history, extra).scores.entries
  {
    ScoreFrozenOnceSeen(cfg, ix, catalog, history, extra, 0, |history|);
    assert history[..|history|] == history;
    assert history[..0] == [];
  }

  /** With every history id excluded from the start, no video of the
      history is ever scored. */
  lemma {:induction false} UpfrontExclusionNeverScoresSeen(cfg: Config, ix: Option<Index>, catalog: seq<int>,
                                                           history: seq<Interaction>, extra: set<int>)
    requires ix.Some? ==> IndexValid(ix.value)
    ensures forall v :: v in extra ==> v !in Accumulate(cfg, ix, catalog, history, extra).scores.entries
    decreases |history|
  {
    if history != [] {
      var front := history[..|history| - 1];
      var it := history[|history| - 1];
      UpfrontExclusionNeverScoresSeen(cfg, ix, catalog, front, extra);
      AccumulateFacts(cfg, ix, catalog, front, extra);
      var st := Accumulate(cfg, ix, catalog, front, extra);
      var seen := st.seen + {it.videoId};
      if !Skipped(cfg, it) && ix.Some? && it.videoId in ix.value.idToIdx {
        var row := ix.value.similarity[ix.value.idToIdx[it.videoId]];
        ScanRowFacts(cfg, ix.value, catalog, seen + extra, Weight(cfg, it), row, st.scores, |row|);
        forall v | v in extra
          ensures v !in Accumulate(cfg, ix, catalog, history, extra).scores.entries
        {
          assert Lookup(st.scores, v) == None;
        }
      }
    }
  }

  /** The corrected loop: excluding every history id up front. */
  function AccumulateCorrected(cfg: Config, ix: Option<Index>, catalog: seq<int>, history: seq<Interaction>): (st: State)
    requires ix.Some? ==> IndexValid(ix.value)
    ensures forall t :: 0 <= t < |history| ==> history[t].videoId !in st.scores.entries
  {
    UpfrontExclusionNeverScoresSeen(cfg, ix, catalog, history, HistoryIds(history));
    Accumulate(cfg, ix, catalog, history, HistoryIds(history))
  }

  /** A skipped interaction contributes to no score but counts as seen. */
  lemma SkippedContributesNothing(cfg: Config, ix: Option<Index>, catalog: seq<int>, extra: set<int>, st: State, it: Interaction)
    requires ix.Some? ==> IndexValid(ix.value)
    requires Skipped(cfg, it)
    ensures Step(cfg, ix, catalog, extra, st, it) == State(st.scores, st.seen + {it.videoId})
  {
  }

  /** The loop as written lets a video seen later in the history be scored:
      in every variant, a two-video catalogue with similarity 0.5 between
      them, and a history that watches video 1 and then video 2 in full,
      gives video 2 a score. */
  lemma SeenVideoCanBeScored(cfg: Config)
    ensures var ix := Index([[1.0, 0.5], [0.5, 1.0]], map[1 := 0, 2 := 1], map[0 := 1, 1 := 2]);
      var history := [Interaction(1, Some(100), None), Interaction(2, Some(100), None)];
      && IndexValid(ix)
      && 2 in HistoryIds(history)
      && Lookup(Accumulate(cfg, Some(ix), [1, 2], history, {}).scores, 2) == Some(Entry(0.5, 1, 1.0))
  {
    var ix := Index([[1.0, 0.5], [0.5, 1.0]], map[1 := 0, 2 := 1], map[0 := 1, 1 := 2]);
    var h := [Interaction(1, Some(100), None), Interaction(2, Some(100), None)];
    assert h[..1] == [h[0]] && [h[0]][..0] == [];
    assert h[..|h| - 1] == [h[0]];
    var s1 := Step(cfg, Some(ix), [1, 2], {}, Empty, h[0]);
    assert Accumulate(cfg, Some(ix), [1, 2], [h[0]], {}) == s1;
    var w := Weight(cfg, h[0]);
    assert w == 1.0;
    var row0 := [1.0, 0.5];
    assert ScanRow(cfg, ix, [1, 2], {1}, w, row0, Scores(map[], []), 1) == Scores(map[], []);
    assert ScanRow(cfg, ix, [1, 2], {1}, w, row0, Scores(map[], []), 2) == Scores(map[2 := Entry(0.5, 1, 1.0)], [2]);
    assert s1 == State(Scores(map[2 := Entry(0.5, 1, 1.0)], [2]), {1});
    var acc := Scores(map[2 := Entry(0.5, 1, 1.0)], [2]);
    var row1 := [0.5, 1.0];
    assert ScanRow(cfg, ix, [1, 2], {1, 2}, w, row1, acc, 1) == acc;
    assert ScanRow(cfg, ix, [1, 2], {1, 2}, w, row1, acc, 2) == acc;
    assert h[1].videoId == 2;
  }

  // ----- the loops -----

  /** The inner `for idx, similarity in enumerate(similarities)` loop. */
  /** One more entry of the row scanned. */
  lemma ScanRowStep(cfg: Config, ix: Index, catalog: seq<int>, excluded: set<int>, w: real,
                    row: seq<real>, acc: Scores, j: nat)
    requires IndexValid(ix) && j < |row| == |ix.similarity|
    ensures var prev := ScanRow(cfg, ix, catalog, excluded, w, row, acc, j);
      var v := ix.idxToId[j];
      ScanRow(cfg, ix, catalog, excluded, w, row, acc, j + 1) ==
        if v in excluded || (cfg.catalogOnly && v !in catalog) then prev else AddTo(prev, v, row[j] * w, w)
  {
  }

  method ScanSimilarities(cfg: Config, ix: Index, catalog: seq<int>, excluded: set<int>, w: real,
                          row: seq<real>, acc: Scores) returns (scores: Scores)
    requires IndexValid(ix) && |row| == |ix.similarity|
    ensures scores == ScanRow(cfg, ix, catalog, excluded, w, row, acc, |row|)
  {
    var entries, order := acc.entries, acc.order;
    var j := 0;
    while j < |row|
      invariant j <= |row|
      invariant Scores(entries, order) == ScanRow(cfg, ix, catalog, excluded, w, row, acc, j)
    {
      var v := ix.idxToId[j];
      ScanRowStep(cfg, ix, catalog, excluded, w, row, acc, j);
      if v in excluded {
      } else if cfg.catalogOnly && v !in catalog {
      } else {
        var weighted := row[j] * w;
        if v !in entries {
          entries := entries[v := Entry(0.0, 0, 0.0)];
          order := order + [v];
        }
        var e := entries[v];
        entries := entries[v := Entry(e.content + weighted, e.count + 1, e.totalWeight + w)];
      }
      j := j + 1;
    }
    scores := Scores(entries, order);
  }

  /** The outer `for video_id, watched_percent, liked in user_interactions`
      loop: builds `video_scores` and `interacted_videos`. */
  method AccumulateScores(cfg: Config, ix: Option<Index>, catalog: seq<int>, history: seq<Interaction>, extra: set<int>)
    returns (st: State)
    requires ix.Some? ==> IndexValid(ix.value)
    ensures st == Accumulate(cfg, ix, catalog, history, extra)
  {
    var scores := Scores(map[], []);
    var interacted: set<int> := {};
    var i := 0;
    while i < |history|
      invariant i <= |history|
      invariant State(scores, interacted) == Accumulate(cfg, ix, catalog, history[..i], extra)
    {
      var it := history[i];
      PrefixUnfold(history, i + 1);
      interacted := interacted + {it.videoId};
      var w := Weight(cfg, it);
      if Skipped(cfg, it) {
      } else if ix.Some? && it.videoId in ix.value.idToIdx {
        var row := ix.value.similarity[ix.value.idToIdx[it.videoId]];
        scores := ScanSimilarities(cfg, ix.value, catalog, interacted + extra, w, row, scores);
      }
      i := i + 1;
    }
    assert history[..|history|] == history;
    st := State(scores, interacted);
  }

  // ----- ranking by score -----

  /** The sort key `lambda x: x[1]` with `reverse=True`. */
  predicate ScoreGe(a: Rec, b: Rec)
  {
    a.score >= b.score
  }

  lemma ScoreGeTotal()
    ensures TotalPreorder(ScoreGe)
  {
  }

  /** Sorting by score, highest first, and keeping the first `n`. */
  function Top(recs: seq<Rec>, n: nat): (top: seq<Rec>)
    ensures |top| == Min(n, |recs|)
    ensures multiset(top) <= multiset(recs)
  {
    var sorted := SortDesc(recs, ScoreGe);
    var m := Min(n, |recs|);
    assert sorted == sorted[..m] + sorted[m..];
    sorted[..m]
  }

  /** The cut keeps `min(n, |recs|)` of the records, in non-increasing
      score order. */
  lemma TopSorted(recs: seq<Rec>, n: nat)
    ensures |Top(recs, n)| == Min(n, |recs|)
    ensures SortedBy(Top(recs, n), ScoreGe)
    ensures forall i :: 0 <= i < |Top(recs, n)| ==> Top(recs, n)[i] in recs
  {
    var sorted := SortDesc(recs, ScoreGe);
    ScoreGeTotal();
    SortDescSorted(recs, ScoreGe);
    TakeDominates(sorted, ScoreGe, Min(n, |recs|));
    forall i | 0 <= i < |sorted|
      ensures sorted[i] in recs
    {
      assert sorted[i] in multiset(sorted);
    }
  }

  /** Records with distinct videos stay distinct through the sort and cut. */
  lemma TopDistinct(recs: seq<Rec>, n: nat)
    requires Distinct(Ids(recs))
    ensures Distinct(Ids(Top(recs, n)))
  {
    var sorted := SortDesc(recs, ScoreGe);
    var top := Top(recs, n);
    var key := (r: Rec) => r.videoId;
    assert forall i, j :: 0 <= i < j < |recs| ==> key(recs[i]) != key(recs[j]) by {
      forall i, j | 0 <= i < j < |recs|
        ensures key(recs[i]) != key(recs[j])
      {
        assert Ids(recs)[i] != Ids(recs)[j];
      }
    }
    PermutationKeepsKeysDistinct(recs, sorted, key);
    forall i, j | 0 <= i < j < |top|
      ensures Ids(top)[i] != Ids(top)[j]
    {
      assert key(sorted[i]) != key(sorted[j]);
    }
  }

  /** A record whose video the cut leaves out scores no higher than
      anything kept, and the cut is then full. */
  lemma TopDominates(recs: seq<Rec>, n: nat, x: Rec)
    requires x in recs && x.videoId !in Ids(Top(recs, n))
    ensures |Top(recs, n)| == n
    ensures forall i :: 0 <= i < n ==> Top(recs, n)[i].score >= x.score
  {
    var top := Top(recs, n);
    assert x !in top by {
      forall i | 0 <= i < |top|
        ensures top[i] != x
      {
        assert Ids(top)[i] == top[i].videoId;
      }
    }
    ScoreGeTotal();
    DroppedRanksBelow(recs, ScoreGe, Min(n, |recs|), x);
  }

  /** The ids of a list of recommendations, as a set
      (`[r[0] for r in recommendations]` used as a membership test). */
  function IdSet(recs: seq<Rec>): (s: set<int>)
    ensures forall v :: v in s <==> v in Ids(recs)
  {
    set i | 0 <= i < |recs| :: Ids(recs)[i]
  }
}
