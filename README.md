# Recommendation engine of a short-video service, modelled in Dafny

The service recommends videos to users. It learns from feedback: how much of each video was watched, and whether it was liked or disliked. Three ranking strategies compete inside it, and this project models all three:

- **Multi-armed bandit.** Rewards are kept per video ("arm"). Selection uses epsilon-greedy or UCB1.
  - `BanditReal` models `api/bandit_model_real.py`.
  - `BanditSimple` models the cumulative-reward bandit of `api/bandit_model.py`, which `api/server.py` copies. It also covers the reward derivation of the server's `/interaction` endpoint.
- **Hybrid content-based recommender.** It builds an item-to-item similarity index over the video texts. It scores candidates by their similarity to the user's history, weighted by watch percentage and like/dislike.
  - `Similarity` models the index.
  - `HybridScoring` models the scoring loop that both variants share.
  - `HybridReal` models `api/hybrid_model_real.py`.
  - `HybridSimple` models `api/hybrid_model.py` and its copy in the server.
- **Two-tower model.** It builds user and item embeddings and scores a pair by their cosine similarity. When either side has no embedding, it falls back to a cold-start estimate.
  - `TwoTower` models `api/two_tower_model.py`.
  - `ServerTwoTower` models the TF-IDF variant in `api/server.py` and the `/recommend/twoTower` ranking.

`VideoUtils` models the video numbering helpers of `api/video_utils.py`. `Common`, `Sorting` and `ArmStats` hold what several strategies share:

- recommendation records;
- draws without replacement;
- a stable descending sort, which is what Python's `list.sort(key=..., reverse=True)` does;
- arm statistics.

Objects whose fields the source updates in place are modelled as classes, and their in-place updates as methods with `modifies` clauses. The classes are the recommenders and the model objects. Selection and scoring loops are methods with loop invariants. Each of them is proved against a specification function or predicate, and the properties of those are proved as lemmas.

The database, the numerical libraries and the random-number generator are not modelled. What the model takes in their place:

- **Database queries and the video folder listing:** inputs, as sequences, sets, maps or functions in query order.
- **TF-IDF, cosine similarity, scaling, SVD, norms and the UCB confidence width:** function parameters.
- **Random draws:** nondeterministic choices within the range the source draws from.

Where the prose design of the system and the code differ, the model follows the code:

- An unknown bandit strategy is not rejected. `set_strategy` falls back to epsilon-greedy (`api/bandit_model_real.py:157-164`).
- The real bandit's exploitation never labels a pick "cold start". A candidate without arm data counts as average reward 0.0, so the first candidate wins when no arm data exists (`api/bandit_model_real.py:96-109`).
- Hybrid cold start differs by variant:
  - In `api/hybrid_model.py:67-69` and `api/server.py:292-295` it is a random sample with random scores, not decreasing scores.
  - In `api/hybrid_model_real.py:177-185` the scores decrease, as `0.6 - 0.05 * i`.
- A negative `n` is not rejected anywhere in the code. The model takes `n` as a natural number.

## Model

| member | source | states |
|---|---|---|
| Common.Range | api/video_utils.py:36 | `range(lo, hi)`: length `hi - lo`; position i holds `lo + i` |
| Common.RangeMembers | api/video_utils.py:36 | x is in `range(lo, hi)` exactly when `lo <= x < hi` |
| Common.Without | api/bandit_model.py:29 | the candidate list keeps the catalogue order; v is in it exactly when v is in the catalogue and not interacted |
| Common.RemoveFirst | api/bandit_model_real.py:112 | `list.remove(x)` on a member shortens the list by one, loses no other value and adds none |
| Common.RemoveFirstMultiset | api/bandit_model_real.py:112 | removing keeps every other element: the multiset loses exactly one x |
| Common.DrawnMultiset | api/bandit_model_real.py:84-112 | picking one at a time and removing each pick from the pool splits the pool's multiset into the picks and what remains |
| Common.DrawnWithoutReplacementFacts | api/bandit_model_real.py:84-112 | so the picks are pool members, a sub-multiset of the pool and no more than its size |
| Common.DrawnDistinct | api/bandit_model_real.py:84-112 | from a pool without repeats, the picks are pairwise distinct and none remains in the pool |
| Common.DrawnLeft | api/bandit_model_real.py:84-112 | from a pool without repeats, what is left has no repeats and holds none of the picks |
| Common.MeanBounds | api/two_tower_model.py:70 | a mean of values in [lo, hi] lies in [lo, hi] |
| Common.BlankAt | api/server.py:190 | `not s.strip()` holds exactly when every character is whitespace |
| Common.BlankAppend | api/server.py:190 | a concatenation is blank exactly when both parts are |
| Sorting.SortDesc | api/bandit_model_real.py:184 | the sort returns a permutation of its input |
| Sorting.SortDescSorted | api/bandit_model_real.py:184 | under a total preorder, the result is ordered non-increasingly |
| Sorting.TakeDominates | api/hybrid_model_real.py:159-162 | an element of a sorted list left out of the first k is ranked below every kept element |
| Sorting.DroppedRanksBelow | api/hybrid_model.py:94-98 | after sorting and cutting to k, an input element not kept means the input was longer than k, and each of the k kept ranks at least as high |
| Sorting.PermutationKeepsKeysDistinct | api/bandit_model_real.py:184 | sorting keeps the video ids distinct |
| ArmStats.Updated | api/bandit_model_real.py:27-39 | a new arm becomes count 1 with average = reward; an existing arm gets count + 1 and `avg * count == old_avg * old_count + reward` |
| ArmStats.ReplayIsMean | api/bandit_model_real.py:27-39 | after k updates from nothing, count is k and the average is the mean of the k rewards |
| ArmStats.ReplayTotals | api/bandit_model_real.py:27-39 | after replaying rewards, `avg * count` is the starting total plus the rewards' sum |
| ArmStats.UpdatedCumulative | api/bandit_model.py:11-15 | count + 1, total reward + r, and average = total / count |
| ArmStats.FeedCumulativeTotals | api/bandit_model.py:11-15 | feeding k rewards adds k to the count and their sum to the total, keeping average = total / count |
| ArmStats.ReplayCumulativeIsMean | api/bandit_model.py:11-15 | from a fresh arm, k rewards give the mean of the k rewards |
| ArmStats.CountSumUpdate | api/bandit_model_real.py:41 | updating one arm's count by +1 raises the sum of counts by exactly 1 |
| ArmStats.SumCounts | api/bandit_model_real.py:17 | the loop summing the arms' counts computes `CountSum(arms)`, which is non-negative |
| ArmStats.CountSumNonNegative | api/bandit_model_real.py:17 | the sum of counts is never negative |
| ArmStats.SumTotalRewards | api/bandit_model_real.py:206-209 | the loop computes the sum of `avg * count` over all arms |
| ArmStats.RegretIsSumOfGaps | api/bandit_model_real.py:206-213 | `optimal * Σcount - Σ(avg * count)` equals the sum over arms of `count * (optimal - avg)` |
| ArmStats.GapsNonNegative | api/bandit_model_real.py:206-213 | when no arm's average exceeds the optimal reward, the sum of gaps is non-negative |
| BanditReal.ParseStrategy | api/bandit_model_real.py:157-164 | the strategy becomes UCB exactly when the name is `"ucb"`; every other name gives epsilon-greedy |
| BanditReal.FirstBest | api/bandit_model_real.py:96-107 | the scan with strict `>` picks an index no candidate beats, and every earlier candidate scores strictly lower (ties go to the first) |
| BanditReal.BestCandidate | api/bandit_model_real.py:96-107 | the running-best loop returns the candidate `FirstBest` names |
| BanditReal.GreedyPickIsBest | api/bandit_model_real.py:96-107 | the exploitation pick has maximal `avg_reward` among the candidates (arm-less count as 0.0), and all earlier ones are strictly lower |
| BanditReal.UcbPrefersUnplayed | api/bandit_model_real.py:132-146 | if some candidate is unplayed, UCB picks an unplayed arm, and every candidate before it has been played |
| BanditReal.UcbScore | api/bandit_model_real.py:127-140 | the score is infinite exactly for an unplayed arm; with a non-negative `ucb_c` and confidence width it is never below the average reward |
| BanditReal.EpsilonPick | api/bandit_model_real.py:88-112 | an epsilon-greedy pick comes from the pool; an exploration pick needs epsilon > 0 and scores 0.0, an exploitation pick needs epsilon < 1 and scores the arm's average |
| BanditReal.UcbPick | api/bandit_model_real.py:124-152 | a UCB pick comes from the pool and is labelled exploration exactly when its arm is unplayed |
| BanditReal.Unseen | api/bandit_model_real.py:53-61 | v is a candidate exactly when it is catalogued, at most `max_videos` and not interacted; distinct when the catalogue is |
| BanditReal.CandidatePool | api/bandit_model_real.py:64-66 | with no unseen candidate, the pool is the ids `1..min(max_videos, n)`; otherwise it is the unseen videos |
| BanditReal.BanditRecommender.constructor | api/bandit_model_real.py:10-17 | epsilon and c are the given ones, the strategy is epsilon-greedy, the arms are the stored ones and `total_pulls` is their count sum |
| BanditReal.BanditRecommender.UpdateArm | api/bandit_model_real.py:27-41 | the arm is updated as `ArmStats.Updated` says, no other arm changes, `total_pulls` grows by 1 and `total_pulls == Σcount` is kept |
| BanditReal.BanditRecommender.EpsilonGreedySelection | api/bandit_model_real.py:80-114 | `min(n, |pool|)` picks drawn without replacement. At its turn, each pick either explores (score 0.0) or is the first best-average candidate of the remaining pool (any candidate if that one's id is 0), scored with its average. Picks are distinct and from the pool |
| BanditReal.BanditRecommender.UcbSelection | api/bandit_model_real.py:116-155 | `min(n, |pool|)` picks without replacement. Each is the first maximum of the UCB score, where unplayed arms score +∞. The reason is "UCB exploration" exactly when the arm is unplayed, and the score is the average, not the UCB value |
| BanditReal.BanditRecommender.GetRecommendations | api/bandit_model_real.py:45-78 | builds the candidate pool with its fallback and dispatches to UCB for strategy `ucb`, to epsilon-greedy otherwise; results are distinct |
| BanditReal.BanditRecommender.SetStrategy | api/bandit_model_real.py:157-164 | the new strategy is `ParseStrategy(name)` |
| BanditReal.BanditRecommender.GetArmStats | api/bandit_model_real.py:166-175 | one report per arm, with the arm's count and average and `total_reward == avg * count` |
| BanditReal.BanditRecommender.GetBestArms | api/bandit_model_real.py:177-186 | at most n arms, all with count > 0, distinct, non-increasing by `(avg_reward, count)`; a played arm left out means n were returned, all ranking at least as high |
| BanditReal.PlayedArms | api/bandit_model_real.py:179-181 | exactly the arms with count > 0, each once |
| BanditReal.TopArmsFacts | api/bandit_model_real.py:184-186 | sorting and cutting the played arms gives at most n distinct played arms in order, dominating every played arm left out |
| BanditReal.BanditRecommender.ResetArms | api/bandit_model_real.py:196-197 | arms empty and `total_pulls == 0` |
| BanditReal.BanditRecommender.CalculateRegret | api/bandit_model_real.py:200-215 | 0 when `total_pulls == 0`; otherwise `max(0, optimal * total_pulls - Σ avg * count)`; never negative |
| BanditReal.RegretOfValidBandit | api/bandit_model_real.py:200-215 | with pulls equal to the count sum, the unclamped regret is the sum of per-arm gaps, non-negative when no average exceeds the optimum |
| BanditSimple.Known | api/bandit_model.py:41-43 | the candidates with arm records, in pool order |
| BanditSimple.ExploitationIsBestKnown | api/bandit_model.py:41-47 | the exploitation pick has the maximal average among known candidates; earlier known ones are strictly lower |
| BanditSimple.BanditRecommender.constructor | api/bandit_model.py:7-9 | the given epsilon and no arms |
| BanditSimple.BanditRecommender.UpdateArm | api/bandit_model.py:11-15 | the arm (fresh if absent) gets `UpdatedCumulative`; no other arm changes |
| BanditSimple.BanditRecommender.GetRecommendations | api/bandit_model.py:17-53 | `min(n, |available|)` picks without replacement from the catalogue minus the interacted ids. Each is random or the first best known candidate ("cold start" when none is known). Picks are never interacted, distinct when the catalogue is, and all labelled exploration when there are no arms |
| BanditSimple.Rewards | api/server.py:440-448 | no like reward for `liked == 0`; 1.0 for a like, -0.5 for any other non-zero value or an explicit null (a `liked` left out of the request defaults to 0 and gives no like reward); then `watched/100` when a watch percentage is present (0, 1 or 2 rewards) |
| BanditSimple.RewardsInRange | api/server.py:440-448 | for requests the table constraints admit, every reward lies in [-0.5, 1.0] |
| BanditSimple.SaveInteraction | api/server.py:416-453 | the request succeeds exactly when the table constraints admit it (otherwise the insert raises); on success the video's arm, fresh if absent, is fed its rewards in order, and it is created only when there is a reward; otherwise no arm changes |
| Similarity.CombinedText | api/hybrid_model_real.py:41-44 | `text + ' ' + labels`, missing parts empty |
| Similarity.CollectRows | api/hybrid_model_real.py:41-44 | the collection loop yields the ids and combined texts of the rows in order |
| Similarity.IdToIdx | api/hybrid_model_real.py:52-53 | every listed id maps to a position holding it, and no later position holds it (last occurrence wins, as in a dict comprehension) |
| Similarity.IdxToId | api/hybrid_model_real.py:53-54 | positions 0..k-1 map to the ids at those positions |
| Similarity.IdToIdxOfDistinct | api/hybrid_model_real.py:52-53 | for distinct ids, id i maps to position i |
| Similarity.Matrix | api/hybrid_model_real.py:48-50 | a k×k matrix whose (i, j) entry is the cosine similarity of texts i and j |
| Similarity.BuildIndex | api/hybrid_model_real.py:48-54 | a valid index: each indexed id maps to a position, and that position maps back to the id |
| Similarity.Fit | api/hybrid_model_real.py:34-56 | an index is produced exactly when there are video rows and vectorising does not fail |
| Similarity.FittedSimilarityIsCosine | api/hybrid_model_real.py:48-54 | after a successful fit, the similarity of rows i and j is the cosine of their texts |
| Similarity.PairSimilaritySymmetric | api/hybrid_model_real.py:187-195 | with a symmetric cosine, the similarity lookup is symmetric |
| HybridScoring.Weight | api/hybrid_model_real.py:95-101 | `watched/100`, ×1.5 if liked, × the dislike factor (0.2 here, 0.3 in `api/hybrid_model.py:77-81`) if disliked; in [0, 1.5] |
| HybridScoring.HistoryIds | api/hybrid_model_real.py:92 | v is an interacted id exactly when some history entry has it |
| HybridScoring.HistoryIdsSnoc | api/hybrid_model_real.py:91-92 | each interaction adds its video to the interacted set |
| HybridScoring.Accumulate | api/hybrid_model_real.py:91-136 | the outer loop ends with the interacted set equal to the history's ids |
| HybridScoring.ScanRowStep | api/hybrid_model_real.py:113-136 | one more entry of the row adds `similarity * weight` to a video that is neither excluded nor, in this variant, outside the catalogue, and changes nothing otherwise |
| HybridScoring.ScanRowFacts | api/hybrid_model_real.py:108-136 | scanning one similarity row scores only catalogue videos outside the excluded set, keeps insertion order distinct and matching the entries, and leaves the other entries alone |
| HybridScoring.AccumulateFacts | api/hybrid_model_real.py:91-136 | after the loop the interacted set is the history's ids, the entries and the insertion order agree, and (in this variant) only catalogue videos are scored |
| HybridScoring.ScoreFrozenOnceSeen | api/hybrid_model_real.py:116-118 | once a history video has been processed, later interactions no longer change its score |
| HybridScoring.FirstVideoNeverScored | api/hybrid_model_real.py:116-118 | the first history video is never scored |
| HybridScoring.UpfrontExclusionNeverScoresSeen | api/hybrid_model_real.py:116-118 | with the exclusion set given up front, no excluded video is ever scored |
| HybridScoring.AccumulateCorrected | api/hybrid_model_real.py:116-118 | excluding the whole history up front scores no history video |
| HybridScoring.SkippedContributesNothing | api/hybrid_model_real.py:104-105 | an early dislike (disliked, `0 < watched < 20`) changes no score and is only marked as seen |
| HybridScoring.SeenVideoCanBeScored | api/hybrid_model_real.py:116-118 | for the two-video history in Findings, the second video, which the user watched, receives a score |
| HybridScoring.ScanSimilarities | api/hybrid_model_real.py:108-136 | the inner loop over one similarity row computes `ScanRow` |
| HybridScoring.AccumulateScores | api/hybrid_model_real.py:91-136 | the nested loops compute `Accumulate` |
| HybridScoring.Top | api/hybrid_model.py:94-98 | `sorted(...)[:n]`: `min(n, |recs|)` records, a sub-multiset of the input |
| HybridScoring.TopSorted | api/hybrid_model.py:94-98 | the top-n list has `min(n, |recs|)` entries from the input, ordered non-increasingly by score |
| HybridScoring.TopDistinct | api/hybrid_model.py:94-98 | the top-n list keeps ids distinct |
| HybridScoring.TopDominates | api/hybrid_model.py:94-98 | a scored video left out of the top n means exactly n kept, each scoring at least as high |
| HybridReal.ColdStart | api/hybrid_model_real.py:177-185 | the ids in order, each tagged cold start, starting at 0.6 and strictly decreasing |
| HybridReal.ColdStartRecommendations | api/hybrid_model_real.py:177-185 | the enumerate loop yields `ColdStart(ids)` |
| HybridReal.FinalRec | api/hybrid_model_real.py:140-156 | content = total / count; the boost lies in [0.1, 0.3], so the boosted suffix is always added; 3+ interactions give +0.3 |
| HybridReal.Finals | api/hybrid_model_real.py:140-156 | one final record per scored video, in insertion order |
| HybridReal.FinalsKeepAll | api/hybrid_model_real.py:140-156 | every scored video appears in the finals, in insertion order |
| HybridReal.FinalScores | api/hybrid_model_real.py:140-156 | the loop over `video_scores` computes `Finals` |
| HybridReal.RankedSorted | api/hybrid_model_real.py:159-162 | the ranked prefix has `min(n, #scored)` distinct entries, sorted non-increasingly, each the final record of a scored video |
| HybridReal.RankedDominates | api/hybrid_model_real.py:159-162 | a scored video not kept ranks below all n kept ones |
| HybridReal.RankedFacts | api/hybrid_model_real.py:159-162 | both together: sorted, distinct, scored, and dominating every scored video left out |
| HybridReal.Fill | api/hybrid_model_real.py:165-173 | keeps the ranked list and, when short of n, appends the first catalogue videos neither interacted nor listed, in catalogue order, at scores in [0.1, 0.3) |
| HybridReal.FilledDistinct | api/hybrid_model_real.py:165-173 | the filled list has no duplicate ids |
| HybridReal.RecommendedDistinct | api/hybrid_model_real.py:59-175 | every recommendation is a catalogue video, and no video repeats |
| HybridReal.RecommendedRanking | api/hybrid_model_real.py:159-173 | at most n entries; the content prefix is `Ranked` and sorted; fill items are unseen, at scores in [0.1, 0.3) |
| HybridReal.CorrectedNeverRecommendsSeen | api/hybrid_model_real.py:116-118 | with the history excluded up front, nothing recommended is in the history |
| HybridReal.AsWrittenRecommendsSeen | api/hybrid_model_real.py:116-118 | on the Findings input, the single recommendation is video 2, which the user has watched |
| HybridReal.HybridRecommender.constructor | api/hybrid_model_real.py:10-15 | unfitted, no matrix, empty maps |
| HybridReal.HybridRecommender.UpdateItemSimilarity | api/hybrid_model_real.py:17-57 | a successful fit installs the index and sets fitted; empty data or a failure leaves every field unchanged |
| HybridReal.HybridRecommender.GetContentSimilarity | api/hybrid_model_real.py:187-195 | 0.0 when unfitted or either id is unindexed; otherwise the matrix entry of the two ids |
| HybridReal.HybridRecommender.GetRecommendations | api/hybrid_model_real.py:59-175 | refits when unfitted; an empty history gives `ColdStart` of the first `min(n, |catalogue|)` videos; otherwise the scored, ranked and filled list |
| HybridReal.HybridRecommender.GetRecommendationsCorrected | api/hybrid_model_real.py:59-175 | the same, with the whole history excluded, so no history video is recommended |
| HybridSimple.ContentRecs | api/hybrid_model.py:94-98 | one record per scored video in order, with its summed score, tagged content-based |
| HybridSimple.ColdStart | api/hybrid_model.py:67-69 | a sample of `min(n, |catalogue|)` distinct catalogue videos, tagged cold start, scores in [0, 1) |
| HybridSimple.FillRandomly | api/hybrid_model.py:100-105 | appends random unseen, not-yet-listed catalogue videos at score 0.1 until n or the pool runs out |
| HybridSimple.FilledRandomlyFacts | api/hybrid_model.py:100-105 | fill items are from the catalogue and not seen; the list stays distinct |
| HybridSimple.RecommendedFacts | api/hybrid_model.py:74-105 | at most n, distinct, content part sorted and dominating every scored video left out, fill items unseen |
| HybridSimple.CorrectedNeverRecommendsSeen | api/hybrid_model.py:89 | with the history excluded up front, nothing recommended is in the history |
| HybridSimple.HybridRecommender.constructor | api/hybrid_model.py:8-11 | no index, unfitted |
| HybridSimple.HybridRecommender.UpdateItemSimilarity | api/hybrid_model.py:13-46 | a successful fit installs the index; otherwise nothing changes |
| HybridSimple.HybridRecommender.GetRecommendations | api/hybrid_model.py:48-106 | refits when unfitted; empty history gives the cold-start sample; with history but no index, the attribute error; otherwise the scored, ranked and filled list |
| HybridSimple.HybridRecommender.GetRecommendationsCorrected | api/hybrid_model.py:48-106 | the same with the history excluded up front; no history video is recommended |
| TwoTower.WatchPercents | api/two_tower_model.py:70 | the watch percentages, a missing one read as 0 |
| TwoTower.CountsFit | api/two_tower_model.py:71-73 | likes plus dislikes, and completions (> 80%), never exceed the number of interactions |
| TwoTower.Engagements | api/two_tower_model.py:78-85 | per-interaction engagement `watched/100`, ×1.5 liked, ×0.5 disliked |
| TwoTower.ContentParts | api/two_tower_model.py:90-95 | one content string per interaction with text, never more than the interactions |
| TwoTower.BlankJoined | api/two_tower_model.py:39-43 | `f"{text} {labels}"` is blank exactly when both text and labels are |
| TwoTower.VideoFeatures | api/two_tower_model.py:23-44 | "" without a row; otherwise the combined text, blank exactly when text and labels both are |
| TwoTower.UserFeatures | api/two_tower_model.py:46-96 | empty history gives no features (`{}`); otherwise `total_interactions` is the number of interactions |
| TwoTower.FeatureRanges | api/two_tower_model.py:68-87 | like, dislike and completion ratios lie in [0, 1], like + dislike ≤ 1, and the engagement score lies in [0, 1.5] |
| TwoTower.GetUserInteractionFeatures | api/two_tower_model.py:78-95 | the accumulation loops compute `UserFeatures` |
| TwoTower.FeatureVector | api/two_tower_model.py:133-140 | six features in fixed order |
| TwoTower.Pad | api/two_tower_model.py:169-174 | width exactly `dim`, the row as prefix, zeros after |
| TwoTower.CollectUsers | api/two_tower_model.py:129-142 | the users with interactions and their feature rows, in order |
| TwoTower.CollectVideos | api/two_tower_model.py:149-153 | the videos with non-blank text and their texts, in order |
| TwoTower.UserPassFacts | api/two_tower_model.py:129-142 | after any prefix of the users, the loop has kept exactly the users with interactions, in order, with the feature rows of those same users |
| TwoTower.VideoPassFacts | api/two_tower_model.py:149-153 | after any prefix of the videos, the loop has kept exactly the videos with non-blank text, in order, with the texts of those same videos |
| TwoTower.RowsForAt | api/two_tower_model.py:129-142 | row i of the feature matrix is the feature row of the i-th kept user |
| TwoTower.TextsForAt | api/two_tower_model.py:149-153 | text i of the corpus is the text of the i-th kept video |
| TwoTower.ZipMap | api/two_tower_model.py:182-185 | the keys are exactly the ids |
| TwoTower.ZipMapLast | api/two_tower_model.py:182-185 | an id takes the value at its last position among the ids |
| TwoTower.PaddedTower | api/two_tower_model.py:164-174 | each user row is the scaled row padded to 64 |
| TwoTower.UserEmbeddingsShape | api/two_tower_model.py:129-142 | a user has an embedding exactly when it has interactions, and every user embedding has width 64 |
| TwoTower.UserEmbeddingAt | api/two_tower_model.py:164-183 | the embedding of the i-th trained user is its scaled features followed by zeros |
| TwoTower.VideoEmbeddingsOnlyNonBlank | api/two_tower_model.py:149-185 | only videos with non-blank text get embeddings, each the reduced TF-IDF row of its text |
| TwoTower.ColdStartBase | api/two_tower_model.py:222-242 | 0.5 with no history; otherwise the mean of 0.8 / 0.2 / 0.5 per like / dislike / neutral; in [0.2, 0.8] |
| TwoTower.Preference | api/two_tower_model.py:229-233 | the CASE gives a value in [0.2, 0.8]: 0.8 exactly for a like, 0.2 exactly for a dislike |
| TwoTower.ColdStartPrediction | api/two_tower_model.py:244-246 | clamped into [0, 1]; equals base + noise whenever the noise is within ±0.2 |
| TwoTower.SimilarityScore | api/two_tower_model.py:212-217 | in [0, 1]; `(sim + 1)/2` for similarities in [-1, 1] |
| TwoTower.SimilarityScoreMonotone | api/two_tower_model.py:212-217 | a higher similarity never gives a lower score |
| TwoTower.Train | api/two_tower_model.py:115-187 | succeeds exactly when there are interactions, videos, trained users and non-blank video texts and the numerics do not fail; then the maps are the trained towers; user embeddings have width 64 |
| TwoTower.TwoTowerModel.constructor | api/two_tower_model.py:12-21 | empty maps, unfitted |
| TwoTower.TwoTowerModel.UpdateEmbeddings | api/two_tower_model.py:98-193 | on success both maps are replaced wholesale and fitted is set; every early return leaves maps and flag unchanged |
| TwoTower.TwoTowerModel.Predict | api/two_tower_model.py:195-217 | refits when unfitted; with both embeddings, the similarity score of their cosine; otherwise the cold-start prediction; always in [0, 1] |
| TwoTower.TwoTowerModel.GetUserEmbedding | api/two_tower_model.py:248-250 | present exactly when the user has an embedding, and then equal to it and of width 64 |
| TwoTower.TwoTowerModel.GetVideoEmbedding | api/two_tower_model.py:252-254 | present exactly when the video has an embedding, and equal to it |
| TwoTower.TwoTowerModel.GetModelStats | api/two_tower_model.py:256-263 | the fitted flag, the numbers of users and videos with embeddings, and dimension 64 |
| TwoTower.StatsAfterTraining | api/two_tower_model.py:182-185 | after training, the user and video counts are the numbers of trained users and videos |
| TwoTower.ZipMapSize | api/two_tower_model.py:182-185 | distinct ids give one entry each |
| ServerTwoTower.Trunc | api/server.py:154 | Python's `int()` on a float truncates toward zero |
| ServerTwoTower.Weight | api/server.py:146-151 | `(watched or 0)/100`, unchanged without a like flag, and in [0, 2] for a percentage the table admits |
| ServerTwoTower.Repetitions | api/server.py:153-154 | `range(int(weight * 5) + 1)` repeats at least once exactly when `weight * 5 > -1` |
| ServerTwoTower.WeightedContent | api/server.py:144-155 | every entry of the weighted list is the content of one of the rows |
| ServerTwoTower.UserText | api/server.py:140-156 | an empty history gives the empty text |
| ServerTwoTower.RepetitionsBounds | api/server.py:146-154 | each item is repeated `int(weight * 5) + 1` times, between 1 and 11, and 11 for a fully watched liked item |
| ServerTwoTower.EveryRowWeighted | api/server.py:140-156 | every interacted item's content occurs at least once in the weighted list |
| ServerTwoTower.GetUserFeatures | api/server.py:140-156 | the append loop computes `UserText` |
| ServerTwoTower.TwoTowerModel.CollectTexts | api/server.py:182-186 | the text of every video and every user, in order |
| ServerTwoTower.KeepNonBlank | api/server.py:189-190 | the texts that survive `if t.strip()` are all non-blank |
| ServerTwoTower.VideoRows | api/server.py:197 | the first `|videos|` rows of the matrix, as far as the matrix reaches |
| ServerTwoTower.UserRows | api/server.py:198 | the rows after the video rows |
| ServerTwoTower.AssignKeys | api/server.py:200-209 | a key is in the map after the guarded assignment loop exactly when it was before or is among the ids whose index lies below the matrix height |
| ServerTwoTower.AssignKeeps | api/server.py:200-209 | an id not assigned keeps its old embedding |
| ServerTwoTower.AssignLast | api/server.py:200-209 | an id's last assignment gives its embedding |
| ServerTwoTower.TwoTowerModel.StoreVideos | api/server.py:200-204 | video embeddings become `Assign(old, ids, rows)`; users and flag unchanged |
| ServerTwoTower.TwoTowerModel.StoreUsers | api/server.py:205-209 | user embeddings become `Assign(old, ids, rows)`; videos and flag unchanged |
| ServerTwoTower.TwoTowerModel.UpdateEmbeddings | api/server.py:158-211 | as written: the filtered matrix is sliced by the unfiltered counts, and rows are assigned by position in the unfiltered id lists; with no data or a failure nothing changes |
| ServerTwoTower.RefreshedKeys | api/server.py:197-209 | as written, a video or user receives an embedding when its position is below the slice height, whether or not its text was kept |
| ServerTwoTower.MisalignedEmbeddings | api/server.py:189-207 | on the Findings input, video 1 (blank) gets the row of video 2's text, video 2 gets the user's row and user 7 gets none |
| ServerTwoTower.MisalignedTexts | api/server.py:189-198 | on the Findings input the vectoriser is fitted on exactly two texts, video 2's and then the user's, and the user's text is not blank |
| ServerTwoTower.MisalignedUserText | api/server.py:128-156 | on the Findings input the user's text begins with video 2's content "cat " and is not blank |
| ServerTwoTower.KeepNonBlankAppend | api/server.py:189-190 | filtering distributes over concatenation |
| ServerTwoTower.KeptTexts | api/server.py:189-190 | filtering the texts equals taking the texts of the ids with non-blank text |
| ServerTwoTower.FittedTextsAligned | api/server.py:189-198 | the fitted corpus is the kept videos' texts followed by the kept users' texts |
| ServerTwoTower.FittedTextOwners | api/server.py:189-198 | row i of the fitted corpus belongs to kept video i, and the rows after them to the kept users |
| ServerTwoTower.TextOwners | api/server.py:189-198 | a corpus built as the texts of one id list followed by the texts of another has both lengths added, holds the i-th first text at i and the i-th second text right after all first texts |
| ServerTwoTower.AlignedKeys | api/server.py:189-209 | corrected: a video or user gets an embedding exactly when its text is non-blank (or it had one) |
| ServerTwoTower.AlignedVideoRowsStored | api/server.py:197-204 | corrected: each kept video receives the matrix row of its own text |
| ServerTwoTower.AlignedUserRowsStored | api/server.py:198-209 | corrected: each kept user receives the matrix row of its own text |
| ServerTwoTower.TwoTowerModel.UpdateEmbeddingsCorrected | api/server.py:158-211 | corrected update: rows are assigned to the owners of the kept texts |
| ServerTwoTower.DotNonNegative | api/server.py:220-221 | the dot product of non-negative vectors is non-negative |
| ServerTwoTower.Dot | api/server.py:220-221 | `np.dot`: zero whenever the first vector is all zeros |
| ServerTwoTower.CosineScore | api/server.py:220-221 | `dot / (|u| * |v| + 1e-8)`, non-negative for non-negative vectors |
| ServerTwoTower.TwoTowerModel.Predict | api/server.py:213-223 | a fitted model is left alone; an unfitted one runs the as-written `update_embeddings`, and stays unfitted when that stores nothing; then, on the resulting maps, the guarded cosine of both embeddings (an error when their widths differ), otherwise a value in [0, 0.5) |
| ServerTwoTower.AfterPredictSettles | api/server.py:213-216 | only the first prediction can change the model: a second one from the state the first left changes nothing |
| ServerTwoTower.AvailableVideos | api/server.py:464-471 | v is available exactly when it is a video the user has not interacted with |
| ServerTwoTower.RecommendTwoTower | api/server.py:455-505 | with no available video, `[]` and the model untouched; otherwise the model ends as one `predict` leaves it, every score is what `predict` answers for that video from the final maps, the answer is the top 5 of all available videos by score, and an error means some available video's embedding has a different width from the user's |
| ServerTwoTower.TwoTowerRanking | api/server.py:486-497 | at most 5, all available, never interacted, distinct, sorted non-increasingly, dominating every scored video left out |
| ServerTwoTower.JoinRepeatedPrefix | api/server.py:154-156 | a repeated content string begins the weighted text |
| VideoUtils.Strip | api/video_utils.py:15 | the result is a slice `s[i..j]` of the input with only whitespace before i and after j, neither starts nor ends with whitespace, and is empty exactly when the input is all whitespace |
| VideoUtils.ParseInt | api/video_utils.py:15-18 | a parse succeeds exactly when the stripped string is an optional sign followed by digits with single underscores between them; its value is the digits' decimal value, negated after `-` |
| VideoUtils.LeadingSpaces | api/video_utils.py:15 | the number of leading whitespace characters: all of them whitespace, and the next one not |
| VideoUtils.TrailingSpaces | api/video_utils.py:15 | the number of trailing whitespace characters: all of them whitespace, and the one before not |
| VideoUtils.StripBlank | api/video_utils.py:15 | `strip()` gives "" exactly for a blank string |
| VideoUtils.StripUnspaced | api/video_utils.py:15 | a string with no whitespace at either end is its own strip |
| VideoUtils.DigitsParse | api/video_utils.py:15 | `int()` reads a non-empty run of digits as its decimal value |
| VideoUtils.RemoveAll | api/video_utils.py:15 | `replace(pat, '')` only removes characters (a sub-multiset, never longer), and leaves a string without an occurrence of `pat` unchanged |
| VideoUtils.RemoveSuffix | api/video_utils.py:15 | removing `pat` from a string followed by `pat` gives the string back when none of its characters can start `pat` (so `<digits>.mp4` gives the digits) |
| VideoUtils.VideoNumber | api/video_utils.py:11-18 | a file gives a number only when its name ends in `.mp4` |
| VideoUtils.VideoNumbers | api/video_utils.py:11-18 | the parsed numbers, never more than the files |
| VideoUtils.OtherNamesIgnored | api/video_utils.py:11 | a name not ending in `.mp4` adds no number |
| VideoUtils.NumberedFile | api/video_utils.py:15 | `<n>.mp4` parses as n |
| VideoUtils.MaxOf | api/video_utils.py:19 | `max`: a member no smaller than any other |
| VideoUtils.AvailableVideoCount | api/video_utils.py:5-27 | `min(max number or 0, db_count)`, so never above the database count |
| VideoUtils.GetAvailableVideoCount | api/video_utils.py:9-27 | the parsing loop computes `AvailableVideoCount` |
| VideoUtils.CountCoversNumberedFile | api/video_utils.py:9-27 | a file `<n>.mp4` makes the count at least `min(n, db_count)` |
| VideoUtils.Rotate | api/video_utils.py:40 | `cycle[k:] + cycle[:k]` keeps the length |
| VideoUtils.RotatePermutes | api/video_utils.py:40 | rotation is a permutation |
| VideoUtils.RotateAt | api/video_utils.py:39-40 | position i of the rotation holds `(k + i) % len` |
| VideoUtils.RotateDistinct | api/video_utils.py:40 | rotation keeps elements distinct |
| VideoUtils.CycleDegenerate | api/video_utils.py:33-34 | `max_videos == 0` gives `[1, 2, 3, 4]`; a negative one an empty cycle |
| VideoUtils.VideoCycle | api/video_utils.py:29-42 | `[1, 2, 3, 4]` for a maximum of 0, `[]` for a negative one, otherwise `max` videos forming a permutation of `1..max`; a missing maximum is the available count |
| VideoUtils.CycleIsRotation | api/video_utils.py:36-40 | the cycle is `1..max` rotated when the last video is in it, otherwise `1..max` unchanged |
| VideoUtils.CyclePermutes | api/video_utils.py:36-40 | a permutation of `1..max` of length max, each video once |
| VideoUtils.CycleFrom | api/video_utils.py:38-40 | position i holds `(last % max + i) % max + 1` |
| VideoUtils.CycleRotation | api/video_utils.py:38-40 | with the last video in `1..max`, the cycle starts at `last % max + 1` and ends with `last`; None, 0 or out of range leaves `1..max` |

## Left out

- SQLite access and every query are inputs:
  - `api/database.py`, `update_bandit_arm` and `get_bandit_arms` are not part of this model;
  - the database write at api/bandit_model_real.py:24 and the `DELETE` of `reset_arms` are left out.
- The arithmetic of scikit-learn and numpy is left out: TF-IDF, cosine similarity, `TruncatedSVD`, `StandardScaler`, `np.linalg.norm`, and `sqrt`/`log` in UCB. These are function parameters, and floats are mathematical reals with no rounding.
- Random draws are nondeterministic choices within the drawn range. Their distributions are not modelled.
- The background refresh thread and `model_lock` (api/server.py:401-414) are left out, because their point is concurrency.
- FastAPI routing, HTTP exceptions, pydantic classes and `print` logging are left out.
- `story_generator/` is not part of this model.
- `get_model_stats` of api/bandit_model_real.py:217-230 is not modelled. It is a report built from the modelled `get_best_arms` and `calculate_regret`.
- Other details the model omits:
  - The order in which Python iterates over the arm dictionary is left unspecified. `GetArmStats` returns a map, and `GetBestArms` may list played arms in any order before sorting.
  - `strip()` and `int()` know only the ASCII whitespace characters, and `int()` only ASCII digits; Unicode spaces (such as U+00A0 or U+2003) and non-ASCII digits are not modelled.
  - The SVD branch for users (api/two_tower_model.py:175-176) is unreachable, because 6 features < 64, and is not modelled.
  - A negative `n` is not modelled: `n` is a natural number throughout, so Python's negative slicing is not covered.
- The server's in-file `HybridRecommender` and `BanditRecommender` (api/server.py:225-393) are the same code as api/hybrid_model.py and api/bandit_model.py, and they are modelled through `HybridSimple` and `BanditSimple`.
- ServerTwoTower.RecommendTwoTower: on an error only the `Err` and which widths clash are stated; the partial list of scores is not returned by the source and is not described.
- ServerTwoTower.TwoTowerModel.Predict: the norm is a parameter that is assumed non-negative. Only the sign of the score is proved, not that it lies in [-1, 1].
- TwoTower.ColdStartPrediction: the normal noise is a parameter, and the contract states the result only up to the clamp.

## Findings

| source | as written | input that shows it | evidently intended | confidence | as-written member | corrected member |
|---|---|---|---|---|---|---|
| api/hybrid_model_real.py:116-118 | the interacted set grows inside the loop, so a candidate is excluded only if it appears at or before the current history entry (the same in api/hybrid_model.py:89 and api/server.py:318) | catalogue [1, 2], similarity 0.5 between them, history: video 1 watched 100%, then video 2 watched 100%, n = 1; the answer recommends video 2 | never recommend a video the user has already interacted with | not executed | HybridScoring.SeenVideoCanBeScored, HybridReal.AsWrittenRecommendsSeen | HybridScoring.UpfrontExclusionNeverScoresSeen, HybridReal.CorrectedNeverRecommendsSeen, HybridReal.HybridRecommender.GetRecommendationsCorrected |
| api/server.py:189-207 | blank texts are filtered out before TF-IDF, but the matrix rows are then assigned by position in the unfiltered video and user lists | video 1 with blank text, video 2 with text "cat", user 7 who fully watched and liked video 2 (so the user text repeats "cat"): video 1 gets the row of video 2's text, video 2 gets the user's row, user 7 gets none | each video and user receives the row of its own text | not executed | ServerTwoTower.MisalignedEmbeddings, ServerTwoTower.TwoTowerModel.UpdateEmbeddings | ServerTwoTower.TwoTowerModel.UpdateEmbeddingsCorrected, ServerTwoTower.AlignedKeys, ServerTwoTower.FittedTextOwners |
