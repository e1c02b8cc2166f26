/** The persistent multi-armed bandit of api/bandit_model_real.py: incremental
    mean arms, an epsilon-greedy and a UCB1 selector drawing without
    replacement from a candidate pool, and the reporting helpers.

    The database is left out: the arms loaded at start-up, the catalogue of
    video ids, the user's interacted ids and the available-video count are
    inputs. `random.random()` and `random.choice` are nondeterministic choices
    (any value in [0, 1), any remaining candidate); the UCB confidence width
    `sqrt(log(max(total_pulls, 1)) / count)` is the parameter `width`. */
module BanditReal {
  import opened Common
  import opened ArmStats
  import opened Sorting

  datatype Strategy = EpsilonGreedy | Ucb

  /** `set_strategy`: only "ucb" selects UCB; "epsilon_greedy" and every
      unknown name select epsilon-greedy. */
  function ParseStrategy(name: string): (s: Strategy)
    ensures s == Ucb <==> name == "ucb"
  {
    if name == "epsilon_greedy" then EpsilonGreedy
    else if name == "ucb" then Ucb
    else EpsilonGreedy
  }

  /** `arms.get(video_id, {'count': 0, 'avg_reward': 0.0})` */
  function ArmOf(arms: map<int, Arm>, v: int): Arm
  {
    if v in arms then arms[v] else Arm(0, 0.0)
  }

  /** A selector's score: a real value, or `float('inf')`. */
  datatype Score = Finite(value: real) | Infinite

  /** The strict `>` between scores. */
  predicate Above(a: Score, b: Score)
  {
    match (a, b)
    case (Infinite, Finite(_)) => true
    case (Finite(x), Finite(y)) => x > y
    case _ => false
  }

  /** The index the scan `if score > best_score: best = ...` settles on,
      starting from `-inf`: the first candidate of maximal score. */
  function FirstBest(p: seq<int>, score: int -> Score): (k: nat)
    requires |p| > 0
    ensures k < |p|
    ensures forall j :: 0 <= j < |p| ==> !Above(score(p[j]), score(p[k]))
    ensures forall j :: 0 <= j < k ==> Above(score(p[k]), score(p[j]))
    decreases |p|
  {
    if |p| == 1 then 0
    else
      var front := p[..|p| - 1];
      var k := FirstBest(front, score);
      assert forall j :: 0 <= j < |front| ==> front[j] == p[j];
      if Above(score(p[|p| - 1]), score(p[k])) then |p| - 1 else k
  }

  /** The exploitation score of epsilon-greedy: the average reward, 0.0 for a
      video with no arm. */
  function AvgScore(arms: map<int, Arm>): int -> Score
  {
    v => Finite(ArmOf(arms, v).avgReward)
  }

  /** The UCB1 score: `+inf` for an unplayed video, else
      `avg_reward + ucb_c * width(max(total_pulls, 1), count)`. */
  function UcbScore(arms: map<int, Arm>, ucbC: real, totalPulls: int, width: (int, nat) -> real): (s: int -> Score)
    ensures forall v :: s(v).Infinite? <==> ArmOf(arms, v).count == 0
    ensures ucbC >= 0.0 && (forall t, k :: width(t, k) >= 0.0) ==>
      forall v :: s(v).Finite? ==> s(v).value >= ArmOf(arms, v).avgReward
  {
    v =>
      var a := ArmOf(arms, v);
      if a.count == 0 then Infinite else Finite(a.avgReward + ucbC * width(Max(totalPulls, 1), a.count))
  }

  /** The scan over the candidates that keeps the running best video and
      score; `None` stands for the initial `best_video = None`. */
  method BestCandidate(p: seq<int>, score: int -> Score) returns (best: Option<int>)
    requires |p| > 0
    ensures best == Some(p[FirstBest(p, score)])
  {
    best := None;
    var bestScore: Option<Score> := None;
    ghost var k: nat := 0;
    var j := 0;
    while j < |p|
      invariant 0 <= j <= |p|
      invariant j == 0 ==> best.None? && bestScore.None?
      invariant j > 0 ==> k == FirstBest(p[..j], score) && best == Some(p[k]) && bestScore == Some(score(p[k]))
    {
      var s := score(p[j]);
      assert p[..j + 1][..j] == p[..j];
      if bestScore.None? || Above(s, bestScore.value) {
        best, bestScore, k := Some(p[j]), Some(s), j;
      }
      j := j + 1;
    }
    assert p[..|p|] == p;
  }

  /** One exploitation pick of epsilon-greedy from the pool `p`: the first
      best-average candidate, unless its id is 0 (falsy in the source), in
      which case any candidate; scored with its average reward. */
  ghost predicate GreedyPick(arms: map<int, Arm>, p: seq<int>, r: Rec)
    requires |p| > 0
  {
    var b := p[FirstBest(p, AvgScore(arms))];
    && (if b != 0 then r.videoId == b else r.videoId in p)
    && r.score == ArmOf(arms, r.videoId).avgReward
  }

  /** One pick of epsilon-greedy at round `i` from the pool `p`. A random
      draw below epsilon explores (possible only when epsilon > 0); any other
      draw exploits (possible only when epsilon < 1). */
  ghost predicate EpsilonPick(arms: map<int, Arm>, epsilon: real, p: seq<int>, i: nat, r: Rec)
    ensures EpsilonPick(arms, epsilon, p, i, r) ==>
      && r.videoId in p
      && (r.reason == ExplorationRandom ==> epsilon > 0.0 && r.score == 0.0)
      && (r.reason != ExplorationRandom ==> epsilon < 1.0 && r.score == ArmOf(arms, r.videoId).avgReward)
  {
    && |p| > 0
    && ((epsilon > 0.0 && r.videoId in p && r.score == 0.0 && r.reason == ExplorationRandom)
     || (epsilon < 1.0 && GreedyPick(arms, p, r)
         && r.reason == (if i == 0 then ExploitationBest else Exploitation)))
  }

  /** One pick of UCB1 from the pool `p`: the first candidate of maximal UCB
      score (any candidate if that one's id is 0), labelled by whether it was
      unplayed, and scored with its average reward rather than its UCB value. */
  ghost predicate UcbPick(arms: map<int, Arm>, ucbC: real, totalPulls: int, width: (int, nat) -> real, p: seq<int>, r: Rec)
    ensures UcbPick(arms, ucbC, totalPulls, width, p, r) ==>
      r.videoId in p && (r.reason == UcbExploration <==> ArmOf(arms, r.videoId).count == 0)
  {
    && |p| > 0
    && var b := p[FirstBest(p, UcbScore(arms, ucbC, totalPulls, width))];
    && (if b != 0 then r.videoId == b else r.videoId in p)
    && r.score == ArmOf(arms, r.videoId).avgReward
    && r.reason == (if ArmOf(arms, r.videoId).count == 0 then UcbExploration else UcbExploitation)
  }

  /** What `_epsilon_greedy_selection(pool, n)` may return: `min(n, |pool|)`
      picks drawn without replacement, each one an epsilon-greedy pick from
      the pool left at its turn. */
  ghost predicate EpsilonOutcome(arms: map<int, Arm>, epsilon: real, pool: seq<int>, n: nat, recs: seq<Rec>)
  {
    && |recs| == Min(n, |pool|)
    && DrawnWithoutReplacement(pool, recs)
    && forall i :: 0 <= i < |recs| ==> EpsilonPick(arms, epsilon, After(pool, recs[..i]), i, recs[i])
  }

  /** What `_ucb_selection(pool, n)` may return. */
  ghost predicate UcbOutcome(arms: map<int, Arm>, ucbC: real, totalPulls: int, width: (int, nat) -> real,
                             pool: seq<int>, n: nat, recs: seq<Rec>)
  {
    && |recs| == Min(n, |pool|)
    && DrawnWithoutReplacement(pool, recs)
    && forall i :: 0 <= i < |recs| ==> UcbPick(arms, ucbC, totalPulls, width, After(pool, recs[..i]), recs[i])
  }

  /** UCB1 plays every unplayed candidate before any played one: if some
      candidate has count 0, the UCB choice has count 0 and every candidate
      before it has been played. */
  lemma UcbPrefersUnplayed(arms: map<int, Arm>, ucbC: real, totalPulls: int, width: (int, nat) -> real,
                           p: seq<int>, j: nat)
    requires j < |p| && ArmOf(arms, p[j]).count == 0
    ensures ArmOf(arms, p[FirstBest(p, UcbScore(arms, ucbC, totalPulls, width))]).count == 0
    ensures forall i :: 0 <= i < FirstBest(p, UcbScore(arms, ucbC, totalPulls, width)) ==> ArmOf(arms, p[i]).count > 0
  {
    var score := UcbScore(arms, ucbC, totalPulls, width);
    var k := FirstBest(p, score);
    assert score(p[j]) == Infinite;
    assert !Above(score(p[j]), score(p[k]));
    forall i | 0 <= i < k
      ensures ArmOf(arms, p[i]).count > 0
    {
      assert Above(score(p[k]), score(p[i]));
    }
  }

  /** The exploitation choice has the largest average reward among the
      candidates, and strictly larger than every candidate before it. */
  lemma GreedyPickIsBest(arms: map<int, Arm>, p: seq<int>)
    requires |p| > 0
    ensures var k := FirstBest(p, AvgScore(arms));
      && (forall j :: 0 <= j < |p| ==> ArmOf(arms, p[j]).avgReward <= ArmOf(arms, p[k]).avgReward)
      && (forall j :: 0 <= j < k ==> ArmOf(arms, p[j]).avgReward < ArmOf(arms, p[k]).avgReward)
  {
    var score := AvgScore(arms);
    var k := FirstBest(p, score);
    forall j | 0 <= j < |p|
      ensures ArmOf(arms, p[j]).avgReward <= ArmOf(arms, p[k]).avgReward
    {
      assert !Above(score(p[j]), score(p[k]));
    }
    forall j | 0 <= j < k
      ensures ArmOf(arms, p[j]).avgReward < ArmOf(arms, p[k]).avgReward
    {
      assert Above(score(p[k]), score(p[j]));
    }
  }

  /** The SQL filter `videoId <= max_videos AND videoId NOT IN (interacted)`
      over the catalogue, in catalogue order. */
  function Unseen(catalog: seq<int>, interacted: set<int>, maxVideos: int): (r: seq<int>)
    ensures forall v :: v in r <==> v in catalog && v <= maxVideos && v !in interacted
    ensures Distinct(catalog) ==> Distinct(r)
  {
    if catalog == [] then []
    else
      var rest := Unseen(catalog[1..], interacted, maxVideos);
      var v := catalog[0];
      assert forall x :: x in catalog <==> x == v || x in catalog[1..];
      assert Distinct(catalog) ==> Distinct(catalog[1..]) && v !in catalog[1..];
      if v <= maxVideos && v !in interacted then [v] + rest else rest
  }

  /** The candidate pool of `get_recommendations`: the unseen catalogue
      videos, or, when there is none, ids `1 .. min(max_videos, n)`. */
  function CandidatePool(catalog: seq<int>, interacted: set<int>, maxVideos: int, n: nat): (pool: seq<int>)
    ensures Distinct(catalog) ==> Distinct(pool)
    ensures forall v :: v in pool <==>
      if exists u :: u in catalog && u <= maxVideos && u !in interacted
      then v in catalog && v <= maxVideos && v !in interacted
      else 1 <= v <= Min(maxVideos, n)
  {
    var unseen := Unseen(catalog, interacted, maxVideos);
    if unseen != [] then
      assert unseen[0] in unseen;
      unseen
    else
      var fallback := Range(1, Min(maxVideos + 1, n + 1));
      RangeDistinct(1, Min(maxVideos + 1, n + 1));
      forall v ensures v in fallback <==> 1 <= v <= Min(maxVideos, n) {
        RangeMembers(1, Min(maxVideos + 1, n + 1), v);
      }
      fallback
  }

  /** One row of `get_best_arms`: `(video_id, avg_reward, count)`. */
  datatype ArmPerformance = ArmPerformance(videoId: int, avgReward: real, count: nat)

  /** One entry of `get_arm_stats`. */
  datatype ArmReport = ArmReport(count: nat, avgReward: real, totalReward: real)

  /** The sort key `(avg_reward, count)`, compared lexicographically. */
  predicate PerformanceGe(a: ArmPerformance, b: ArmPerformance)
  {
    a.avgReward > b.avgReward || (a.avgReward == b.avgReward && a.count >= b.count)
  }

  lemma PerformanceGeTotal()
    ensures TotalPreorder(PerformanceGe)
  {
  }

  function PerformanceIds(s: seq<ArmPerformance>): (ids: seq<int>)
    ensures |ids| == |s|
    ensures forall i :: 0 <= i < |s| ==> ids[i] == s[i].videoId
  {
    seq(|s|, i requires 0 <= i < |s| => s[i].videoId)
  }

  class BanditRecommender {
    const epsilon: real
    const ucbC: real
    var strategy: Strategy
    var arms: map<int, Arm>
    var totalPulls: int

    /** `total_pulls` is the sum of the arms' counts. */
    ghost predicate Valid()
      reads this
    {
      totalPulls == CountSum(arms)
    }

    /** `__init__`, with the arms `get_bandit_arms()` loaded. */
    constructor (epsilon: real, ucbC: real, stored: map<int, Arm>)
      ensures Valid()
      ensures this.epsilon == epsilon && this.ucbC == ucbC
      ensures strategy == EpsilonGreedy && arms == stored
    {
      this.epsilon := epsilon;
      this.ucbC := ucbC;
      strategy := EpsilonGreedy;
      arms := stored;
      new;
      totalPulls := SumCounts(stored);
    }

    /** The in-memory part of `update_arm`. */
    method UpdateArm(videoId: int, reward: real)
      requires Valid()
      modifies this
      ensures Valid()
      ensures arms == old(arms)[videoId := Updated(if videoId in old(arms) then Some(old(arms)[videoId]) else None, reward)]
      ensures totalPulls == old(totalPulls) + 1
      ensures strategy == old(strategy)
    {
      var a := Updated(if videoId in arms then Some(arms[videoId]) else None, reward);
      CountSumUpdate(arms, videoId, a);
      arms := arms[videoId := a];
      totalPulls := totalPulls + 1;
    }

    method EpsilonGreedySelection(pool: seq<int>, n: nat) returns (recs: seq<Rec>)
      ensures EpsilonOutcome(arms, epsilon, pool, n, recs)
      ensures forall i :: 0 <= i < |recs| ==> recs[i].videoId in pool
      ensures Distinct(pool) ==> Distinct(Ids(recs))
    {
      var available := pool;
      recs := [];
      var i := 0;
      while i < n
        invariant i <= n && |recs| == i
        invariant available == After(pool, recs)
        invariant |available| == |pool| - i
        invariant DrawnWithoutReplacement(pool, recs)
        invariant forall k :: 0 <= k < |recs| ==> EpsilonPick(arms, epsilon, After(pool, recs[..k]), k, recs[k])
      {
        if |available| == 0 {
          break;
        }
        var draw :| 0.0 <= draw < 1.0;
        var pick: Rec;
        if draw < epsilon {
          var j :| 0 <= j < |available|;
          pick := Rec(available[j], 0.0, ExplorationRandom);
        } else {
          var best := BestCandidate(available, AvgScore(arms));
          var videoId: int;
          if best.Some? && best.value != 0 {
            videoId := best.value;
          } else {
            var j :| 0 <= j < |available|;
            videoId := available[j];
          }
          pick := Rec(videoId, ArmOf(arms, videoId).avgReward, if i == 0 then ExploitationBest else Exploitation);
        }
        assert EpsilonPick(arms, epsilon, available, i, pick);
        DrawnAppend(pool, recs, pick);
        recs := recs + [pick];
        available := RemoveFirst(available, pick.videoId);
        i := i + 1;
      }
      DrawnMultiset(pool, recs);
      DrawnWithoutReplacementFacts(pool, recs);
      if Distinct(pool) {
        DrawnDistinct(pool, recs);
      }
    }

    method UcbSelection(pool: seq<int>, n: nat, width: (int, nat) -> real) returns (recs: seq<Rec>)
      ensures UcbOutcome(arms, ucbC, totalPulls, width, pool, n, recs)
      ensures forall i :: 0 <= i < |recs| ==> recs[i].videoId in pool
      ensures Distinct(pool) ==> Distinct(Ids(recs))
    {
      var available := pool;
      recs := [];
      var i := 0;
      while i < n
        invariant i <= n && |recs| == i
        invariant available == After(pool, recs)
        invariant |available| == |pool| - i
        invariant DrawnWithoutReplacement(pool, recs)
        invariant forall k :: 0 <= k < |recs| ==> UcbPick(arms, ucbC, totalPulls, width, After(pool, recs[..k]), recs[k])
      {
        if |available| == 0 {
          break;
        }
        var best := BestCandidate(available, UcbScore(arms, ucbC, totalPulls, width));
        var videoId: int;
        if best.Some? && best.value != 0 {
          videoId := best.value;
        } else {
          var j :| 0 <= j < |available|;
          videoId := available[j];
        }
        var a := ArmOf(arms, videoId);
        var pick := Rec(videoId, a.avgReward, if a.count == 0 then UcbExploration else UcbExploitation);
        assert UcbPick(arms, ucbC, totalPulls, width, available, pick);
        DrawnAppend(pool, recs, pick);
        recs := recs + [pick];
        available := RemoveFirst(available, pick.videoId);
        i := i + 1;
      }
      DrawnMultiset(pool, recs);
      DrawnWithoutReplacementFacts(pool, recs);
      if Distinct(pool) {
        DrawnDistinct(pool, recs);
      }
    }

    /** `get_recommendations` with the query results supplied: builds the
        candidate pool and dispatches on the strategy. */
    method GetRecommendations(catalog: seq<int>, interacted: set<int>, maxVideos: int, n: nat,
                              width: (int, nat) -> real) returns (recs: seq<Rec>)
      ensures var pool := CandidatePool(catalog, interacted, maxVideos, n);
        && (strategy == Ucb ==> UcbOutcome(arms, ucbC, totalPulls, width, pool, n, recs))
        && (strategy == EpsilonGreedy ==> EpsilonOutcome(arms, epsilon, pool, n, recs))
        && (forall i :: 0 <= i < |recs| ==> recs[i].videoId in pool)
      ensures Distinct(catalog) ==> Distinct(Ids(recs))
    {
      var pool := Unseen(catalog, interacted, maxVideos);
      if pool == [] {
        pool := Range(1, Min(maxVideos + 1, n + 1));
      }
      if strategy == EpsilonGreedy {
        recs := EpsilonGreedySelection(pool, n);
      } else {
        recs := UcbSelection(pool, n, width);
      }
    }

    /** `set_strategy` */
    method SetStrategy(name: string)
      modifies this`strategy
      ensures strategy == ParseStrategy(name)
    {
      if name == "epsilon_greedy" || name == "ucb" {
        strategy := if name == "ucb" then Ucb else EpsilonGreedy;
      } else {
        strategy := EpsilonGreedy;
      }
    }

    /** `get_arm_stats`: one report per arm, its reward total being
        `avg_reward * count`. */
    method GetArmStats() returns (stats: map<int, ArmReport>)
      ensures stats.Keys == arms.Keys
      ensures forall v :: v in stats ==>
        stats[v].count == arms[v].count && stats[v].avgReward == arms[v].avgReward
        && stats[v].totalReward == TotalRewardOf(arms[v])
    {
      var all := arms;
      stats := map[];
      var rest := all.Keys;
      while rest != {}
        invariant rest <= all.Keys
        invariant stats.Keys == all.Keys - rest
        invariant forall v :: v in stats ==>
          stats[v] == ArmReport(all[v].count, all[v].avgReward, TotalRewardOf(all[v]))
        decreases |rest|
      {
        NoIdsEmpty(rest);
        var v :| v in rest;
        var data := all[v];
        stats := stats[v := ArmReport(data.count, data.avgReward, TotalRewardOf(data))];
        rest := rest - {v};
      }
    }

    /** `get_best_arms(n)`: the played arms, visited in whatever order the
        dictionary yields them, sorted by `(avg_reward, count)` from the top
        and cut to `n`. */
    method GetBestArms(n: nat) returns (best: seq<ArmPerformance>)
      ensures |best| <= n
      ensures forall i :: 0 <= i < |best| ==> Played(arms, best[i])
      ensures Distinct(PerformanceIds(best))
      ensures SortedBy(best, PerformanceGe)
      ensures forall v :: v in arms && arms[v].count > 0 && v !in PerformanceIds(best) ==>
        |best| == n && forall i :: 0 <= i < |best| ==> PerformanceGe(best[i], PerformanceOf(arms, v))
    {
      var performance := PlayedArms(arms);
      best := TopArms(performance, n);
      TopArmsFacts(arms, performance, n);
    }

    /** The in-memory part of `reset_arms`. */
    method ResetArms()
      modifies this
      ensures Valid()
      ensures arms == map[] && totalPulls == 0 && strategy == old(strategy)
    {
      arms := map[];
      totalPulls := 0;
    }

    /** `calculate_regret(optimal)`: 0 before any pull, otherwise
        `optimal * total_pulls - sum(avg_reward * count)` floored at 0. */
    method CalculateRegret(optimal: real) returns (regret: real)
      ensures regret >= 0.0
      ensures totalPulls == 0 ==> regret == 0.0
      ensures totalPulls != 0 ==> regret == MaxReal(0.0, optimal * totalPulls as real - SumOf(arms, TotalRewardOf))
    {
      if totalPulls == 0 {
        return 0.0;
      }
      var actual := SumTotalRewards(arms);
      regret := MaxReal(0.0, optimal * totalPulls as real - actual);
    }
  }

  /** The regret reported by a valid bandit is the sum of the per-arm gaps
      `count * (optimal - avg_reward)`, clipped at 0; when no arm averages
      above the optimal reward, the clip never fires. */
  lemma RegretOfValidBandit(arms: map<int, Arm>, totalPulls: int, optimal: real)
    requires totalPulls == CountSum(arms)
    requires forall k :: k in arms ==> arms[k].avgReward <= optimal
    ensures optimal * totalPulls as real - SumOf(arms, TotalRewardOf) == SumOf(arms, Gap(optimal)) >= 0.0
  {
    RegretIsSumOfGaps(arms, optimal);
    GapsNonNegative(arms, optimal);
  }

  /** `(video_id, data['avg_reward'], data['count'])` */
  function PerformanceOf(arms: map<int, Arm>, v: int): ArmPerformance
    requires v in arms
  {
    ArmPerformance(v, arms[v].avgReward, arms[v].count)
  }

  /** `e` is the row of a played arm (count > 0). */
  ghost predicate Played(arms: map<int, Arm>, e: ArmPerformance)
  {
    e.videoId in arms && arms[e.videoId].count > 0 && e == PerformanceOf(arms, e.videoId)
  }

  /** The comprehension of `get_best_arms`: one row per played arm, in the
      order the keys are visited. */
  method PlayedArms(arms: map<int, Arm>) returns (performance: seq<ArmPerformance>)
    ensures forall i :: 0 <= i < |performance| ==> Played(arms, performance[i])
    ensures forall v :: v in arms && arms[v].count > 0 ==> v in PerformanceIds(performance)
    ensures Distinct(PerformanceIds(performance))
  {
    performance := [];
    var rest := arms.Keys;
    while rest != {}
      invariant rest <= arms.Keys
      invariant forall i :: 0 <= i < |performance| ==>
        Played(arms, performance[i]) && performance[i].videoId !in rest
      invariant forall v :: v in arms.Keys - rest && arms[v].count > 0 ==> v in PerformanceIds(performance)
      invariant Distinct(PerformanceIds(performance))
      decreases |rest|
    {
      NoIdsEmpty(rest);
      var v :| v in rest;
      if arms[v].count > 0 {
        var ids := PerformanceIds(performance);
        performance := performance + [PerformanceOf(arms, v)];
        assert PerformanceIds(performance) == ids + [v];
      }
      rest := rest - {v};
    }
  }

  /** `arm_performance.sort(key=(avg, count), reverse=True)` then `[:n]`. */
  function TopArms(performance: seq<ArmPerformance>, n: nat): seq<ArmPerformance>
  {
    var sorted := SortDesc(performance, PerformanceGe);
    sorted[..Min(n, |sorted|)]
  }

  /** The top-`n` rows are played arms, distinct, in non-increasing
      `(avg_reward, count)` order, and every played arm left out is ranked
      at or below every arm kept, which happens only when `n` rows were kept. */
  lemma TopArmsFacts(arms: map<int, Arm>, performance: seq<ArmPerformance>, n: nat)
    requires forall i :: 0 <= i < |performance| ==> Played(arms, performance[i])
    requires forall v :: v in arms && arms[v].count > 0 ==> v in PerformanceIds(performance)
    requires Distinct(PerformanceIds(performance))
    ensures var best := TopArms(performance, n);
      && |best| <= n
      && (forall i :: 0 <= i < |best| ==> Played(arms, best[i]))
      && Distinct(PerformanceIds(best))
      && SortedBy(best, PerformanceGe)
      && (forall v :: v in arms && arms[v].count > 0 && v !in PerformanceIds(best) ==>
            |best| == n && forall i :: 0 <= i < |best| ==> PerformanceGe(best[i], PerformanceOf(arms, v)))
  {
    PerformanceGeTotal();
    var sorted := SortDesc(performance, PerformanceGe);
    SortDescSorted(performance, PerformanceGe);
    var cut := Min(n, |sorted|);
    TakeDominates(sorted, PerformanceGe, cut);
    var best := sorted[..cut];
    SortedFacts(performance, sorted, cut);
    forall v | v in arms && arms[v].count > 0 && v !in PerformanceIds(best)
      ensures |best| == n && forall i :: 0 <= i < |best| ==> PerformanceGe(best[i], PerformanceOf(arms, v))
    {
      var j :| 0 <= j < |performance| && PerformanceIds(performance)[j] == v;
      assert Played(arms, performance[j]);
      LeftOutRanksBelow(performance, sorted, cut, performance[j]);
    }
  }

  /** A row of the input that the cut drops sits at or after the cut in the
      sorted list, so the cut kept `cut <= n` rows and every kept one ranks at
      least as high. */
  lemma LeftOutRanksBelow(performance: seq<ArmPerformance>, sorted: seq<ArmPerformance>, cut: nat, e: ArmPerformance)
    requires sorted == SortDesc(performance, PerformanceGe)
    requires SortedBy(sorted, PerformanceGe) && cut <= |sorted|
    requires e in performance && e.videoId !in PerformanceIds(sorted[..cut])
    ensures cut < |sorted|
    ensures forall i :: 0 <= i < cut ==> PerformanceGe(sorted[i], e)
  {
    SortDescMembers(performance, PerformanceGe, e);
    var m :| 0 <= m < |sorted| && sorted[m] == e;
    var ids := PerformanceIds(sorted[..cut]);
    assert forall i :: 0 <= i < cut ==> ids[i] == sorted[i].videoId;
    assert m >= cut;
  }

  /** Facts about the sorted, truncated list of played arms used by
      `GetBestArms`. */
  lemma SortedFacts(performance: seq<ArmPerformance>, sorted: seq<ArmPerformance>, cut: nat)
    requires Distinct(PerformanceIds(performance))
    requires multiset(sorted) == multiset(performance)
    requires cut <= |sorted|
    ensures forall i :: 0 <= i < cut ==> sorted[i] in performance
    ensures Distinct(PerformanceIds(sorted[..cut]))
  {
    forall i | 0 <= i < |sorted|
      ensures sorted[i] in performance
    {
      assert sorted[i] in multiset(sorted);
    }
    var key := (e: ArmPerformance) => e.videoId;
    assert forall i, j :: 0 <= i < j < |performance| ==> key(performance[i]) != key(performance[j]) by {
      forall i, j | 0 <= i < j < |performance|
        ensures key(performance[i]) != key(performance[j])
      {
        assert PerformanceIds(performance)[i] != PerformanceIds(performance)[j];
      }
    }
    PermutationKeepsKeysDistinct(performance, sorted, key);
    var ids := PerformanceIds(sorted[..cut]);
    forall i, j | 0 <= i < j < cut
      ensures ids[i] != ids[j]
    {
      assert key(sorted[i]) != key(sorted[j]);
    }
  }
}
