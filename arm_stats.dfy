/** Per-video bandit statistics ("arms") and their update rules.

    Two arm shapes exist in the source: the incremental-mean arm
    `{'count', 'avg_reward'}` of api/bandit_model_real.py, and the cumulative
    arm `{'count', 'reward', 'avg_reward'}` of api/bandit_model.py (and of the
    copy in api/server.py). Both are proved to hold the mean of the rewards
    fed to them. Sums over a whole arm dictionary are defined here too. */
module ArmStats {
  import opened Common

  /** An arm of the incremental-mean bandit. */
  datatype Arm = Arm(count: nat, avgReward: real)

  /** An arm of the cumulative bandit. */
  datatype CumulativeArm = CumulativeArm(count: nat, reward: real, avgReward: real)

  /** The defaultdict factory `{'count': 0, 'reward': 0.0, 'avg_reward': 0.0}`. */
  const FreshArm := CumulativeArm(0, 0.0, 0.0)

  /** The in-memory part of `update_arm` in the incremental-mean bandit:
      an unseen video gets `{count: 1, avg_reward: reward}`, a known one
      `count + 1` and `(old_avg * old_count + reward) / (old_count + 1)`. */
  function Updated(arm: Option<Arm>, reward: real): (a: Arm)
    ensures a.count == (if arm.Some? then arm.value.count else 0) + 1
    ensures arm.None? ==> a.avgReward == reward
    ensures arm.Some? ==> a.avgReward * a.count as real == arm.value.avgReward * arm.value.count as real + reward
  {
    match arm
    case None => Arm(1, reward)
    case Some(prev) =>
      var newCount := prev.count + 1;
      Arm(newCount, (prev.avgReward * prev.count as real + reward) / newCount as real)
  }

  /** The arm after the rewards `rs` were fed to it one by one. */
  function Replay(start: Option<Arm>, rs: seq<real>): Option<Arm>
    decreases |rs|
  {
    if rs == [] then start else Some(Updated(Replay(start, rs[..|rs| - 1]), rs[|rs| - 1]))
  }

  /** Feeding k rewards to an arm that had c pulls leaves c + k pulls, and the
      reward total `avg * count` grows by exactly the sum of the rewards. */
  lemma {:induction false} ReplayTotals(start: Option<Arm>, rs: seq<real>)
    requires |rs| > 0 || start.Some?
    ensures Replay(start, rs).Some?
    ensures Replay(start, rs).value.count == (if start.Some? then start.value.count else 0) + |rs|
    ensures Replay(start, rs).value.avgReward * Replay(start, rs).value.count as real
         == (if start.Some? then start.value.avgReward * start.value.count as real else 0.0) + Sum(rs)
    decreases |rs|
  {
    if rs != [] {
      var front := rs[..|rs| - 1];
      if front != [] || start.Some? {
        ReplayTotals(start, front);
      }
    }
  }

  /** After k updates of an unseen arm, its count is k and its average is the
      mean of the k rewards. */
  lemma ReplayIsMean(rs: seq<real>)
    requires |rs| > 0
    ensures Replay(None, rs) == Some(Arm(|rs|, Mean(rs)))
  {
    ReplayTotals(None, rs);
    var a := Replay(None, rs).value;
    assert a.avgReward * |rs| as real == Sum(rs);
    assert a.avgReward == Sum(rs) / |rs| as real;
  }

  /** `update_arm` of the cumulative bandit: count + 1, reward + r, and the
      average recomputed as reward / count. */
  function UpdatedCumulative(arm: CumulativeArm, reward: real): (a: CumulativeArm)
    ensures a.count == arm.count + 1 && a.reward == arm.reward + reward
    ensures a.avgReward * a.count as real == a.reward
  {
    var count := arm.count + 1;
    var total := arm.reward + reward;
    CumulativeArm(count, total, total / count as real)
  }

  /** The cumulative arm after the rewards `rs` were fed to `start` one by one. */
  function FeedCumulative(start: CumulativeArm, rs: seq<real>): CumulativeArm
    decreases |rs|
  {
    if rs == [] then start else UpdatedCumulative(FeedCumulative(start, rs[..|rs| - 1]), rs[|rs| - 1])
  }

  /** Feeding rewards adds their number to the count and their sum to the
      reward total; once fed anything, the average is total / count. */
  lemma {:induction false} FeedCumulativeTotals(start: CumulativeArm, rs: seq<real>)
    ensures FeedCumulative(start, rs).count == start.count + |rs|
    ensures FeedCumulative(start, rs).reward == start.reward + Sum(rs)
    ensures |rs| > 0 ==> FeedCumulative(start, rs).avgReward * FeedCumulative(start, rs).count as real
                         == FeedCumulative(start, rs).reward
    decreases |rs|
  {
    if rs != [] {
      FeedCumulativeTotals(start, rs[..|rs| - 1]);
    }
  }

  /** After k updates of a fresh cumulative arm: count k, reward the sum of the
      rewards and average their mean. */
  lemma ReplayCumulativeIsMean(rs: seq<real>)
    ensures FeedCumulative(FreshArm, rs).count == |rs|
    ensures FeedCumulative(FreshArm, rs).reward == Sum(rs)
    ensures |rs| > 0 ==> FeedCumulative(FreshArm, rs).avgReward == Mean(rs)
  {
    FeedCumulativeTotals(FreshArm, rs);
  }

  // ----- sums over a dictionary of arms -----

  /** A dictionary of arms with no key is empty: the fact `:|` needs to
      draw a key. */
  lemma NoKeysEmpty(m: map<int, Arm>)
    ensures (forall k :: k !in m) ==> m == map[]
  {
    if forall k :: k !in m {
      assert m.Keys == {};
    }
  }

  ghost function PickKey(m: map<int, Arm>): (k: int)
    requires m != map[]
    ensures k in m
  {
    NoKeysEmpty(m);
    var k :| k in m; k
  }

  /** `sum(arm['count'] for arm in arms.values())` */
  ghost function CountSum(m: map<int, Arm>): int
    decreases |m|
  {
    if m == map[] then 0
    else
      var k := PickKey(m);
      assert |m - {k}| < |m| by { assert (m - {k}).Keys < m.Keys; }
      m[k].count + CountSum(m - {k})
  }

  /** `sum(f(arm) for arm in arms.values())` */
  ghost function SumOf(m: map<int, Arm>, f: Arm -> real): real
    decreases |m|
  {
    if m == map[] then 0.0
    else
      var k := PickKey(m);
      assert |m - {k}| < |m| by { assert (m - {k}).Keys < m.Keys; }
      f(m[k]) + SumOf(m - {k}, f)
  }

  lemma {:induction false} CountSumRemove(m: map<int, Arm>, k: int)
    requires k in m
    ensures CountSum(m) == m[k].count + CountSum(m - {k})
    decreases |m|
  {
    var j := PickKey(m);
    if j != k {
      assert (m - {j}).Keys < m.Keys;
      CountSumRemove(m - {j}, k);
      CountSumRemove(m - {k}, j);
      assert m - {j} - {k} == m - {k} - {j};
    }
  }

  lemma {:induction false} SumOfRemove(m: map<int, Arm>, k: int, f: Arm -> real)
    requires k in m
    ensures SumOf(m, f) == f(m[k]) + SumOf(m - {k}, f)
    decreases |m|
  {
    var j := PickKey(m);
    if j != k {
      assert (m - {j}).Keys < m.Keys;
      SumOfRemove(m - {j}, k, f);
      SumOfRemove(m - {k}, j, f);
      assert m - {j} - {k} == m - {k} - {j};
    }
  }

  /** Replacing or adding the arm of one video changes the count total by the
      difference of that arm's counts. */
  lemma CountSumUpdate(m: map<int, Arm>, k: int, a: Arm)
    ensures CountSum(m[k := a]) == CountSum(m) - (if k in m then m[k].count else 0) + a.count
  {
    var m' := m[k := a];
    CountSumRemove(m', k);
    if k in m {
      CountSumRemove(m, k);
      assert m' - {k} == m - {k};
    } else {
      assert m' - {k} == m;
    }
  }

  /** `data['avg_reward'] * data['count']`: the reward total an arm stands for. */
  function TotalRewardOf(a: Arm): real
  {
    a.avgReward * a.count as real
  }

  /** The `sum(arm.get('count', 0) for arm in arms.values())` of the
      constructor, as a loop over the keys in whatever order the dictionary
      yields them. */
  method SumCounts(arms: map<int, Arm>) returns (total: int)
    ensures total == CountSum(arms)
    ensures total >= 0
  {
    total := 0;
    var rest := arms;
    CountSumNonNegative(arms);
    while rest != map[]
      invariant total + CountSum(rest) == CountSum(arms)
      invariant total >= 0 && CountSum(rest) >= 0
      decreases |rest|
    {
      NoKeysEmpty(rest);
      var k :| k in rest;
      CountSumRemove(rest, k);
      assert (rest - {k}).Keys < rest.Keys;
      total := total + rest[k].count;
      rest := rest - {k};
      CountSumNonNegative(rest);
    }
  }

  lemma {:induction false} CountSumNonNegative(m: map<int, Arm>)
    ensures CountSum(m) >= 0
    decreases |m|
  {
    if m != map[] {
      var k := PickKey(m);
      assert (m - {k}).Keys < m.Keys;
      CountSumNonNegative(m - {k});
    }
  }

  /** `sum(data['avg_reward'] * data['count'] for data in arms.values())`,
      the actual total reward of `calculate_regret`. */
  method SumTotalRewards(arms: map<int, Arm>) returns (total: real)
    ensures total == SumOf(arms, TotalRewardOf)
  {
    total := 0.0;
    var rest := arms;
    while rest != map[]
      invariant total + SumOf(rest, TotalRewardOf) == SumOf(arms, TotalRewardOf)
      decreases |rest|
    {
      NoKeysEmpty(rest);
      var k :| k in rest;
      SumOfRemove(rest, k, TotalRewardOf);
      assert (rest - {k}).Keys < rest.Keys;
      total := total + TotalRewardOf(rest[k]);
      rest := rest - {k};
    }
  }

  /** The reward missed against an optimal reward of `optimal` per pull. */
  function Gap(optimal: real): Arm -> real
  {
    (a: Arm) => a.count as real * (optimal - a.avgReward)
  }

  /** Sums over the arms are linear: subtracting two of them term by term is
      subtracting their totals. */
  lemma {:induction false} SumOfDifference(m: map<int, Arm>, f: Arm -> real, g: Arm -> real, h: Arm -> real)
    requires forall a :: h(a) == f(a) - g(a)
    ensures SumOf(m, f) - SumOf(m, g) == SumOf(m, h)
    decreases |m|
  {
    if m != map[] {
      var k := PickKey(m);
      assert (m - {k}).Keys < m.Keys;
      SumOfDifference(m - {k}, f, g, h);
    }
  }

  /** `optimal * total_pulls`, spread over the arms. */
  lemma {:induction false} SumOfScaledCounts(m: map<int, Arm>, optimal: real)
    ensures SumOf(m, (a: Arm) => optimal * a.count as real) == optimal * CountSum(m) as real
    decreases |m|
  {
    if m != map[] {
      var k := PickKey(m);
      var rest := m - {k};
      assert rest.Keys < m.Keys;
      SumOfScaledCounts(rest, optimal);
      var c, counts := m[k].count as real, CountSum(rest) as real;
      assert CountSum(m) as real == c + counts;
      assert optimal * (c + counts) == optimal * c + optimal * counts;
    }
  }

  /** Regret decomposes arm by arm: `optimal * (sum of counts) - (sum of
      reward totals)` is the sum over the arms of `count * (optimal - avg)`. */
  lemma RegretIsSumOfGaps(m: map<int, Arm>, optimal: real)
    ensures optimal * CountSum(m) as real - SumOf(m, TotalRewardOf) == SumOf(m, Gap(optimal))
  {
    var scaled := (a: Arm) => optimal * a.count as real;
    SumOfScaledCounts(m, optimal);
    forall a: Arm ensures Gap(optimal)(a) == scaled(a) - TotalRewardOf(a) {
      assert a.count as real * (optimal - a.avgReward) == optimal * a.count as real - a.avgReward * a.count as real;
    }
    SumOfDifference(m, scaled, TotalRewardOf, Gap(optimal));
  }

  /** When no arm averages more than the optimal reward, no gap is negative
      and neither is their sum. */
  lemma GapsNonNegative(m: map<int, Arm>, optimal: real)
    requires forall k :: k in m ==> m[k].avgReward <= optimal
    ensures SumOf(m, Gap(optimal)) >= 0.0
  {
    forall k | k in m
      ensures Gap(optimal)(m[k]) >= 0.0
    {
      ProductNonNegative(m[k].count as real, optimal - m[k].avgReward);
    }
    SumNonNegative(m, Gap(optimal));
  }

  /** A sum of non-negative terms is non-negative. */
  lemma {:induction false} SumNonNegative(m: map<int, Arm>, f: Arm -> real)
    requires forall k :: k in m ==> f(m[k]) >= 0.0
    ensures SumOf(m, f) >= 0.0
    decreases |m|
  {
    if m != map[] {
      var k := PickKey(m);
      var rest := m - {k};
      assert rest.Keys < m.Keys;
      SumNonNegative(rest, f);
    }
  }

  lemma ProductNonNegative(c: real, d: real)
    requires c >= 0.0 && d >= 0.0
    ensures c * d >= 0.0
  {
  }
}
