/** The older epsilon-greedy bandit of api/bandit_model.py, of which
    api/server.py:340-393 is a line-for-line copy, together with the way
    `save_interaction` in api/server.py turns one interaction into bandit
    rewards.

    Arms live in a `defaultdict`: `update_arm` creates a fresh
    `{count: 0, reward: 0.0, avg_reward: 0.0}` on first use, while selection
    only reads the dictionary behind `in` tests, so it never adds an arm.
    The catalogue and the user's interacted ids are inputs; random draws are
    nondeterministic choices. */
module BanditSimple {
  import opened Common
  import opened ArmStats
  import opened BanditReal

  /** `self.arms[video_id]` on the defaultdict: the stored arm, or a fresh one. */
  function ArmOrFresh(arms: map<int, CumulativeArm>, v: int): CumulativeArm
  {
    if v in arms then arms[v] else FreshArm
  }

  /** `self.arms[video_id]['avg_reward'] if video_id in self.arms else 0.0` */
  function ScoreOf(arms: map<int, CumulativeArm>, v: int): real
  {
    if v in arms then arms[v].avgReward else 0.0
  }

  /** The candidates that have an arm record, in pool order
      (`[vid for vid in available_videos if vid in self.arms]`). */
  function Known(p: seq<int>, arms: map<int, CumulativeArm>): (r: seq<int>)
    ensures forall v :: v in r <==> v in p && v in arms
  {
    if p == [] then []
    else
      var rest := Known(p[1..], arms);
      assert forall x :: x in p <==> x == p[0] || x in p[1..];
      if p[0] in arms then [p[0]] + rest else rest
  }

  /** The key of `max(best_videos, key=lambda x: x[1])`. */
  function KnownScore(arms: map<int, CumulativeArm>): int -> Score
  {
    v => Finite(ScoreOf(arms, v))
  }

  /** One pick from the pool `p`. Exploration happens on a draw below
      epsilon or whenever there is no arm at all; otherwise the pick is the
      first candidate of maximal average among those with an arm (Python's
      `max` keeps the first maximum), or, if none has one, any candidate
      labelled as a cold start. */
  ghost predicate SimplePick(arms: map<int, CumulativeArm>, epsilon: real, p: seq<int>, r: Rec)
  {
    && r.videoId in p
    && r.score == ScoreOf(arms, r.videoId)
    && var known := Known(p, arms);
    && (|| ((epsilon > 0.0 || arms == map[]) && r.reason == ExplorationRandom)
        || (epsilon < 1.0 && arms != map[] && known != []
            && r.videoId == known[FirstBest(known, KnownScore(arms))] && r.reason == ExploitationBest)
        || (epsilon < 1.0 && arms != map[] && known == [] && r.reason == ColdStartNoData))
  }

  /** What `get_recommendations` may return for the candidate list
      `available`: exactly `min(n, |available|)` picks drawn without
      replacement, each one a `SimplePick` from the pool left at its turn. */
  ghost predicate SimpleOutcome(arms: map<int, CumulativeArm>, epsilon: real, available: seq<int>, n: nat, recs: seq<Rec>)
  {
    && |recs| == Min(n, |available|)
    && DrawnWithoutReplacement(available, recs)
    && forall i :: 0 <= i < |recs| ==> SimplePick(arms, epsilon, After(available, recs[..i]), recs[i])
  }

  /** The exploitation pick has the largest average among the candidates
      with an arm, and it is the first candidate with that average. */
  lemma ExploitationIsBestKnown(arms: map<int, CumulativeArm>, p: seq<int>)
    requires Known(p, arms) != []
    ensures var known := Known(p, arms);
      var k := FirstBest(known, KnownScore(arms));
      && known[k] in p && known[k] in arms
      && (forall v :: v in p && v in arms ==> arms[v].avgReward <= arms[known[k]].avgReward)
      && (forall j :: 0 <= j < k ==> arms[known[j]].avgReward < arms[known[k]].avgReward)
  {
    var known := Known(p, arms);
    var score := KnownScore(arms);
    var k := FirstBest(known, score);
    assert known[k] in known;
    forall v | v in p && v in arms
      ensures arms[v].avgReward <= arms[known[k]].avgReward
    {
      var j :| 0 <= j < |known| && known[j] == v;
      assert !Above(score(known[j]), score(known[k]));
    }
    forall j | 0 <= j < k
      ensures arms[known[j]].avgReward < arms[known[k]].avgReward
    {
      assert known[j] in known;
      assert Above(score(known[k]), score(known[j]));
    }
  }

  class BanditRecommender {
    const epsilon: real
    var arms: map<int, CumulativeArm>

    constructor (epsilon: real)
      ensures this.epsilon == epsilon && arms == map[]
    {
      this.epsilon := epsilon;
      arms := map[];
    }

    /** `update_arm`: count + 1, reward + r, average reward / count, on the
        arm of `video_id` (created fresh if absent). */
    method UpdateArm(videoId: int, reward: real)
      modifies this
      ensures arms == old(arms)[videoId := UpdatedCumulative(ArmOrFresh(old(arms), videoId), reward)]
    {
      arms := arms[videoId := UpdatedCumulative(ArmOrFresh(arms, videoId), reward)];
    }

    /** `get_recommendations` with the query results supplied: the
        catalogue in its order and the set of the user's interacted ids. */
    method GetRecommendations(catalog: seq<int>, interacted: set<int>, n: nat) returns (recs: seq<Rec>)
      ensures SimpleOutcome(arms, epsilon, Without(catalog, interacted), n, recs)
      ensures forall i :: 0 <= i < |recs| ==> recs[i].videoId in catalog && recs[i].videoId !in interacted
      ensures Distinct(catalog) ==> Distinct(Ids(recs))
      ensures arms == map[] ==> forall i :: 0 <= i < |recs| ==> recs[i].reason == ExplorationRandom
    {
      var pool := Without(catalog, interacted);
      var available := pool;
      recs := [];
      if available == [] {
        return;
      }
      var rounds := Min(n, |available|);
      var i := 0;
      while i < rounds
        invariant i <= rounds && |recs| == i
        invariant available == After(pool, recs)
        invariant |available| == |pool| - i
        invariant DrawnWithoutReplacement(pool, recs)
        invariant forall k :: 0 <= k < |recs| ==> SimplePick(arms, epsilon, After(pool, recs[..k]), recs[k])
      {
        var draw :| 0.0 <= draw < 1.0;
        var videoId: int;
        var reason: Reason;
        if draw < epsilon || arms == map[] {
          var j :| 0 <= j < |available|;
          videoId, reason := available[j], ExplorationRandom;
        } else {
          var known := Known(available, arms);
          if known != [] {
            videoId, reason := known[FirstBest(known, KnownScore(arms))], ExploitationBest;
            assert known[FirstBest(known, KnownScore(arms))] in known;
          } else {
            var j :| 0 <= j < |available|;
            videoId, reason := available[j], ColdStartNoData;
          }
        }
        var pick := Rec(videoId, ScoreOf(arms, videoId), reason);
        assert SimplePick(arms, epsilon, available, pick);
        DrawnAppend(pool, recs, pick);
        recs := recs + [pick];
        available := RemoveFirst(available, videoId);
        i := i + 1;
      }
      DrawnMultiset(pool, recs);
      DrawnWithoutReplacementFacts(pool, recs);
      if Distinct(catalog) {
        DrawnDistinct(pool, recs);
      }
    }
  }

  /** The body of `POST /interaction`. `liked` is `None` only for an
      explicit null: a request that leaves the field out gets the default 0
      (api/models.py:8). */
  datatype InteractionRequest = InteractionRequest(
    userId: int, videoId: int, watched: Option<int>, liked: Option<int>, whenReacted: Option<int>)

  /** The CHECK constraints of the `interactions` table (api/server.py:35-37):
      a NULL passes a CHECK. A row breaking one makes the insert raise, and
      `save_interaction` answers with an error before touching the bandit. */
  predicate Admissible(req: InteractionRequest)
  {
    && (req.watched.None? || 0 <= req.watched.value <= 100)
    && (req.liked.None? || req.liked.value == -1 || req.liked.value == 0 || req.liked.value == 1)
    && (req.whenReacted.None? || 0 <= req.whenReacted.value <= 100)
  }

  /** The rewards `save_interaction` feeds to `update_arm`, in order: one for
      the like flag unless it is 0 (1.0 for a like; -0.5 otherwise, a NULL
      flag included), then `watched_percent / 100` when a percentage is
      given. */
  function Rewards(req: InteractionRequest): (rs: seq<real>)
    ensures |rs| == (if req.liked == Some(0) then 0 else 1) + (if req.watched.Some? then 1 else 0)
    ensures req.liked == Some(1) ==> rs[0] == 1.0
    ensures req.liked != Some(0) && req.liked != Some(1) ==> rs[0] == -0.5
    ensures req.watched.Some? ==> rs[|rs| - 1] == req.watched.value as real / 100.0
  {
    (if req.liked != Some(0) then [if req.liked == Some(1) then 1.0 else -0.5] else [])
    + (if req.watched.Some? then [req.watched.value as real / 100.0] else [])
  }

  /** Every reward of an admissible interaction lies in [-0.5, 1.0]. */
  lemma RewardsInRange(req: InteractionRequest)
    requires Admissible(req)
    ensures forall r :: r in Rewards(req) ==> -0.5 <= r <= 1.0
  {
    var rs := Rewards(req);
    if req.watched.Some? {
      var w := req.watched.value as real;
      assert 0.0 <= w / 100.0 <= 1.0;
    }
    forall r | r in rs
      ensures -0.5 <= r <= 1.0
    {
      var j :| 0 <= j < |rs| && rs[j] == r;
      assert j == 0 || j == |rs| - 1;
    }
  }

  /** `save_interaction` against the server's bandit: a rejected row
      changes nothing; an accepted one feeds `Rewards(req)` to the arm of the
      video, which is created only when there is some reward to feed. */
  method SaveInteraction(bandit: BanditRecommender, req: InteractionRequest) returns (ok: bool)
    modifies bandit
    ensures ok == Admissible(req)
    ensures bandit.arms ==
      if ok && Rewards(req) != []
      then old(bandit.arms)[req.videoId := FeedCumulative(ArmOrFresh(old(bandit.arms), req.videoId), Rewards(req))]
      else old(bandit.arms)
  {
    if !Admissible(req) {
      return false;
    }
    ghost var start := ArmOrFresh(bandit.arms, req.videoId);
    ghost var fed: seq<real> := [];
    if req.liked != Some(0) {
      var reward := if req.liked == Some(1) then 1.0 else -0.5;
      bandit.UpdateArm(req.videoId, reward);
      fed := [reward];
      assert fed[..0] == [];
    }
    assert fed != [] ==> bandit.arms == old(bandit.arms)[req.videoId := FeedCumulative(start, fed)];
    if req.watched.Some? {
      var reward := req.watched.value as real / 100.0;
      bandit.UpdateArm(req.videoId, reward);
      assert (fed + [reward])[..|fed|] == fed;
      fed := fed + [reward];
    }
    assert fed == Rewards(req);
    ok := true;
  }
}
