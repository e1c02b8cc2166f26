/** The feature-based two-tower model of api/two_tower_model.py.

    A user tower is a user's six behavioural features, standardised and
    zero-padded to the embedding width; a video tower is a reduced TF-IDF
    vector of the video's text. A prediction is the cosine similarity of
    the two towers mapped from [-1, 1] onto [0, 1]; without both towers it
    falls back to a behaviour-biased estimate plus noise.

    Query results are inputs. The standard scaler, the TF-IDF + truncated
    SVD reduction and the cosine similarity of two vectors are foreign
    numerics and are parameters; the Gaussian noise is a parameter too. */
module TwoTower {
  import opened Common
  import opened Similarity

  /** `self.embedding_dim` */
  const EmbeddingDim: nat := 64

  /** The number of behavioural features in a user's vector. */
  const FeatureWidth: nat := 6

  /** One row of the per-user query:
      `(videoId, watched_percent, liked, text, labels)`. */
  datatype UserRow = UserRow(videoId: int, watched: Option<int>, liked: Option<int>, text: Option<string>, labels: Option<string>)

  /** The dictionary `get_user_interaction_features` returns for a user with
      history. */
  datatype Features = Features(
    totalInteractions: nat,
    avgWatchPercent: real,
    likeRatio: real,
    dislikeRatio: real,
    completionRate: real,
    engagementScore: real,
    contentText: string)

  /** `[i[1] or 0 for i in interactions]` */
  function WatchPercents(rows: seq<UserRow>): (ws: seq<real>)
    ensures |ws| == |rows| && forall i :: 0 <= i < |rows| ==> ws[i] == WatchedOrZero(rows[i].watched) as real
  {
    seq(|rows|, i requires 0 <= i < |rows| => WatchedOrZero(rows[i].watched) as real)
  }

  /** The number of rows whose like flag is `flag`. */
  function CountLiked(rows: seq<UserRow>, flag: int): nat
    decreases |rows|
  {
    if rows == [] then 0
    else CountLiked(rows[..|rows| - 1], flag) + (if rows[|rows| - 1].liked == Some(flag) then 1 else 0)
  }

  /** The number of rows watched beyond 80%. */
  function CountCompleted(rows: seq<UserRow>): nat
    decreases |rows|
  {
    if rows == [] then 0
    else CountCompleted(rows[..|rows| - 1]) + (if WatchedOrZero(rows[|rows| - 1].watched) > 80 then 1 else 0)
  }

  /** No row is both liked and disliked, so the two counts fit in the
      total; neither does the completion count exceed it. */
  lemma {:induction false} CountsFit(rows: seq<UserRow>)
    ensures CountLiked(rows, 1) + CountLiked(rows, -1) <= |rows|
    ensures CountCompleted(rows) <= |rows|
    decreases |rows|
  {
    if rows != [] {
      CountsFit(rows[..|rows| - 1]);
    }
  }

  /** One interaction's engagement: `(watch_percent or 0) / 100`, times 1.5
      for a like and 0.5 for a dislike. */
  function Engagement(r: UserRow): real
  {
    var e := WatchedOrZero(r.watched) as real / 100.0;
    if r.liked == Some(1) then e * 1.5 else if r.liked == Some(-1) then e * 0.5 else e
  }

  function Engagements(rows: seq<UserRow>): (es: seq<real>)
    ensures |es| == |rows| && forall i :: 0 <= i < |rows| ==> es[i] == Engagement(rows[i])
  {
    seq(|rows|, i requires 0 <= i < |rows| => Engagement(rows[i]))
  }

  /** The rows whose text is non-empty contribute
      `f"{text} {labels or ''}"` to the content text. */
  function ContentParts(rows: seq<UserRow>): (parts: seq<string>)
    ensures |parts| <= |rows|
    decreases |rows|
  {
    if rows == [] then []
    else
      var r := rows[|rows| - 1];
      ContentParts(rows[..|rows| - 1])
        + (if r.text.Some? && r.text.value != "" then [r.text.value + " " + OrEmpty(r.labels)] else [])
  }

  /** `sep.join(parts)` */
  function Join(parts: seq<string>, sep: string): string
    decreases |parts|
  {
    if parts == [] then ""
    else if |parts| == 1 then parts[0]
    else Join(parts[..|parts| - 1], sep) + sep + parts[|parts| - 1]
  }

  /** `get_user_interaction_features` on the rows of one user: `{}` (here
      `None`) for a user without history, otherwise the counts, the mean
      watch percentage, the like, dislike and completion ratios, the mean
      engagement and the joined content text. */
  function UserFeatures(rows: seq<UserRow>): (f: Option<Features>)
    ensures f.None? <==> rows == []
    ensures f.Some? ==> f.value.totalInteractions == |rows|
  {
    if rows == [] then None
    else
      var n := |rows| as real;
      Some(Features(
        |rows|,
        Mean(WatchPercents(rows)),
        CountLiked(rows, 1) as real / n,
        CountLiked(rows, -1) as real / n,
        CountCompleted(rows) as real / n,
        Mean(Engagements(rows)),
        Join(ContentParts(rows), " ")))
  }

  lemma RatioInUnit(k: nat, m: nat)
    requires 0 < m && k <= m
    ensures 0.0 <= k as real / m as real <= 1.0
  {
    var r := k as real / m as real;
    assert r * m as real == k as real;
    assert (1.0 - r) * m as real >= 0.0;
  }

  /** Two ratios over the same count add up to the ratio of the sum. */
  lemma RatioSum(a: nat, b: nat, m: nat)
    requires 0 < m
    ensures a as real / m as real + b as real / m as real == (a + b) as real / m as real
  {
    var x, y, z := a as real / m as real, b as real / m as real, (a + b) as real / m as real;
    assert x * m as real == a as real && y * m as real == b as real;
    assert z * m as real == (a + b) as real;
    assert (x + y - z) * m as real == 0.0;
  }

  /** The ratios lie in [0, 1] and the like and dislike ratios add up to at
      most 1; for rows obeying the table's CHECK constraints the mean watch
      percentage lies in [0, 100] and the engagement in [0, 1.5]. */
  lemma FeatureRanges(rows: seq<UserRow>)
    requires rows != []
    ensures var f := UserFeatures(rows).value;
      && 0.0 <= f.likeRatio <= 1.0 && 0.0 <= f.dislikeRatio <= 1.0
      && 0.0 <= f.completionRate <= 1.0
      && f.likeRatio + f.dislikeRatio <= 1.0
      && ((forall i :: 0 <= i < |rows| ==> 0 <= WatchedOrZero(rows[i].watched) <= 100) ==>
            0.0 <= f.avgWatchPercent <= 100.0 && 0.0 <= f.engagementScore <= 1.5)
  {
    var n := |rows|;
    var likes, dislikes := CountLiked(rows, 1), CountLiked(rows, -1);
    CountsFit(rows);
    RatioInUnit(likes, n);
    RatioInUnit(dislikes, n);
    RatioInUnit(CountCompleted(rows), n);
    RatioInUnit(likes + dislikes, n);
    RatioSum(likes, dislikes, n);
    if forall i :: 0 <= i < |rows| ==> 0 <= WatchedOrZero(rows[i].watched) <= 100 {
      MeanBounds(WatchPercents(rows), 0.0, 100.0);
      forall i | 0 <= i < |rows|
        ensures 0.0 <= Engagements(rows)[i] <= 1.5
      {
        var e := WatchedOrZero(rows[i].watched) as real / 100.0;
        assert 0.0 <= e <= 1.0;
      }
      MeanBounds(Engagements(rows), 0.0, 1.5);
    }
  }

  /** `get_user_interaction_features`: the engagement accumulation and the
      content-collection loops. */
  method GetUserInteractionFeatures(rows: seq<UserRow>) returns (f: Option<Features>)
    ensures f == UserFeatures(rows)
  {
    if rows == [] {
      return None;
    }
    var n := |rows| as real;
    var totalEngagement := 0.0;
    var i := 0;
    while i < |rows|
      invariant i <= |rows|
      invariant totalEngagement == Sum(Engagements(rows[..i]))
    {
      assert Engagements(rows[..i + 1]) == Engagements(rows[..i]) + [Engagement(rows[i])];
      totalEngagement := totalEngagement + Engagement(rows[i]);
      i := i + 1;
    }
    assert rows[..i] == rows;
    var userContent: seq<string> := [];
    i := 0;
    while i < |rows|
      invariant i <= |rows|
      invariant userContent == ContentParts(rows[..i])
    {
      assert rows[..i + 1][..i] == rows[..i];
      var r := rows[i];
      if r.text.Some? && r.text.value != "" {
        userContent := userContent + [r.text.value + " " + OrEmpty(r.labels)];
      }
      i := i + 1;
    }
    assert rows[..i] == rows;
    f := Some(Features(
      |rows|,
      Mean(WatchPercents(rows)),
      CountLiked(rows, 1) as real / n,
      CountLiked(rows, -1) as real / n,
      CountCompleted(rows) as real / n,
      totalEngagement / n,
      Join(userContent, " ")));
  }

  /** The row of behavioural features, in the order the training matrix
      uses. */
  function FeatureVector(f: Features): (v: seq<real>)
    ensures |v| == FeatureWidth
  {
    [f.totalInteractions as real, f.avgWatchPercent, f.likeRatio, f.dislikeRatio, f.completionRate, f.engagementScore]
  }

  /** `np.hstack([row, zeros])`: a row narrower than `dim` padded with
      zeros to exactly `dim` entries. */
  function Pad(row: seq<real>, dim: nat): (r: seq<real>)
    requires |row| <= dim
    ensures |r| == dim
    ensures r[..|row|] == row
    ensures forall i :: 0 <= i < |row| ==> r[i] == row[i]
    ensures forall i :: |row| <= i < dim ==> r[i] == 0.0
  {
    row + seq(dim - |row|, _ => 0.0)
  }

  /** The combined text of a row is blank exactly when its text and its
      labels are. */
  lemma BlankJoined(row: Option<VideoRow>)
    ensures row.Some? ==>
      (Blank(CombinedText(row.value)) <==> Blank(OrEmpty(row.value.text)) && Blank(OrEmpty(row.value.labels)))
  {
    if row.Some? {
      var a, b := OrEmpty(row.value.text), OrEmpty(row.value.labels);
      assert CombinedText(row.value) == (a + " ") + b;
      BlankAppend(a + " ", b);
      BlankAppend(a, " ");
      assert Blank(" ") by {
        assert Blank(" "[1..]);
      }
    }
  }

  /** `get_video_features`: the combined text, or "" without a row; blank
      exactly when the video has neither text nor labels beyond
      whitespace. */
  function VideoFeatures(row: Option<VideoRow>): (text: string)
    ensures row.None? ==> text == ""
    ensures row.Some? ==> (Blank(text) <==> Blank(OrEmpty(row.value.text)) && Blank(OrEmpty(row.value.labels)))
  {
    BlankJoined(row);
    if row.Some? then CombinedText(row.value) else ""
  }

  /** What `update_embeddings` reads. `allUsers` and `allVideos` are the
      `unique()` id columns of the two queries (empty when the query is);
      `userRows` is the per-user query of `get_user_interaction_features`,
      `videoRow` the per-video query of `get_video_features`; `scale(m, i,
      j)` is entry (i, j) of the standard-scaled matrix `m`, `reduce(texts,
      i)` row i of the SVD-reduced TF-IDF matrix of `texts`, and `fails`
      says the `try` block raises. */
  datatype Training = Training(
    allUsers: seq<int>,
    userRows: int -> seq<UserRow>,
    allVideos: seq<int>,
    videoRow: int -> Option<VideoRow>,
    scale: (seq<seq<real>>, nat, nat) -> real,
    reduce: (seq<string>, nat) -> seq<real>,
    fails: bool)

  /** `if user_data:` -- the user has some interaction. */
  function HasHistory(t: Training): int -> bool
  {
    u => t.userRows(u) != []
  }

  /** `if video_text.strip():` -- the video's text is not blank. */
  function HasText(t: Training): int -> bool
  {
    v => !Blank(VideoFeatures(t.videoRow(v)))
  }

  /** The users that get a feature row: those with history. */
  function TrainedUsers(t: Training): seq<int>
  {
    Filter(t.allUsers, HasHistory(t))
  }

  /** The feature row `get_user_interaction_features` yields for a user with
      history (and none, here the empty row, for a user without). */
  function FeatureRow(t: Training, u: int): seq<real>
  {
    if t.userRows(u) != [] then FeatureVector(UserFeatures(t.userRows(u)).value) else []
  }

  /** The feature rows of `ids`, in order. */
  function RowsFor(t: Training, ids: seq<int>): (m: seq<seq<real>>)
    ensures |m| == |ids|
    decreases |ids|
  {
    if ids == [] then [] else RowsFor(t, ids[..|ids| - 1]) + [FeatureRow(t, ids[|ids| - 1])]
  }

  /** One more user row. */
  lemma RowsForSnoc(t: Training, ids: seq<int>, u: int)
    ensures RowsFor(t, ids + [u]) == RowsFor(t, ids) + [FeatureRow(t, u)]
  {
    assert (ids + [u])[..|ids|] == ids;
  }

  /** Row i of `RowsFor(t, ids)` belongs to `ids[i]`. */
  lemma {:induction false} RowsForAt(t: Training, ids: seq<int>, i: nat)
    requires i < |ids|
    ensures RowsFor(t, ids)[i] == FeatureRow(t, ids[i])
    decreases |ids|
  {
    var n := |ids| - 1;
    assert RowsFor(t, ids) == RowsFor(t, ids[..n]) + [FeatureRow(t, ids[n])];
    if i < n {
      assert ids[..n][i] == ids[i];
      RowsForAt(t, ids[..n], i);
    }
  }

  function UserMatrix(t: Training): (m: seq<seq<real>>)
    ensures |m| == |TrainedUsers(t)|
  {
    RowsFor(t, TrainedUsers(t))
  }

  /** The videos that get a text: those whose text is not blank. */
  function TrainedVideos(t: Training): seq<int>
  {
    Filter(t.allVideos, HasText(t))
  }

  /** The feature texts of `ids`, in order. */
  function TextsFor(t: Training, ids: seq<int>): (texts: seq<string>)
    ensures |texts| == |ids|
    decreases |ids|
  {
    if ids == [] then [] else TextsFor(t, ids[..|ids| - 1]) + [VideoFeatures(t.videoRow(ids[|ids| - 1]))]
  }

  /** One more video text. */
  lemma TextsForSnoc(t: Training, ids: seq<int>, v: int)
    ensures TextsFor(t, ids + [v]) == TextsFor(t, ids) + [VideoFeatures(t.videoRow(v))]
  {
    assert (ids + [v])[..|ids|] == ids;
  }

  /** Text i of `TextsFor(t, ids)` belongs to `ids[i]`. */
  lemma {:induction false} TextsForAt(t: Training, ids: seq<int>, i: nat)
    requires i < |ids|
    ensures TextsFor(t, ids)[i] == VideoFeatures(t.videoRow(ids[i]))
    decreases |ids|
  {
    var n := |ids| - 1;
    assert TextsFor(t, ids) == TextsFor(t, ids[..n]) + [VideoFeatures(t.videoRow(ids[n]))];
    if i < n {
      assert ids[..n][i] == ids[i];
      TextsForAt(t, ids[..n], i);
    }
  }

  function VideoTexts(t: Training): (texts: seq<string>)
    ensures |texts| == |TrainedVideos(t)|
  {
    TextsFor(t, TrainedVideos(t))
  }

  /** What the `for user_id in all_users` loop has collected after the
      users `s`: the ids with history and their feature rows. */
  function UserPass(t: Training, s: seq<int>): (seq<int>, seq<seq<real>>)
    decreases |s|
  {
    if s == [] then ([], [])
    else
      var p := UserPass(t, s[..|s| - 1]);
      var u := s[|s| - 1];
      if t.userRows(u) != [] then (p.0 + [u], p.1 + [FeatureRow(t, u)]) else p
  }

  /** The loop keeps exactly the users with history, each with its own row. */
  lemma {:induction false} UserPassFacts(t: Training, s: seq<int>)
    ensures UserPass(t, s).0 == Filter(s, HasHistory(t))
    ensures UserPass(t, s).1 == RowsFor(t, UserPass(t, s).0)
    decreases |s|
  {
    if s != [] {
      var n := |s| - 1;
      UserPassFacts(t, s[..n]);
      FilterStep(s, n, HasHistory(t));
      assert s[..n + 1] == s;
      RowsForSnoc(t, UserPass(t, s[..n]).0, s[n]);
    }
  }

  /** The `for user_id in all_users` loop. */
  method CollectUsers(t: Training) returns (ids: seq<int>, features: seq<seq<real>>)
    ensures ids == TrainedUsers(t) && features == UserMatrix(t)
  {
    ids, features := [], [];
    var i := 0;
    while i < |t.allUsers|
      invariant i <= |t.allUsers|
      invariant (ids, features) == UserPass(t, t.allUsers[..i])
    {
      var u := t.allUsers[i];
      assert t.allUsers[..i + 1][..i] == t.allUsers[..i];
      var userData := GetUserInteractionFeatures(t.userRows(u));
      if userData.Some? {
        features := features + [FeatureVector(userData.value)];
        ids := ids + [u];
      }
      i := i + 1;
    }
    assert t.allUsers[..i] == t.allUsers;
    UserPassFacts(t, t.allUsers);
  }

  /** What the `for video_id in all_videos` loop has collected after the
      videos `s`: the ids with a non-blank text and those texts. */
  function VideoPass(t: Training, s: seq<int>): (seq<int>, seq<string>)
    decreases |s|
  {
    if s == [] then ([], [])
    else
      var p := VideoPass(t, s[..|s| - 1]);
      var v := s[|s| - 1];
      var text := VideoFeatures(t.videoRow(v));
      if !Blank(text) then (p.0 + [v], p.1 + [text]) else p
  }

  /** The loop keeps exactly the videos with text, each with its own text. */
  lemma {:induction false} VideoPassFacts(t: Training, s: seq<int>)
    ensures VideoPass(t, s).0 == Filter(s, HasText(t))
    ensures VideoPass(t, s).1 == TextsFor(t, VideoPass(t, s).0)
    decreases |s|
  {
    if s != [] {
      var n := |s| - 1;
      VideoPassFacts(t, s[..n]);
      FilterStep(s, n, HasText(t));
      assert s[..n + 1] == s;
      TextsForSnoc(t, VideoPass(t, s[..n]).0, s[n]);
    }
  }

  /** The `for video_id in all_videos` loop. */
  method CollectVideos(t: Training) returns (ids: seq<int>, texts: seq<string>)
    ensures ids == TrainedVideos(t) && texts == VideoTexts(t)
  {
    ids, texts := [], [];
    var i := 0;
    while i < |t.allVideos|
      invariant i <= |t.allVideos|
      invariant (ids, texts) == VideoPass(t, t.allVideos[..i])
    {
      var v := t.allVideos[i];
      assert t.allVideos[..i + 1][..i] == t.allVideos[..i];
      var videoText := VideoFeatures(t.videoRow(v));
      if !Blank(videoText) {
        texts := texts + [videoText];
        ids := ids + [v];
      }
      i := i + 1;
    }
    assert t.allVideos[..i] == t.allVideos;
    VideoPassFacts(t, t.allVideos);
  }

  /** `{keys[i]: values[i] for i in range(len(keys))}`: a later position of
      the same key overwrites an earlier one. */
  function ZipMap<V>(keys: seq<int>, values: seq<V>): (m: map<int, V>)
    requires |keys| == |values|
    ensures forall k :: k in m <==> k in keys
    ensures forall i :: 0 <= i < |keys| ==> keys[i] in m
    decreases |keys|
  {
    if keys == [] then map[]
    else
      var n := |keys| - 1;
      assert forall x :: x in keys <==> x in keys[..n] || x == keys[n];
      ZipMap(keys[..n], values[..n])[keys[n] := values[n]]
  }

  /** A key takes the value at its last position. */
  lemma {:induction false} ZipMapLast<V>(keys: seq<int>, values: seq<V>, i: nat)
    requires |keys| == |values| && i < |keys|
    requires forall j :: i < j < |keys| ==> keys[j] != keys[i]
    ensures keys[i] in ZipMap(keys, values) && ZipMap(keys, values)[keys[i]] == values[i]
    decreases |keys|
  {
    var n := |keys| - 1;
    var front := keys[..n];
    var rest := ZipMap(front, values[..n]);
    assert ZipMap(keys, values) == rest[keys[n] := values[n]];
    if i < n {
      assert keys[n] != keys[i];
      assert front[i] == keys[i] && values[..n][i] == values[i];
      assert forall j :: i < j < n ==> front[j] != front[i];
      ZipMapLast(front, values[..n], i);
    }
  }

  /** Row i of the standard-scaled matrix. */
  function ScaledRow(scale: (seq<seq<real>>, nat, nat) -> real, m: seq<seq<real>>, i: nat): (r: seq<real>)
    ensures |r| == FeatureWidth && forall j :: 0 <= j < FeatureWidth ==> r[j] == scale(m, i, j)
  {
    seq(FeatureWidth, j requires 0 <= j => scale(m, i, j))
  }

  /** Every user row is narrower than the embedding, so the users' tower is
      the standard-scaled feature rows padded with zeros (the truncated-SVD
      branch for wider rows is never taken). */
  function PaddedTower(scale: (seq<seq<real>>, nat, nat) -> real, m: seq<seq<real>>): (rows: seq<seq<real>>)
    ensures |rows| == |m|
    ensures forall i :: 0 <= i < |rows| ==> rows[i] == Pad(ScaledRow(scale, m, i), EmbeddingDim)
  {
    seq(|m|, i requires 0 <= i < |m| => Pad(ScaledRow(scale, m, i), EmbeddingDim))
  }

  /** The reduced TF-IDF rows of the video texts. */
  function ReducedTower(reduce: (seq<string>, nat) -> seq<real>, texts: seq<string>): (rows: seq<seq<real>>)
    ensures |rows| == |texts| && forall i :: 0 <= i < |texts| ==> rows[i] == reduce(texts, i)
  {
    seq(|texts|, i requires 0 <= i < |texts| => reduce(texts, i))
  }

  function UserTower(t: Training): (rows: seq<seq<real>>)
    ensures |rows| == |TrainedUsers(t)|
  {
    PaddedTower(t.scale, UserMatrix(t))
  }

  function VideoTower(t: Training): (rows: seq<seq<real>>)
    ensures |rows| == |TrainedVideos(t)|
  {
    ReducedTower(t.reduce, VideoTexts(t))
  }

  /** Training replaces the embeddings only when both queries returned
      rows, some user has history, some video has text, and nothing
      raises. */
  predicate Trainable(t: Training)
  {
    t.allUsers != [] && t.allVideos != [] && TrainedUsers(t) != [] && TrainedVideos(t) != [] && !t.fails
  }

  function UserEmbeddingsOf(t: Training): map<int, seq<real>>
  {
    ZipMap(TrainedUsers(t), UserTower(t))
  }

  function VideoEmbeddingsOf(t: Training): map<int, seq<real>>
  {
    ZipMap(TrainedVideos(t), VideoTower(t))
  }

  /** Zipping rows of the embedding width gives values of that width. */
  lemma PaddedWidth(keys: seq<int>, rows: seq<seq<real>>)
    requires |keys| == |rows| && forall i :: 0 <= i < |rows| ==> |rows[i]| == EmbeddingDim
    ensures forall u :: u in ZipMap(keys, rows) ==> |ZipMap(keys, rows)[u]| == EmbeddingDim
    decreases |keys|
  {
    if keys != [] {
      var n := |keys| - 1;
      PaddedWidth(keys[..n], rows[..n]);
    }
  }

  /** The embedding of the i-th user with history: `EmbeddingDim`
      entries, the six scaled features, then zeros. */
  lemma UserEmbeddingAt(t: Training, i: nat)
    requires Distinct(t.allUsers) && i < |TrainedUsers(t)|
    ensures var e := UserEmbeddingsOf(t)[TrainedUsers(t)[i]];
      && |e| == EmbeddingDim
      && (forall j :: 0 <= j < FeatureWidth ==> e[j] == t.scale(UserMatrix(t), i, j))
      && (forall j :: FeatureWidth <= j < EmbeddingDim ==> e[j] == 0.0)
  {
    var ids, tower := TrainedUsers(t), UserTower(t);
    assert forall j :: i < j < |ids| ==> ids[j] != ids[i];
    ZipMapLast(ids, tower, i);
    assert UserEmbeddingsOf(t)[ids[i]] == tower[i];
    var row := ScaledRow(t.scale, UserMatrix(t), i);
    assert tower[i] == Pad(row, EmbeddingDim);
  }

  /** Exactly the users with history get an embedding, each of the embedding
      width. */
  lemma UserEmbeddingsShape(t: Training)
    ensures forall u :: u in UserEmbeddingsOf(t) <==> u in t.allUsers && t.userRows(u) != []
    ensures forall u :: u in UserEmbeddingsOf(t) ==> |UserEmbeddingsOf(t)[u]| == EmbeddingDim
  {
    PaddedWidth(TrainedUsers(t), UserTower(t));
  }

  /** Exactly the videos with non-blank text get an embedding, the
      reduced row of their own text. */
  lemma VideoEmbeddingsOnlyNonBlank(t: Training)
    requires Distinct(t.allVideos)
    ensures var m := VideoEmbeddingsOf(t);
      && (forall v :: v in m <==> v in t.allVideos && !Blank(VideoFeatures(t.videoRow(v))))
      && (forall i :: 0 <= i < |TrainedVideos(t)| ==>
            m[TrainedVideos(t)[i]] == t.reduce(VideoTexts(t), i)
            && VideoTexts(t)[i] == VideoFeatures(t.videoRow(TrainedVideos(t)[i])))
  {
    var ids := TrainedVideos(t);
    forall i | 0 <= i < |ids|
      ensures VideoEmbeddingsOf(t)[ids[i]] == t.reduce(VideoTexts(t), i)
      ensures VideoTexts(t)[i] == VideoFeatures(t.videoRow(ids[i]))
    {
      assert forall j :: i < j < |ids| ==> ids[j] != ids[i];
      ZipMapLast(ids, VideoTower(t), i);
      TextsForAt(t, ids, i);
    }
  }

  /** An AVG over the user's like flags, NULL included:
      `CASE WHEN liked = 1 THEN 0.8 WHEN liked = -1 THEN 0.2 ELSE 0.5`. */
  function Preference(liked: Option<int>): (p: real)
    ensures 0.2 <= p <= 0.8
    ensures p == 0.8 <==> liked == Some(1)
    ensures p == 0.2 <==> liked == Some(-1)
  {
    if liked == Some(1) then 0.8 else if liked == Some(-1) then 0.2 else 0.5
  }

  function Preferences(likes: seq<Option<int>>): (ps: seq<real>)
    ensures |ps| == |likes| && forall i :: 0 <= i < |likes| ==> ps[i] == Preference(likes[i])
  {
    seq(|likes|, i requires 0 <= i < |likes| => Preference(likes[i]))
  }

  /** The base of the cold-start estimate: 0.5 without history (the AVG is
      NULL), else the mean preference, which lies in [0.2, 0.8]. */
  function ColdStartBase(likes: seq<Option<int>>): (b: real)
    ensures likes == [] ==> b == 0.5
    ensures likes != [] ==> b == Mean(Preferences(likes))
    ensures 0.2 <= b <= 0.8
  {
    if likes == [] then 0.5
    else
      MeanBounds(Preferences(likes), 0.2, 0.8);
      Mean(Preferences(likes))
  }

  /** `_cold_start_prediction` with the Gaussian draw `noise`: the base plus
      the noise, clamped into [0, 1]. */
  function ColdStartPrediction(likes: seq<Option<int>>, noise: real): (score: real)
    ensures 0.0 <= score <= 1.0
    ensures -0.2 <= noise <= 0.2 ==> score == ColdStartBase(likes) + noise
  {
    Clamp01(ColdStartBase(likes) + noise)
  }

  /** `(similarity + 1) / 2` clamped into [0, 1]: the identity remap of a
      genuine cosine similarity in [-1, 1]. */
  function SimilarityScore(similarity: real): (score: real)
    ensures 0.0 <= score <= 1.0
    ensures -1.0 <= similarity <= 1.0 ==> score == (similarity + 1.0) / 2.0
  {
    Clamp01((similarity + 1.0) / 2.0)
  }

  /** The remap is monotone: a more similar pair never scores lower. */
  lemma SimilarityScoreMonotone(a: real, b: real)
    requires a <= b
    ensures SimilarityScore(a) <= SimilarityScore(b)
  {
  }

  /** `get_model_stats` */
  datatype ModelStats = ModelStats(isFitted: bool, numUsers: nat, numVideos: nat, embeddingDim: nat)

  /** The two maps a successful training stores. */
  ghost predicate Trained(t: Training, users: map<int, seq<real>>, videos: map<int, seq<real>>)
  {
    users == UserEmbeddingsOf(t) && videos == VideoEmbeddingsOf(t)
  }

  /** The body of `update_embeddings` up to the stores: `ok` is false on
      an early return or a raise, else the two new embedding maps. */
  method Train(t: Training) returns (ok: bool, users: map<int, seq<real>>, videos: map<int, seq<real>>)
    ensures ok == Trainable(t)
    ensures ok ==> Trained(t, users, videos)
    ensures forall u :: u in users ==> |users[u]| == EmbeddingDim
  {
    users, videos := map[], map[];
    if t.allUsers == [] || t.allVideos == [] {
      return false, users, videos;
    }
    var userIds, userFeatures := CollectUsers(t);
    var videoIds, videoTexts := CollectVideos(t);
    if userFeatures == [] || videoTexts == [] || t.fails {
      return false, users, videos;
    }
    var userTower := PaddedTower(t.scale, userFeatures);
    PaddedWidth(userIds, userTower);
    users := ZipMap(userIds, userTower);
    videos := ZipMap(videoIds, ReducedTower(t.reduce, videoTexts));
    ok := true;
  }

  class TwoTowerModel {
    var userEmbeddings: map<int, seq<real>>
    var videoEmbeddings: map<int, seq<real>>
    var isFitted: bool

    /** Every user embedding has the embedding width. */
    ghost predicate Valid()
      reads this
    {
      forall u :: u in userEmbeddings ==> |userEmbeddings[u]| == EmbeddingDim
    }

    constructor ()
      ensures Valid() && userEmbeddings == map[] && videoEmbeddings == map[] && !isFitted
    {
      userEmbeddings, videoEmbeddings, isFitted := map[], map[], false;
    }

    /** `update_embeddings`: the early returns and a raising `try` block
        leave everything as it was; success replaces both maps wholesale
        and sets `is_fitted`. */
    method UpdateEmbeddings(t: Training)
      requires Valid()
      modifies this
      ensures Valid()
      ensures Trainable(t) ==> Trained(t, userEmbeddings, videoEmbeddings) && isFitted
      ensures !Trainable(t) ==>
        userEmbeddings == old(userEmbeddings) && videoEmbeddings == old(videoEmbeddings) && isFitted == old(isFitted)
    {
      var ok, users, videos := Train(t);
      if ok {
        userEmbeddings, videoEmbeddings, isFitted := users, videos, true;
        assert Valid();
      }
    }

    /** `predict`: refits first when never fitted; with both embeddings the
        remapped cosine similarity, otherwise the cold-start estimate for
        the user's like flags `likes` and the noise draw. */
    method Predict(userId: int, videoId: int, t: Training, cosine: (seq<real>, seq<real>) -> real,
                   likes: seq<Option<int>>, noise: real) returns (score: real)
      requires Valid()
      modifies this
      ensures Valid()
      ensures 0.0 <= score <= 1.0
      ensures old(isFitted) ==> userEmbeddings == old(userEmbeddings) && videoEmbeddings == old(videoEmbeddings) && isFitted
      ensures !old(isFitted) && Trainable(t) ==> Trained(t, userEmbeddings, videoEmbeddings) && isFitted
      ensures !old(isFitted) && !Trainable(t) ==>
        userEmbeddings == old(userEmbeddings) && videoEmbeddings == old(videoEmbeddings) && !isFitted
      ensures userId in userEmbeddings && videoId in videoEmbeddings ==>
        score == SimilarityScore(cosine(userEmbeddings[userId], videoEmbeddings[videoId]))
      ensures !(userId in userEmbeddings && videoId in videoEmbeddings) ==> score == ColdStartPrediction(likes, noise)
    {
      if !isFitted {
        UpdateEmbeddings(t);
      }
      if userId !in userEmbeddings || videoId !in videoEmbeddings {
        return ColdStartPrediction(likes, noise);
      }
      var similarity := cosine(userEmbeddings[userId], videoEmbeddings[videoId]);
      score := SimilarityScore(similarity);
    }

    /** `get_user_embedding` */
    function GetUserEmbedding(userId: int): (e: Option<seq<real>>)
      requires Valid()
      reads this
      ensures e.Some? <==> userId in userEmbeddings
      ensures e.Some? ==> e.value == userEmbeddings[userId] && |e.value| == EmbeddingDim
    {
      if userId in userEmbeddings then Some(userEmbeddings[userId]) else None
    }

    /** `get_video_embedding` */
    function GetVideoEmbedding(videoId: int): (e: Option<seq<real>>)
      reads this
      ensures e.Some? <==> videoId in videoEmbeddings
      ensures e.Some? ==> e.value == videoEmbeddings[videoId]
    {
      if videoId in videoEmbeddings then Some(videoEmbeddings[videoId]) else None
    }

    /** `get_model_stats` */
    function GetModelStats(): (s: ModelStats)
      reads this
      ensures s.numUsers == |userEmbeddings.Keys| && s.numVideos == |videoEmbeddings.Keys|
      ensures s.isFitted == isFitted && s.embeddingDim == EmbeddingDim
    {
      ModelStats(isFitted, |userEmbeddings|, |videoEmbeddings|, EmbeddingDim)
    }
  }

  /** The keys of a zipped map are the zipped keys; distinct keys are as
      many as the map's entries. */
  lemma ZipMapSize<V>(keys: seq<int>, values: seq<V>)
    requires |keys| == |values| && Distinct(keys)
    ensures |ZipMap(keys, values).Keys| == |keys|
  {
    assert ZipMap(keys, values).Keys == (set x | x in keys);
    DistinctCardinality(keys);
  }

  /** After training on distinct ids, the statistics count the users with
      history and the videos with text. */
  lemma StatsAfterTraining(t: Training)
    requires Distinct(t.allUsers) && Distinct(t.allVideos)
    ensures |UserEmbeddingsOf(t).Keys| == |TrainedUsers(t)|
    ensures |VideoEmbeddingsOf(t).Keys| == |TrainedVideos(t)|
  {
    ZipMapSize(TrainedUsers(t), UserTower(t));
    ZipMapSize(TrainedVideos(t), VideoTower(t));
  }
}
