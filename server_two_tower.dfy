/** The TF-IDF two-tower model defined inside api/server.py and the
    `/recommend/twoTower/{user_id}` endpoint that ranks with it.

    A user's text repeats the content of every interacted video in
    proportion to how much it was watched and liked; users and videos are
    embedded as rows of one TF-IDF matrix fitted over the non-blank texts,
    and a prediction is the normalised dot product of the two rows.

    Query results are inputs. `tfidf(texts, i)` stands for row i of
    `fit_transform(texts)` and `norm` for `np.linalg.norm`; the uniform
    draw of the cold-start fallback is a nondeterministic choice. */
module ServerTwoTower {
  import opened Common
  import opened Similarity
  import opened HybridScoring
  import opened Sorting
  import opened TwoTower

  /** Python's `int(x)`: truncation toward zero. */
  function Trunc(x: real): (k: int)
    ensures x >= 0.0 ==> k == x.Floor
    ensures x < 0.0 ==> k == -((-x).Floor)
  {
    if x >= 0.0 then x.Floor else -((-x).Floor)
  }

  /** `(watched_percent or 0) / 100`, doubled for a like and halved for a
      dislike. */
  function Weight(r: UserRow): (w: real)
    ensures 0 <= WatchedOrZero(r.watched) <= 100 ==> 0.0 <= w <= 2.0
    ensures r.liked != Some(1) && r.liked != Some(-1) ==> w == WatchedOrZero(r.watched) as real / 100.0
  {
    var w := WatchedOrZero(r.watched) as real / 100.0;
    if r.liked == Some(1) then w * 2.0 else if r.liked == Some(-1) then w * 0.5 else w
  }

  /** How often `range(int(weight * 5) + 1)` repeats the row's content
      (none when the bound is not positive). */
  function Repetitions(r: UserRow): (k: nat)
    ensures k >= 1 <==> Weight(r) * 5.0 > -1.0
  {
    var k := Trunc(Weight(r) * 5.0) + 1;
    if k > 0 then k else 0
  }

  /** `f"{text or ''} {labels or ''}"` */
  function RowContent(r: UserRow): string
  {
    OrEmpty(r.text) + " " + OrEmpty(r.labels)
  }

  /** The `weighted_content` list: each row's content, repeated. */
  function WeightedContent(rows: seq<UserRow>): (weighted: seq<string>)
    ensures forall x :: x in weighted ==> exists i :: 0 <= i < |rows| && x == RowContent(rows[i])
    decreases |rows|
  {
    if rows == [] then []
    else
      var n := |rows| - 1;
      var front := WeightedContent(rows[..n]);
      assert forall i :: 0 <= i < n ==> rows[..n][i] == rows[i];
      front + seq(Repetitions(rows[n]), _ => RowContent(rows[n]))
  }

  /** `get_user_features` on the rows of one user. */
  function UserText(rows: seq<UserRow>): (text: string)
    ensures rows == [] ==> text == ""
  {
    if rows == [] then "" else Join(WeightedContent(rows), " ")
  }

  /** Within the table's CHECK constraints every row is repeated at least
      once and at most 11 times; a fully watched liked video 11 times. */
  lemma RepetitionsBounds(r: UserRow)
    requires 0 <= WatchedOrZero(r.watched) <= 100
    ensures 1 <= Repetitions(r) <= 11
    ensures WatchedOrZero(r.watched) == 100 && r.liked == Some(1) ==> Repetitions(r) == 11
  {
    var w := WatchedOrZero(r.watched) as real / 100.0;
    assert 0.0 <= w <= 1.0;
    assert 0.0 <= Weight(r) * 5.0 <= 10.0;
  }

  /** Within the CHECK constraints every interacted video's content occurs
      in the weighted list, and the list is at least as long as the
      history. */
  lemma {:induction false} EveryRowWeighted(rows: seq<UserRow>)
    requires forall i :: 0 <= i < |rows| ==> 0 <= WatchedOrZero(rows[i].watched) <= 100
    ensures |WeightedContent(rows)| >= |rows|
    ensures forall i :: 0 <= i < |rows| ==> RowContent(rows[i]) in WeightedContent(rows)
    decreases |rows|
  {
    if rows != [] {
      var n := |rows| - 1;
      var front := rows[..n];
      var last := rows[n];
      assert forall i :: 0 <= i < n ==> front[i] == rows[i];
      EveryRowWeighted(front);
      RepetitionsBounds(last);
      var head := WeightedContent(front);
      var tail := seq(Repetitions(last), _ => RowContent(last));
      assert WeightedContent(rows) == head + tail;
      assert tail[0] == RowContent(last);
      forall i | 0 <= i < n
        ensures RowContent(rows[i]) in head
      {
        assert RowContent(front[i]) in head;
      }
    }
  }

  /** The `weighted_content` loops of `get_user_features`. */
  method GetUserFeatures(rows: seq<UserRow>) returns (text: string)
    ensures text == UserText(rows)
  {
    if rows == [] {
      return "";
    }
    var weighted: seq<string> := [];
    var i := 0;
    while i < |rows|
      invariant i <= |rows|
      invariant weighted == WeightedContent(rows[..i])
    {
      assert rows[..i + 1][..i] == rows[..i];
      var content := RowContent(rows[i]);
      var k := Trunc(Weight(rows[i]) * 5.0) + 1;
      var j := 0;
      ghost var before := weighted;
      while j < k
        invariant 0 <= j <= Repetitions(rows[i])
        invariant weighted == before + seq(j, _ => content)
      {
        weighted := weighted + [content];
        j := j + 1;
      }
      i := i + 1;
    }
    assert rows[..i] == rows;
    text := Join(weighted, " ");
  }

  /** What this `update_embeddings` reads: the `unique()` user ids of the
      interactions, the per-user query, the video ids, the per-video
      query, the TF-IDF rows and whether fitting raises. */
  datatype Corpus = Corpus(
    allUsers: seq<int>,
    userRows: int -> seq<UserRow>,
    allVideos: seq<int>,
    videoRow: int -> Option<VideoRow>,
    tfidf: (seq<string>, nat) -> seq<real>,
    fails: bool)

  /** `get_video_features` and `get_user_features`, by id. */
  function VideoText(c: Corpus): int -> string
  {
    v => VideoFeatures(c.videoRow(v))
  }

  function UserTextOf(c: Corpus): int -> string
  {
    u => UserText(c.userRows(u))
  }

  /** The text of each id, in order. */
  function TextsOf(ids: seq<int>, text: int -> string): (texts: seq<string>)
    ensures |texts| == |ids| && forall i :: 0 <= i < |ids| ==> texts[i] == text(ids[i])
  {
    seq(|ids|, i requires 0 <= i < |ids| => text(ids[i]))
  }

  /** The ids whose text is not blank. */
  function NonBlankText(text: int -> string): int -> bool
  {
    v => !Blank(text(v))
  }

  /** `[text for text in all_texts if text.strip()]` */
  function KeepNonBlank(texts: seq<string>): (kept: seq<string>)
    ensures |kept| <= |texts|
    ensures forall i :: 0 <= i < |kept| ==> !Blank(kept[i])
    decreases |texts|
  {
    if texts == [] then []
    else
      var n := |texts| - 1;
      KeepNonBlank(texts[..n]) + (if Blank(texts[n]) then [] else [texts[n]])
  }

  /** The texts the vectoriser is fitted on: video texts first, then user
      texts, blank ones dropped. */
  function FittedTexts(c: Corpus): seq<string>
  {
    KeepNonBlank(TextsOf(c.allVideos, VideoText(c)) + TextsOf(c.allUsers, UserTextOf(c)))
  }

  /** `count` consecutive rows of the matrix fitted on `texts`, from row
      `offset` on. */
  function MatrixRows(tfidf: (seq<string>, nat) -> seq<real>, texts: seq<string>, offset: nat, count: nat): (rows: seq<seq<real>>)
    ensures |rows| == count && forall i :: 0 <= i < count ==> rows[i] == tfidf(texts, offset + i)
  {
    seq(count, i requires 0 <= i => tfidf(texts, offset + i))
  }

  /** `tfidf_matrix[:len(all_videos)]` */
  function VideoRows(c: Corpus): (rows: seq<seq<real>>)
    ensures |rows| == Min(|c.allVideos|, |FittedTexts(c)|)
  {
    MatrixRows(c.tfidf, FittedTexts(c), 0, Min(|c.allVideos|, |FittedTexts(c)|))
  }

  /** `tfidf_matrix[len(all_videos):len(all_videos) + len(all_users)]` */
  function UserRows(c: Corpus): (rows: seq<seq<real>>)
    ensures |rows| == Max(0, Min(|c.allVideos| + |c.allUsers|, |FittedTexts(c)|) - |c.allVideos|)
  {
    var offset := |c.allVideos|;
    MatrixRows(c.tfidf, FittedTexts(c), offset, Max(0, Min(offset + |c.allUsers|, |FittedTexts(c)|) - offset))
  }

  /** `for i, id in enumerate(ids): if i < len(rows): m[id] = rows[i]` */
  function Assign(m: map<int, seq<real>>, ids: seq<int>, rows: seq<seq<real>>): map<int, seq<real>>
    decreases |ids|
  {
    if ids == [] then m
    else
      var n := |ids| - 1;
      var front := Assign(m, ids[..n], rows);
      if n < |rows| then front[ids[n] := rows[n]] else front
  }

  /** Only the first `min(|ids|, |rows|)` ids get an entry. */
  lemma {:induction false} AssignKeys(m: map<int, seq<real>>, ids: seq<int>, rows: seq<seq<real>>, k: int)
    ensures k in Assign(m, ids, rows) <==> k in m || k in ids[..Min(|ids|, |rows|)]
    decreases |ids|
  {
    if ids != [] {
      var n := |ids| - 1;
      AssignKeys(m, ids[..n], rows, k);
      assert ids[..n][..Min(n, |rows|)] == ids[..Min(n, |rows|)];
      if n < |rows| {
        assert ids[..Min(|ids|, |rows|)] == ids[..Min(n, |rows|)] + [ids[n]];
      } else {
        assert Min(|ids|, |rows|) == Min(n, |rows|);
      }
    }
  }

  /** An entry whose id is not stored keeps its value. */
  lemma {:induction false} AssignKeeps(m: map<int, seq<real>>, ids: seq<int>, rows: seq<seq<real>>, k: int)
    requires k in m && k !in ids
    ensures k in Assign(m, ids, rows) && Assign(m, ids, rows)[k] == m[k]
    decreases |ids|
  {
    if ids != [] {
      var n := |ids| - 1;
      assert forall x :: x in ids[..n] ==> x in ids;
      AssignKeeps(m, ids[..n], rows, k);
    }
  }

  /** The last store of an id wins. */
  lemma {:induction false} AssignLast(m: map<int, seq<real>>, ids: seq<int>, rows: seq<seq<real>>, i: nat)
    requires i < |ids| && i < |rows|
    requires forall j :: i < j < |ids| ==> ids[j] != ids[i]
    ensures ids[i] in Assign(m, ids, rows) && Assign(m, ids, rows)[ids[i]] == rows[i]
    decreases |ids|
  {
    var n := |ids| - 1;
    if i < n {
      assert ids[..n][i] == ids[i];
      AssignLast(m, ids[..n], rows, i);
    }
  }

  /** The stores happen when both queries returned rows, some text is not
      blank and the vectoriser does not raise. */
  predicate Refits(c: Corpus)
  {
    c.allUsers != [] && c.allVideos != [] && FittedTexts(c) != [] && !c.fails
  }

  /** The two maps after the stores of `update_embeddings`, as written. */
  ghost predicate Refreshed(c: Corpus, users0: map<int, seq<real>>, videos0: map<int, seq<real>>,
                            users: map<int, seq<real>>, videos: map<int, seq<real>>)
  {
    users == Assign(users0, c.allUsers, UserRows(c)) && videos == Assign(videos0, c.allVideos, VideoRows(c))
  }

  /** The videos and users whose own text is not blank, in order. */
  function KeptVideos(c: Corpus): seq<int>
  {
    Filter(c.allVideos, NonBlankText(VideoText(c)))
  }

  function KeptUsers(c: Corpus): seq<int>
  {
    Filter(c.allUsers, NonBlankText(UserTextOf(c)))
  }

  /** Dropping blank texts commutes with concatenation. */
  lemma {:induction false} KeepNonBlankAppend(a: seq<string>, b: seq<string>)
    ensures KeepNonBlank(a + b) == KeepNonBlank(a) + KeepNonBlank(b)
    decreases |b|
  {
    if b == [] {
      assert a + b == a;
    } else {
      var n := |b| - 1;
      assert (a + b)[..|a| + n] == a + b[..n];
      assert (a + b)[|a| + n] == b[n];
      KeepNonBlankAppend(a, b[..n]);
    }
  }

  /** Dropping the blank texts is taking the texts of the ids whose text
      is not blank. */
  lemma {:induction false} KeptTexts(ids: seq<int>, text: int -> string)
    ensures KeepNonBlank(TextsOf(ids, text)) == TextsOf(Filter(ids, NonBlankText(text)), text)
    decreases |ids|
  {
    if ids != [] {
      var n := |ids| - 1;
      assert TextsOf(ids, text)[..n] == TextsOf(ids[..n], text);
      KeptTexts(ids[..n], text);
      var kept := Filter(ids[..n], NonBlankText(text));
      assert TextsOf(kept + [ids[n]], text) == TextsOf(kept, text) + [text(ids[n])];
    }
  }

  /** The fitted texts are exactly the kept videos' texts followed by the
      kept users' texts. */
  lemma FittedTextsAligned(c: Corpus)
    ensures FittedTexts(c) == TextsOf(KeptVideos(c), VideoText(c)) + TextsOf(KeptUsers(c), UserTextOf(c))
  {
    KeepNonBlankAppend(TextsOf(c.allVideos, VideoText(c)), TextsOf(c.allUsers, UserTextOf(c)));
    KeptTexts(c.allVideos, VideoText(c));
    KeptTexts(c.allUsers, UserTextOf(c));
  }

  /** So row i of the matrix is fitted on the text of the i-th kept video,
      and row `|kept videos| + i` on that of the i-th kept user. */
  lemma FittedTextOwners(c: Corpus)
    ensures |FittedTexts(c)| == |KeptVideos(c)| + |KeptUsers(c)|
    ensures forall i :: 0 <= i < |KeptVideos(c)| ==> FittedTexts(c)[i] == VideoText(c)(KeptVideos(c)[i])
    ensures forall i :: 0 <= i < |KeptUsers(c)| ==>
      FittedTexts(c)[|KeptVideos(c)| + i] == UserTextOf(c)(KeptUsers(c)[i])
  {
    FittedTextsAligned(c);
    TextOwners(FittedTexts(c), KeptVideos(c), VideoText(c), KeptUsers(c), UserTextOf(c));
  }

  /** The texts of two id lists, one after the other: position i holds the
      text of the i-th id of the first list, and position `|first| + i`
      that of the i-th id of the second. */
  lemma TextOwners(texts: seq<string>, first: seq<int>, firstText: int -> string,
                   second: seq<int>, secondText: int -> string)
    requires texts == TextsOf(first, firstText) + TextsOf(second, secondText)
    ensures |texts| == |first| + |second|
    ensures forall i :: 0 <= i < |first| ==> texts[i] == firstText(first[i])
    ensures forall i :: 0 <= i < |second| ==> texts[|first| + i] == secondText(second[i])
  {
    TextsAfter(texts, TextsOf(first, firstText), second, secondText);
  }

  /** The texts of `ids` placed after `front`. */
  lemma TextsAfter(texts: seq<string>, front: seq<string>, ids: seq<int>, text: int -> string)
    requires texts == front + TextsOf(ids, text)
    ensures forall i :: 0 <= i < |ids| ==> texts[|front| + i] == text(ids[i])
  {
    forall i | 0 <= i < |ids|
      ensures texts[|front| + i] == text(ids[i])
    {
      ConcatSecond(front, TextsOf(ids, text), i);
    }
  }

  /** The rows of the kept videos and users, each paired with its own
      text. */
  function AlignedVideoRows(c: Corpus): (rows: seq<seq<real>>)
    ensures |rows| == |KeptVideos(c)|
  {
    MatrixRows(c.tfidf, FittedTexts(c), 0, |KeptVideos(c)|)
  }

  function AlignedUserRows(c: Corpus): (rows: seq<seq<real>>)
    ensures |rows| == |KeptUsers(c)|
  {
    MatrixRows(c.tfidf, FittedTexts(c), |KeptVideos(c)|, |KeptUsers(c)|)
  }

  /** The two maps after the corrected stores. */
  ghost predicate AlignedRefresh(c: Corpus, users0: map<int, seq<real>>, videos0: map<int, seq<real>>,
                                 users: map<int, seq<real>>, videos: map<int, seq<real>>)
  {
    users == Assign(users0, KeptUsers(c), AlignedUserRows(c)) && videos == Assign(videos0, KeptVideos(c), AlignedVideoRows(c))
  }

  /** After the corrected stores, exactly the videos and users with a
      non-blank text have gained an embedding. */
  lemma AlignedKeys(c: Corpus, users0: map<int, seq<real>>, videos0: map<int, seq<real>>,
                    users: map<int, seq<real>>, videos: map<int, seq<real>>)
    requires AlignedRefresh(c, users0, videos0, users, videos)
    ensures forall v :: v in videos <==> v in videos0 || (v in c.allVideos && !Blank(VideoFeatures(c.videoRow(v))))
    ensures forall u :: u in users <==> u in users0 || (u in c.allUsers && !Blank(UserText(c.userRows(u))))
  {
    var vs, vrows := KeptVideos(c), AlignedVideoRows(c);
    var us, urows := KeptUsers(c), AlignedUserRows(c);
    assert vs[..Min(|vs|, |vrows|)] == vs;
    assert us[..Min(|us|, |urows|)] == us;
    forall v | true
      ensures v in videos <==> v in videos0 || (v in c.allVideos && !Blank(VideoFeatures(c.videoRow(v))))
    {
      AssignKeys(videos0, vs, vrows, v);
      assert NonBlankText(VideoText(c))(v) == !Blank(VideoFeatures(c.videoRow(v)));
    }
    forall u | true
      ensures u in users <==> u in users0 || (u in c.allUsers && !Blank(UserText(c.userRows(u))))
    {
      AssignKeys(users0, us, urows, u);
      assert NonBlankText(UserTextOf(c))(u) == !Blank(UserText(c.userRows(u)));
    }
  }

  /** Storing as many rows as distinct ids gives every id its own row. */
  lemma AssignDistinct(m: map<int, seq<real>>, ids: seq<int>, rows: seq<seq<real>>)
    requires Distinct(ids) && |ids| <= |rows|
    ensures forall i :: 0 <= i < |ids| ==> ids[i] in Assign(m, ids, rows) && Assign(m, ids, rows)[ids[i]] == rows[i]
  {
    forall i | 0 <= i < |ids|
      ensures ids[i] in Assign(m, ids, rows) && Assign(m, ids, rows)[ids[i]] == rows[i]
    {
      AssignLast(m, ids, rows, i);
    }
  }

  /** After the corrected stores on distinct ids, the i-th kept video holds
      row i of the matrix: by `FittedTextsAligned`, the row of its own
      text. */
  lemma AlignedVideoRowsStored(c: Corpus, videos0: map<int, seq<real>>, videos: map<int, seq<real>>)
    requires Distinct(c.allVideos)
    requires videos == Assign(videos0, KeptVideos(c), AlignedVideoRows(c))
    ensures forall i :: 0 <= i < |KeptVideos(c)| ==>
      KeptVideos(c)[i] in videos && videos[KeptVideos(c)[i]] == c.tfidf(FittedTexts(c), i)
  {
    AssignDistinct(videos0, KeptVideos(c), AlignedVideoRows(c));
  }

  /** The i-th kept user holds row `|kept videos| + i`, the row of its own
      text. */
  lemma AlignedUserRowsStored(c: Corpus, users0: map<int, seq<real>>, users: map<int, seq<real>>)
    requires Distinct(c.allUsers)
    requires users == Assign(users0, KeptUsers(c), AlignedUserRows(c))
    ensures forall i :: 0 <= i < |KeptUsers(c)| ==>
      KeptUsers(c)[i] in users && users[KeptUsers(c)[i]] == c.tfidf(FittedTexts(c), |KeptVideos(c)| + i)
  {
    AssignDistinct(users0, KeptUsers(c), AlignedUserRows(c));
  }

  /** As written, the stores reach only the ids whose position is below
      the height of their slice of the matrix; earlier entries of other
      ids persist. */
  lemma RefreshedKeys(c: Corpus, users0: map<int, seq<real>>, videos0: map<int, seq<real>>,
                      users: map<int, seq<real>>, videos: map<int, seq<real>>)
    requires Refreshed(c, users0, videos0, users, videos)
    ensures forall v :: v in videos <==> v in videos0 || v in c.allVideos[..|VideoRows(c)|]
    ensures forall u :: u in users <==> u in users0 || u in c.allUsers[..|UserRows(c)|]
    ensures forall v :: v in videos0 && v !in c.allVideos ==> v in videos && videos[v] == videos0[v]
  {
    forall v | true
      ensures v in videos <==> v in videos0 || v in c.allVideos[..|VideoRows(c)|]
    {
      AssignKeys(videos0, c.allVideos, VideoRows(c), v);
    }
    forall u | true
      ensures u in users <==> u in users0 || u in c.allUsers[..|UserRows(c)|]
    {
      AssignKeys(users0, c.allUsers, UserRows(c), u);
      assert Min(|c.allUsers|, |UserRows(c)|) == |UserRows(c)|;
    }
    forall v | v in videos0 && v !in c.allVideos
      ensures v in videos && videos[v] == videos0[v]
    {
      AssignKeeps(videos0, c.allVideos, VideoRows(c), v);
    }
  }

  /** `np.dot` */
  function Dot(u: seq<real>, v: seq<real>): (d: real)
    requires |u| == |v|
    ensures (forall i :: 0 <= i < |u| ==> u[i] == 0.0) ==> d == 0.0
    decreases |u|
  {
    if u == [] then 0.0
    else
      var n := |u| - 1;
      assert forall i :: 0 <= i < n ==> u[..n][i] == u[i];
      Dot(u[..n], v[..n]) + u[n] * v[n]
  }

  predicate NonNegative(u: seq<real>)
  {
    forall i :: 0 <= i < |u| ==> u[i] >= 0.0
  }

  lemma {:induction false} DotNonNegative(u: seq<real>, v: seq<real>)
    requires |u| == |v| && NonNegative(u) && NonNegative(v)
    ensures Dot(u, v) >= 0.0
    decreases |u|
  {
    if u != [] {
      var n := |u| - 1;
      DotNonNegative(u[..n], v[..n]);
      assert u[n] * v[n] >= 0.0;
    }
  }

  /** `dot(u, v) / (norm(u) * norm(v) + 1e-8)`: the guard keeps the
      denominator positive whenever the norms are non-negative. */
  function CosineScore(u: seq<real>, v: seq<real>, norm: seq<real> -> real): (score: real)
    requires |u| == |v|
    requires norm(u) >= 0.0 && norm(v) >= 0.0
    ensures NonNegative(u) && NonNegative(v) ==> score >= 0.0
  {
    var d := norm(u) * norm(v) + 0.00000001;
    assert d > 0.0;
    if NonNegative(u) && NonNegative(v) then
      DotNonNegative(u, v);
      Dot(u, v) / d
    else
      Dot(u, v) / d
  }

  class TwoTowerModel {
    var userEmbeddings: map<int, seq<real>>
    var videoEmbeddings: map<int, seq<real>>
    var isFitted: bool

    constructor ()
      ensures userEmbeddings == map[] && videoEmbeddings == map[] && !isFitted
    {
      userEmbeddings, videoEmbeddings, isFitted := map[], map[], false;
    }

    /** The two text-collecting loops. */
    static method CollectTexts(c: Corpus) returns (videoTexts: seq<string>, userTexts: seq<string>)
      ensures videoTexts == TextsOf(c.allVideos, VideoText(c)) && userTexts == TextsOf(c.allUsers, UserTextOf(c))
    {
      videoTexts, userTexts := [], [];
      var i := 0;
      while i < |c.allVideos|
        invariant i <= |c.allVideos| && videoTexts == TextsOf(c.allVideos[..i], VideoText(c))
      {
        videoTexts := videoTexts + [VideoFeatures(c.videoRow(c.allVideos[i]))];
        i := i + 1;
      }
      assert c.allVideos[..i] == c.allVideos;
      i := 0;
      while i < |c.allUsers|
        invariant i <= |c.allUsers| && userTexts == TextsOf(c.allUsers[..i], UserTextOf(c))
      {
        var text := GetUserFeatures(c.userRows(c.allUsers[i]));
        userTexts := userTexts + [text];
        i := i + 1;
      }
      assert c.allUsers[..i] == c.allUsers;
    }

    /** One `for i, id in enumerate(ids)` store loop over the video map. */
    method StoreVideos(ids: seq<int>, rows: seq<seq<real>>)
      modifies this
      ensures videoEmbeddings == Assign(old(videoEmbeddings), ids, rows)
      ensures userEmbeddings == old(userEmbeddings) && isFitted == old(isFitted)
    {
      var i := 0;
      while i < |ids|
        invariant i <= |ids|
        invariant videoEmbeddings == Assign(old(videoEmbeddings), ids[..i], rows)
        invariant userEmbeddings == old(userEmbeddings) && isFitted == old(isFitted)
      {
        assert ids[..i + 1][..i] == ids[..i];
        if i < |rows| {
          videoEmbeddings := videoEmbeddings[ids[i] := rows[i]];
        }
        i := i + 1;
      }
      assert ids[..i] == ids;
    }

    /** The same loop over the user map. */
    method StoreUsers(ids: seq<int>, rows: seq<seq<real>>)
      modifies this
      ensures userEmbeddings == Assign(old(userEmbeddings), ids, rows)
      ensures videoEmbeddings == old(videoEmbeddings) && isFitted == old(isFitted)
    {
      var i := 0;
      while i < |ids|
        invariant i <= |ids|
        invariant userEmbeddings == Assign(old(userEmbeddings), ids[..i], rows)
        invariant videoEmbeddings == old(videoEmbeddings) && isFitted == old(isFitted)
      {
        assert ids[..i + 1][..i] == ids[..i];
        if i < |rows| {
          userEmbeddings := userEmbeddings[ids[i] := rows[i]];
        }
        i := i + 1;
      }
      assert ids[..i] == ids;
    }

    /** `update_embeddings` as written: entries are stored in place (earlier
        ones persist), only for positions below the height of each slice
        of the matrix, and by position in the unfiltered id lists. */
    method UpdateEmbeddings(c: Corpus)
      modifies this
      ensures Refits(c) ==> Refreshed(c, old(userEmbeddings), old(videoEmbeddings), userEmbeddings, videoEmbeddings) && isFitted
      ensures !Refits(c) ==>
        userEmbeddings == old(userEmbeddings) && videoEmbeddings == old(videoEmbeddings) && isFitted == old(isFitted)
    {
      if c.allUsers == [] || c.allVideos == [] {
        return;
      }
      var videoTexts, userTexts := CollectTexts(c);
      var allTexts := KeepNonBlank(videoTexts + userTexts);
      if allTexts != [] && !c.fails {
        StoreVideos(c.allVideos, VideoRows(c));
        StoreUsers(c.allUsers, UserRows(c));
        isFitted := true;
      }
    }

    /** `update_embeddings` with every id paired with the row of its own
        text: the texts are filtered together with their ids. */
    method UpdateEmbeddingsCorrected(c: Corpus)
      modifies this
      ensures Refits(c) ==> AlignedRefresh(c, old(userEmbeddings), old(videoEmbeddings), userEmbeddings, videoEmbeddings) && isFitted
      ensures !Refits(c) ==>
        userEmbeddings == old(userEmbeddings) && videoEmbeddings == old(videoEmbeddings) && isFitted == old(isFitted)
    {
      if c.allUsers == [] || c.allVideos == [] {
        return;
      }
      var videoTexts, userTexts := CollectTexts(c);
      var allTexts := KeepNonBlank(videoTexts + userTexts);
      if allTexts != [] && !c.fails {
        StoreVideos(KeptVideos(c), AlignedVideoRows(c));
        StoreUsers(KeptUsers(c), AlignedUserRows(c));
        isFitted := true;
      }
    }

    /** `predict`: a model never fitted runs `update_embeddings` (as
        written) first; then the guarded cosine of the two rows when both
        exist, which raises when rows from fits of different vocabulary
        sizes meet; otherwise a draw from [0, 0.5). */
    method Predict(userId: int, videoId: int, c: Corpus, norm: seq<real> -> real) returns (r: Result<real>)
      requires forall x :: norm(x) >= 0.0
      modifies this
      ensures AfterPredict(c, old(isFitted), old(userEmbeddings), old(videoEmbeddings), isFitted, userEmbeddings, videoEmbeddings)
      ensures Predicted(userEmbeddings, videoEmbeddings, userId, videoId, norm, r)
    {
      if !isFitted {
        UpdateEmbeddings(c);
      }
      if userId in userEmbeddings && videoId in videoEmbeddings {
        var u, v := userEmbeddings[userId], videoEmbeddings[videoId];
        if |u| != |v| {
          return Err("ValueError: shapes not aligned");
        }
        return Ok(CosineScore(u, v, norm));
      }
      var draw :| 0.0 <= draw < 1.0;
      r := Ok(draw * 0.5);
    }
  }

  /** What `predict` answers from the maps `users` and `videos`: the guarded
      cosine of the two rows when both exist, an error when their widths
      differ, and otherwise some value in [0, 0.5). */
  ghost predicate Predicted(users: map<int, seq<real>>, videos: map<int, seq<real>>, userId: int, videoId: int,
                            norm: seq<real> -> real, r: Result<real>)
    requires forall x :: norm(x) >= 0.0
  {
    if userId in users && videoId in videos then
      var u, v := users[userId], videos[videoId];
      if |u| == |v| then r == Ok(CosineScore(u, v, norm)) else r.Err?
    else r.Ok? && 0.0 <= r.value < 0.5
  }

  /** The model's state after `predict`: a fitted model is left as it is;
      an unfitted one is refreshed by `update_embeddings` as written, and
      stays unfitted when that stores nothing. */
  ghost predicate AfterPredict(c: Corpus, fitted0: bool, users0: map<int, seq<real>>, videos0: map<int, seq<real>>,
                               fitted: bool, users: map<int, seq<real>>, videos: map<int, seq<real>>)
  {
    if fitted0 then fitted && users == users0 && videos == videos0
    else if Refits(c) then fitted && Refreshed(c, users0, videos0, users, videos)
    else !fitted && users == users0 && videos == videos0
  }

  /** Only the first prediction can change the model: a second one from the
      state the first left behind changes nothing. */
  lemma AfterPredictSettles(c: Corpus, f0: bool, u0: map<int, seq<real>>, v0: map<int, seq<real>>,
                            f1: bool, u1: map<int, seq<real>>, v1: map<int, seq<real>>,
                            f2: bool, u2: map<int, seq<real>>, v2: map<int, seq<real>>)
    requires AfterPredict(c, f0, u0, v0, f1, u1, v1) && AfterPredict(c, f1, u1, v1, f2, u2, v2)
    ensures f2 == f1 && u2 == u1 && v2 == v1
    ensures AfterPredict(c, f0, u0, v0, f2, u2, v2)
  {
  }

  /** `SELECT videoId FROM videos WHERE videoId NOT IN (...)`: the videos
      the user has not interacted with. */
  function AvailableVideos(videos: seq<int>, interacted: set<int>): (available: seq<int>)
    ensures forall v :: v in available <==> v in videos && v !in interacted
  {
    Filter(videos, v => v !in interacted)
  }

  /** The records of the scored videos, in the order of the query. */
  ghost predicate ScoredAll(scored: seq<Rec>, available: seq<int>)
  {
    Ids(scored) == available && forall i :: 0 <= i < |scored| ==> scored[i].reason == TwoTowerSimilarity
  }

  /** Scoring one more video of the query. */
  lemma ScoredAllSnoc(scored: seq<Rec>, available: seq<int>, i: nat, score: real)
    requires i < |available| && ScoredAll(scored, available[..i])
    ensures ScoredAll(scored + [Rec(available[i], score, TwoTowerSimilarity)], available[..i + 1])
  {
    IdsAppend(scored, Rec(available[i], score, TwoTowerSimilarity));
    assert available[..i + 1] == available[..i] + [available[i]];
  }

  /** `recommend_two_tower`: every video the user has not interacted with
      is scored by `predict`, and the five best, highest first, are
      returned; a raising prediction turns the whole request into an
      error. Only the first prediction can refit the model, so every score
      is what `predict` answers from the model's final maps. */
  method RecommendTwoTower(model: TwoTowerModel, userId: int, videos: seq<int>, interacted: set<int>,
                           c: Corpus, norm: seq<real> -> real) returns (r: Result<seq<Rec>>, scored: seq<Rec>)
    requires forall x :: norm(x) >= 0.0
    modifies model
    ensures AvailableVideos(videos, interacted) == [] ==> r == Ok([]) && unchanged(model)
    ensures AvailableVideos(videos, interacted) != [] ==>
      AfterPredict(c, old(model.isFitted), old(model.userEmbeddings), old(model.videoEmbeddings),
                   model.isFitted, model.userEmbeddings, model.videoEmbeddings)
    ensures forall i :: 0 <= i < |scored| ==>
      Predicted(model.userEmbeddings, model.videoEmbeddings, userId, scored[i].videoId, norm, Ok(scored[i].score))
    ensures r.Ok? ==> ScoredAll(scored, AvailableVideos(videos, interacted)) && r.value == Top(scored, 5)
    ensures r.Err? ==> exists v :: (v in AvailableVideos(videos, interacted) &&
      Predicted(model.userEmbeddings, model.videoEmbeddings, userId, v, norm, Err(r.message)))
  {
    var available := AvailableVideos(videos, interacted);
    scored := [];
    if available == [] {
      return Ok([]), scored;
    }
    var i := 0;
    while i < |available|
      invariant i <= |available|
      invariant ScoredAll(scored, available[..i])
      invariant i == 0 ==> unchanged(model)
      invariant i > 0 ==> AfterPredict(c, old(model.isFitted), old(model.userEmbeddings), old(model.videoEmbeddings),
                                       model.isFitted, model.userEmbeddings, model.videoEmbeddings)
      invariant forall k :: 0 <= k < i ==>
        Predicted(model.userEmbeddings, model.videoEmbeddings, userId, available[k], norm, Ok(scored[k].score))
    {
      ghost var f1, u1, v1 := model.isFitted, model.userEmbeddings, model.videoEmbeddings;
      var score := model.Predict(userId, available[i], c, norm);
      if i > 0 {
        AfterPredictSettles(c, old(model.isFitted), old(model.userEmbeddings), old(model.videoEmbeddings),
                            f1, u1, v1, model.isFitted, model.userEmbeddings, model.videoEmbeddings);
      }
      if score.Err? {
        r := Err(score.message);
        assert available[i] in available;
        ScoredIds(scored, available[..i]);
        return;
      }
      ScoredAllSnoc(scored, available, i, score.value);
      scored := scored + [Rec(available[i], score.value, TwoTowerSimilarity)];
      i := i + 1;
    }
    assert available[..i] == available;
    ScoredIds(scored, available);
    r := Ok(Top(scored, 5));
  }

  /** The records' ids are the videos they score. */
  lemma ScoredIds(scored: seq<Rec>, ids: seq<int>)
    requires ScoredAll(scored, ids)
    ensures |scored| == |ids| && forall i :: 0 <= i < |scored| ==> scored[i].videoId == ids[i]
  {
  }

  /** An answer holds at most five distinct videos, none of them
      interacted with, in non-increasing score order, and no scored video
      left out beats one that was kept. */
  lemma TwoTowerRanking(scored: seq<Rec>, videos: seq<int>, interacted: set<int>)
    requires Distinct(videos)
    requires ScoredAll(scored, AvailableVideos(videos, interacted))
    ensures var top := Top(scored, 5);
      && |top| == Min(5, |AvailableVideos(videos, interacted)|)
      && SortedBy(top, ScoreGe)
      && Distinct(Ids(top))
      && (forall i :: 0 <= i < |top| ==>
            top[i].videoId in videos && top[i].videoId !in interacted && top[i].reason == TwoTowerSimilarity)
      && (forall x :: x in scored && x.videoId !in Ids(top) ==> forall i :: 0 <= i < |top| ==> top[i].score >= x.score)
  {
    var top := Top(scored, 5);
    TopSorted(scored, 5);
    TopDistinct(scored, 5);
    forall i | 0 <= i < |top|
      ensures top[i].videoId in AvailableVideos(videos, interacted) && top[i].reason == TwoTowerSimilarity
    {
      var j :| 0 <= j < |scored| && scored[j] == top[i];
      assert Ids(scored)[j] == top[i].videoId;
    }
    forall x | x in scored && x.videoId !in Ids(top)
      ensures forall i :: 0 <= i < |top| ==> top[i].score >= x.score
    {
      TopDominates(scored, 5, x);
    }
  }

  /** Video 1 has no text or labels, video 2 is described as "cat", and
      user 7 has fully watched and liked video 2, whose text the user query
      joins in. */
  function MisalignedCorpus(tfidf: (seq<string>, nat) -> seq<real>): Corpus
  {
    Corpus([7], u => [UserRow(2, Some(100), Some(1), Some("cat"), None)], [1, 2],
           v => if v == 1 then Some(VideoRow(1, None, None)) else Some(VideoRow(v, Some("cat"), None)),
           tfidf, false)
  }

  /** The stores as written misalign ids and rows once a blank text is
      dropped: on `MisalignedCorpus` video 1 is given the row of video 2's
      text, video 2 the row of the user's text, and user 7, whose text is not
      blank, no row at all. */
  lemma MisalignedEmbeddings(tfidf: (seq<string>, nat) -> seq<real>)
    ensures var c := MisalignedCorpus(tfidf);
      && Refits(c)
      && var texts := FittedTexts(c);
      && var users := Assign(map[], c.allUsers, UserRows(c));
      && var videos := Assign(map[], c.allVideos, VideoRows(c));
      && |texts| == 2
      && texts[0] == VideoFeatures(c.videoRow(2)) && texts[1] == UserText(c.userRows(7))
      && 1 in videos && videos[1] == tfidf(texts, 0) && 2 in videos && videos[2] == tfidf(texts, 1)
      && 7 !in users && !Blank(UserText(c.userRows(7)))
  {
    var c := MisalignedCorpus(tfidf);
    MisalignedTexts(tfidf);
    var texts := FittedTexts(c);
    assert |UserRows(c)| == 0;
    var rows := VideoRows(c);
    assert |rows| == 2 && rows[0] == tfidf(texts, 0) && rows[1] == tfidf(texts, 1);
    assert [1, 2][..1] == [1] && [1, 2][..1][..0] == [] && [7][..0] == [];
    assert Assign(map[], [1], rows) == map[1 := rows[0]];
    assert Assign(map[], [1, 2], rows) == map[1 := rows[0], 2 := rows[1]];
    assert Assign(map[], [7], UserRows(c)) == map[];
  }

  /** The texts `MisalignedCorpus` fits on: video 2's and the user's. */
  lemma MisalignedTexts(tfidf: (seq<string>, nat) -> seq<real>)
    ensures var c := MisalignedCorpus(tfidf);
      && FittedTexts(c) == [VideoFeatures(c.videoRow(2)), UserText(c.userRows(7))]
      && !Blank(UserText(c.userRows(7)))
  {
    var c := MisalignedCorpus(tfidf);
    assert Blank(VideoFeatures(c.videoRow(1))) by {
      assert VideoFeatures(c.videoRow(1)) == " ";
    }
    assert VideoFeatures(c.videoRow(2)) == "cat ";
    assert !Blank("cat ") by {
      assert !IsSpace("cat "[0]);
    }
    var userText := UserText(c.userRows(7));
    MisalignedUserText(tfidf);
    var vt, ut := TextsOf(c.allVideos, VideoText(c)), TextsOf(c.allUsers, UserTextOf(c));
    assert c.allVideos == [1, 2] && c.allUsers == [7];
    assert vt[0] == " " && vt[1] == "cat ";
    assert vt == [" ", "cat "];
    assert ut[0] == userText;
    assert ut == [userText];
    var all := vt + ut;
    assert all == [" ", "cat ", userText];
    assert all[..2][..1] == all[..1] == [" "];
    assert all[..2] == [" ", "cat "];
    assert KeepNonBlank(all[..1]) == [];
    assert KeepNonBlank(all[..2]) == ["cat "];
    assert FittedTexts(c) == ["cat ", userText];
  }

  /** The user's text on `MisalignedCorpus` repeats video 2's content, so
      it is not blank. */
  lemma MisalignedUserText(tfidf: (seq<string>, nat) -> seq<real>)
    ensures var text := UserText(MisalignedCorpus(tfidf).userRows(7));
      |text| >= 4 && text[..4] == "cat " && !Blank(text)
  {
    var rows := MisalignedCorpus(tfidf).userRows(7);
    assert Repetitions(rows[0]) == 11 by {
      RepetitionsBounds(rows[0]);
    }
    assert rows[..0] == [];
    assert RowContent(rows[0]) == "cat ";
    assert WeightedContent(rows) == seq(11, _ => "cat ");
    var userText := UserText(rows);
    assert userText[..4] == "cat " by {
      JoinRepeatedPrefix(11, "cat ");
    }
    assert !Blank(userText) by {
      assert userText[0] == 'c';
    }
  }

  /** A repeated string joined with spaces starts with that string. */
  lemma JoinRepeatedPrefix(k: nat, s: string)
    requires k >= 1
    ensures |Join(seq(k, _ => s), " ")| >= |s| && Join(seq(k, _ => s), " ")[..|s|] == s
    decreases k
  {
    if k > 1 {
      assert seq(k, _ => s)[..k - 1] == seq(k - 1, _ => s);
      JoinRepeatedPrefix(k - 1, s);
    }
  }
}
