/** The item-similarity index both hybrid recommenders build in
    `update_item_similarity` (api/hybrid_model_real.py:17-57,
    api/hybrid_model.py:13-46, api/server.py:231-268): one combined text per
    video, a TF-IDF cosine-similarity matrix over those texts, and the two
    maps between video ids and matrix positions.

    The rows of the `videos` query are an input. TF-IDF and cosine
    similarity are foreign numerics: `cosine(texts, i, j)` stands for entry
    (i, j) of `cosine_similarity(fit_transform(texts))`, and `fails` for the
    vectoriser raising (an empty vocabulary, for instance). */
module Similarity {
  import opened Common

  /** One row of the query: `(videoId, text, GROUP_CONCAT(label, ' '))`;
      text and labels are nullable. */
  datatype VideoRow = VideoRow(videoId: int, text: Option<string>, labels: Option<string>)

  /** `x or ''` */
  function OrEmpty(s: Option<string>): string
  {
    if s.Some? then s.value else ""
  }

  /** `f"{text or ''} {labels or ''}"` */
  function CombinedText(r: VideoRow): (t: string)
    ensures t == OrEmpty(r.text) + [' '] + OrEmpty(r.labels)
    ensures |t| == |OrEmpty(r.text)| + 1 + |OrEmpty(r.labels)| && t[|OrEmpty(r.text)|] == ' '
  {
    OrEmpty(r.text) + " " + OrEmpty(r.labels)
  }

  function RowIds(rows: seq<VideoRow>): (ids: seq<int>)
    ensures |ids| == |rows| && forall i :: 0 <= i < |rows| ==> ids[i] == rows[i].videoId
  {
    seq(|rows|, i requires 0 <= i < |rows| => rows[i].videoId)
  }

  function RowTexts(rows: seq<VideoRow>): (texts: seq<string>)
    ensures |texts| == |rows| && forall i :: 0 <= i < |rows| ==> texts[i] == CombinedText(rows[i])
  {
    seq(|rows|, i requires 0 <= i < |rows| => CombinedText(rows[i]))
  }

  /** The loop that collects `video_ids` and `video_texts`. */
  method CollectRows(rows: seq<VideoRow>) returns (ids: seq<int>, texts: seq<string>)
    ensures ids == RowIds(rows) && texts == RowTexts(rows)
  {
    ids, texts := [], [];
    var i := 0;
    while i < |rows|
      invariant i <= |rows|
      invariant ids == RowIds(rows[..i]) && texts == RowTexts(rows[..i])
    {
      ids := ids + [rows[i].videoId];
      texts := texts + [CombinedText(rows[i])];
      i := i + 1;
    }
    assert rows[..i] == rows;
  }

  /** `{vid: idx for idx, vid in enumerate(video_ids)}`: a later position of
      the same id overwrites an earlier one, so every id maps to its LAST
      position. */
  function IdToIdx(ids: seq<int>): (m: map<int, nat>)
    ensures forall v :: v in m <==> v in ids
    ensures forall v :: v in m ==> m[v] < |ids| && ids[m[v]] == v
    ensures forall v, j :: v in m && m[v] < j < |ids| ==> ids[j] != v
    decreases |ids|
  {
    if ids == [] then map[]
    else
      var front := ids[..|ids| - 1];
      assert forall x :: x in ids <==> x in front || x == ids[|ids| - 1];
      IdToIdx(front)[ids[|ids| - 1] := |ids| - 1]
  }

  /** `{idx: vid for idx, vid in enumerate(video_ids)}` */
  function IdxToId(ids: seq<int>): (m: map<nat, int>)
    ensures forall i: nat :: i in m <==> i < |ids|
    ensures forall i: nat :: i < |ids| ==> m[i] == ids[i]
  {
    map i: nat | i < |ids| :: ids[i]
  }

  /** When the ids are distinct (they are the `GROUP BY` key), each maps to
      its own position. */
  lemma IdToIdxOfDistinct(ids: seq<int>)
    requires Distinct(ids)
    ensures forall i :: 0 <= i < |ids| ==> ids[i] in IdToIdx(ids) && IdToIdx(ids)[ids[i]] == i
  {
    var m := IdToIdx(ids);
    forall i | 0 <= i < |ids|
      ensures ids[i] in m && m[ids[i]] == i
    {
      assert ids[i] in ids;
    }
  }

  /** A fitted index: the similarity matrix (one row per indexed video),
      `video_id_to_idx` and `idx_to_video_id`. */
  datatype Index = Index(similarity: seq<seq<real>>, idToIdx: map<int, nat>, idxToId: map<nat, int>)

  /** The matrix is square, every row position has a video id and every
      indexed video has a row. */
  ghost predicate IndexValid(ix: Index)
  {
    && (forall i :: 0 <= i < |ix.similarity| ==> |ix.similarity[i]| == |ix.similarity| && i in ix.idxToId)
    && (forall v :: v in ix.idToIdx ==> ix.idToIdx[v] < |ix.similarity|)
  }

  /** `cosine_similarity(tfidf_matrix)` as a matrix. */
  function Matrix(texts: seq<string>, cosine: (seq<string>, nat, nat) -> real): (sim: seq<seq<real>>)
    ensures |sim| == |texts|
    ensures forall i :: 0 <= i < |texts| ==> |sim[i]| == |texts|
    ensures forall i, j :: 0 <= i < |texts| && 0 <= j < |texts| ==> sim[i][j] == cosine(texts, i, j)
  {
    seq(|texts|, (i: int) requires 0 <= i => seq(|texts|, (j: int) requires 0 <= j => cosine(texts, i, j)))
  }

  /** The index built from the collected ids and texts. It is well formed,
      and looking an indexed video up and back gives the same video. */
  function BuildIndex(ids: seq<int>, texts: seq<string>, cosine: (seq<string>, nat, nat) -> real): (ix: Index)
    requires |ids| == |texts|
    ensures IndexValid(ix)
    ensures |ix.similarity| == |ids|
    ensures forall v :: v in ix.idToIdx <==> v in ids
    ensures forall v :: v in ix.idToIdx ==> ix.idToIdx[v] in ix.idxToId && ix.idxToId[ix.idToIdx[v]] == v
  {
    Index(Matrix(texts, cosine), IdToIdx(ids), IdxToId(ids))
  }

  /** What the `try` block stores: nothing for an empty result set or when
      the vectoriser raises, otherwise the index over the collected rows. */
  function Fit(rows: seq<VideoRow>, cosine: (seq<string>, nat, nat) -> real, fails: bool): (r: Option<Index>)
    ensures r.Some? ==> IndexValid(r.value)
    ensures r.Some? <==> rows != [] && !fails
  {
    if rows == [] || fails then None
    else Some(BuildIndex(RowIds(rows), RowTexts(rows), cosine))
  }

  /** `item_similarity[idx1][idx2]` looked up by video id; 0.0 when either
      video is not indexed. */
  function PairSimilarity(ix: Index, a: int, b: int): real
    requires IndexValid(ix)
  {
    if a in ix.idToIdx && b in ix.idToIdx then ix.similarity[ix.idToIdx[a]][ix.idToIdx[b]] else 0.0
  }

  /** After a successful fit on rows with distinct ids, the similarity of
      two videos is the cosine similarity of their combined texts. */
  lemma FittedSimilarityIsCosine(rows: seq<VideoRow>, cosine: (seq<string>, nat, nat) -> real, i: nat, j: nat)
    requires rows != [] && Distinct(RowIds(rows))
    requires i < |rows| && j < |rows|
    ensures PairSimilarity(Fit(rows, cosine, false).value, rows[i].videoId, rows[j].videoId)
         == cosine(RowTexts(rows), i, j)
  {
    IdToIdxOfDistinct(RowIds(rows));
  }

  /** The similarity of two videos is symmetric whenever the cosine is. */
  lemma PairSimilaritySymmetric(rows: seq<VideoRow>, cosine: (seq<string>, nat, nat) -> real, a: int, b: int)
    requires rows != []
    requires forall i: nat, j: nat :: i < |rows| && j < |rows| ==> cosine(RowTexts(rows), i, j) == cosine(RowTexts(rows), j, i)
    ensures PairSimilarity(Fit(rows, cosine, false).value, a, b) == PairSimilarity(Fit(rows, cosine, false).value, b, a)
  {
  }
}
