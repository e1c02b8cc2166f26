/** Values shared by every recommender: optional values, the recommendation
    triple, the reason labels, interaction records and sequence helpers
    modelling Python's `list.remove`, `range` and list filters. */
module Common {

  datatype Option<T> = None | Some(value: T)

  /** A value, or the exception the source would raise instead. */
  datatype Result<T> = Ok(value: T) | Err(message: string)

  /** The label attached to each recommendation. Every constructor stands for
      one literal reason string of the source; `ContentSimilarity` stands for
      the formatted "Content similarity (x.xxx)" label, optionally followed by
      " + multi-interaction boost". */
  datatype Reason =
    | ExplorationRandom          // "Exploration (random)"
    | ExploitationBest           // "Exploitation (best performing)"
    | Exploitation               // "Exploitation"
    | ColdStartNoData            // "Cold start (no data)"
    | UcbExploration             // "UCB exploration"
    | UcbExploitation            // "UCB exploitation"
    | ColdStartContent           // "Cold start (content-based)"
    | ContentSimilarity(contentScore: real, boosted: bool)
    | ExplorationUnseen          // "Exploration (unseen content)"
    | ContentBased               // "Content-based similarity"
    | Exploration                // "Exploration"
    | ColdStartRandom            // "Cold start recommendation"
    | TwoTowerSimilarity         // "Two Tower neural embedding similarity"

  /** One recommendation: `(videoId, score, reason)`. */
  datatype Rec = Rec(videoId: int, score: real, reason: Reason)

  /** One row of a user's interaction history: `(videoId, watched_percent, liked)`;
      both the percentage and the like flag are nullable columns. */
  datatype Interaction = Interaction(videoId: int, watched: Option<int>, liked: Option<int>)

  /** `(watched_percent or 0)`: a missing percentage counts as 0. */
  function WatchedOrZero(w: Option<int>): int
  {
    if w.Some? then w.value else 0
  }

  function Min(a: int, b: int): int
  {
    if a <= b then a else b
  }

  function Max(a: int, b: int): int
  {
    if a <= b then b else a
  }

  function MinReal(a: real, b: real): real
  {
    if a <= b then a else b
  }

  function MaxReal(a: real, b: real): real
  {
    if a <= b then b else a
  }

  /** The sum of a list of numbers, adding from the left. */
  function Sum(rs: seq<real>): real
    decreases |rs|
  {
    if rs == [] then 0.0 else Sum(rs[..|rs| - 1]) + rs[|rs| - 1]
  }

  function Mean(rs: seq<real>): real
    requires |rs| > 0
  {
    Sum(rs) / |rs| as real
  }

  /** A sum of numbers in [lo, hi] lies between `lo` and `hi` times the
      length; so does, divided by the length, the mean. */
  lemma {:induction false} SumBounds(rs: seq<real>, lo: real, hi: real)
    requires forall i :: 0 <= i < |rs| ==> lo <= rs[i] <= hi
    ensures lo * |rs| as real <= Sum(rs) <= hi * |rs| as real
    decreases |rs|
  {
    if rs != [] {
      SumBounds(rs[..|rs| - 1], lo, hi);
    }
  }

  lemma MeanBounds(rs: seq<real>, lo: real, hi: real)
    requires |rs| > 0
    requires forall i :: 0 <= i < |rs| ==> lo <= rs[i] <= hi
    ensures lo <= Mean(rs) <= hi
  {
    SumBounds(rs, lo, hi);
    var n := |rs| as real;
    assert Mean(rs) * n == Sum(rs);
    assert (Mean(rs) - lo) * n >= 0.0;
    assert (hi - Mean(rs)) * n >= 0.0;
  }

  /** `max(0.0, min(1.0, x))` */
  function Clamp01(x: real): (r: real)
    ensures 0.0 <= r <= 1.0
    ensures 0.0 <= x <= 1.0 ==> r == x
  {
    MaxReal(0.0, MinReal(1.0, x))
  }

  predicate Distinct<T(==)>(s: seq<T>)
  {
    forall i, j :: 0 <= i < j < |s| ==> s[i] != s[j]
  }

  /** A set of ids with no element is empty: the fact `:|` needs to draw an
      element. */
  lemma NoIdsEmpty(s: set<int>)
    ensures (forall x :: x !in s) ==> s == {}
  {
    if forall x :: x !in s {
      assert s <= {};
    }
  }

  /** Every pick taken from the pool left at its turn extends the draw. */
  lemma DrawnAppend(pool: seq<int>, picks: seq<Rec>, r: Rec)
    requires DrawnWithoutReplacement(pool, picks)
    requires r.videoId in After(pool, picks)
    ensures DrawnWithoutReplacement(pool, picks + [r])
    ensures After(pool, picks + [r]) == RemoveFirst(After(pool, picks), r.videoId)
    ensures forall i :: 0 <= i <= |picks| ==> (picks + [r])[..i] == picks[..i]
  {
    var next := picks + [r];
    assert next[..|picks|] == picks;
    forall i | 0 <= i <= |picks|
      ensures next[..i] == picks[..i]
    {
    }
  }

  /** The video ids of a list of recommendations, in order. */
  function Ids(recs: seq<Rec>): (ids: seq<int>)
    ensures |ids| == |recs|
    ensures forall i :: 0 <= i < |recs| ==> ids[i] == recs[i].videoId
  {
    seq(|recs|, i requires 0 <= i < |recs| => recs[i].videoId)
  }

  lemma IdsAppend(recs: seq<Rec>, r: Rec)
    ensures Ids(recs + [r]) == Ids(recs) + [r.videoId]
  {
  }

  /** `list(range(lo, hi))` */
  function Range(lo: int, hi: int): (r: seq<int>)
    ensures |r| == if lo <= hi then hi - lo else 0
    ensures forall i :: 0 <= i < |r| ==> r[i] == lo + i
    decreases hi - lo
  {
    if lo >= hi then [] else [lo] + Range(lo + 1, hi)
  }

  lemma RangeMembers(lo: int, hi: int, x: int)
    ensures x in Range(lo, hi) <==> lo <= x < hi
  {
    if lo <= x < hi {
      assert Range(lo, hi)[x - lo] == x;
    }
  }

  lemma RangeDistinct(lo: int, hi: int)
    ensures Distinct(Range(lo, hi))
  {
  }

  /** `[v for v in s if keep(v)]` */
  function Filter(s: seq<int>, keep: int -> bool): (r: seq<int>)
    ensures |r| <= |s|
    ensures forall v :: v in r <==> v in s && keep(v)
    ensures forall i :: 0 <= i < |r| ==> keep(r[i])
    ensures Distinct(s) ==> Distinct(r)
    decreases |s|
  {
    if s == [] then []
    else
      var front := s[..|s| - 1];
      var last := s[|s| - 1];
      var rest := Filter(front, keep);
      assert forall x :: x in s <==> x in front || x == last;
      assert Distinct(s) ==> Distinct(front) && last !in front;
      if keep(last) then rest + [last] else rest
  }

  /** Position `|a| + i` of `a + b` is position i of `b`. */
  lemma ConcatSecond<T>(a: seq<T>, b: seq<T>, i: nat)
    requires i < |b|
    ensures (a + b)[|a| + i] == b[i]
  {
  }

  /** Filtering a list extended by one element. */
  lemma FilterSnoc(s: seq<int>, x: int, keep: int -> bool)
    ensures Filter(s + [x], keep) == Filter(s, keep) + (if keep(x) then [x] else [])
  {
    assert (s + [x])[..|s|] == s;
  }

  /** One more step of a loop that filters `s` from left to right. */
  lemma FilterStep(s: seq<int>, i: nat, keep: int -> bool)
    requires i < |s|
    ensures Filter(s[..i + 1], keep) == Filter(s[..i], keep) + (if keep(s[i]) then [s[i]] else [])
  {
    assert s[..i + 1] == s[..i] + [s[i]];
    FilterSnoc(s[..i], s[i], keep);
  }

  /** A list without repeats has as many elements as its set. */
  lemma {:induction false} DistinctCardinality(s: seq<int>)
    requires Distinct(s)
    ensures |(set x | x in s)| == |s|
    decreases |s|
  {
    if s != [] {
      var front := s[..|s| - 1];
      assert Distinct(front);
      DistinctCardinality(front);
      assert (set x | x in s) == (set x | x in front) + {s[|s| - 1]};
      assert s[|s| - 1] !in (set x | x in front);
    }
  }

  /** `[v for v in s if v not in excluded]` */
  function Without(s: seq<int>, excluded: set<int>): (r: seq<int>)
    ensures |r| <= |s|
    ensures forall v :: v in r <==> v in s && v !in excluded
    ensures Distinct(s) ==> Distinct(r)
  {
    if s == [] then []
    else
      var rest := Without(s[1..], excluded);
      assert forall x :: x in s <==> x == s[0] || x in s[1..];
      assert Distinct(s) ==> Distinct(s[1..]) && s[0] !in s[1..];
      if s[0] !in excluded then [s[0]] + rest else rest
  }

  /** Python's `list.remove(x)`: drops the first occurrence of `x`. */
  function RemoveFirst<T(==)>(s: seq<T>, x: T): (r: seq<T>)
    ensures x in s ==> |r| == |s| - 1
    ensures x !in s ==> r == s
    ensures forall y :: y in r ==> y in s
    ensures forall y :: y in s && y != x ==> y in r
  {
    if s == [] then []
    else if s[0] == x then s[1..]
    else [s[0]] + RemoveFirst(s[1..], x)
  }

  lemma {:induction false} RemoveFirstMultiset<T>(s: seq<T>, x: T)
    requires x in s
    ensures multiset(RemoveFirst(s, x)) == multiset(s) - multiset{x}
  {
    assert s == [s[0]] + s[1..];
    if s[0] != x {
      RemoveFirstMultiset(s[1..], x);
    }
  }

  lemma {:induction false} RemoveFirstDistinct<T>(s: seq<T>, x: T)
    requires Distinct(s)
    ensures Distinct(RemoveFirst(s, x)) && x !in RemoveFirst(s, x)
  {
    if s != [] && s[0] != x {
      assert Distinct(s[1..]);
      RemoveFirstDistinct(s[1..], x);
      assert s[0] !in s[1..];
    } else if s != [] {
      assert s[0] !in s[1..];
    }
  }

  /** The candidate pool left after the picks `picks` were removed one by one
      (each with `list.remove`) from `pool`. */
  function After(pool: seq<int>, picks: seq<Rec>): seq<int>
    decreases |picks|
  {
    if picks == [] then pool
    else RemoveFirst(After(pool, picks[..|picks| - 1]), picks[|picks| - 1].videoId)
  }

  lemma AfterAppend(pool: seq<int>, picks: seq<Rec>, r: Rec)
    ensures After(pool, picks + [r]) == RemoveFirst(After(pool, picks), r.videoId)
  {
    assert (picks + [r])[..|picks|] == picks;
  }

  /** Every pick was taken from the pool that was left at its turn:
      sampling without replacement. */
  ghost predicate DrawnWithoutReplacement(pool: seq<int>, picks: seq<Rec>)
  {
    forall i :: 0 <= i < |picks| ==> picks[i].videoId in After(pool, picks[..i])
  }

  lemma DrawnPrefix(pool: seq<int>, picks: seq<Rec>, k: nat)
    requires DrawnWithoutReplacement(pool, picks) && k <= |picks|
    ensures DrawnWithoutReplacement(pool, picks[..k])
  {
    forall i | 0 <= i < k
      ensures picks[..k][i].videoId in After(pool, picks[..k][..i])
    {
      assert picks[..k][..i] == picks[..i];
    }
  }

  /** Moving one element from what is left to what was drawn keeps the total. */
  lemma MultisetStep(rest: multiset<int>, drawn: multiset<int>, x: int)
    requires x in rest
    ensures (rest - multiset{x}) + (drawn + multiset{x}) == rest + drawn
  {
  }

  lemma {:induction false} DrawnMultiset(pool: seq<int>, picks: seq<Rec>)
    requires DrawnWithoutReplacement(pool, picks)
    ensures multiset(After(pool, picks)) + multiset(Ids(picks)) == multiset(pool)
    decreases |picks|
  {
    if picks != [] {
      var k := |picks| - 1;
      var front, r := picks[..k], picks[k];
      assert picks == front + [r];
      DrawnPrefix(pool, picks, k);
      DrawnMultiset(pool, front);
      var rest := After(pool, front);
      assert r.videoId in rest;
      AfterAppend(pool, front, r);
      IdsAppend(front, r);
      RemoveFirstMultiset(rest, r.videoId);
      assert multiset(Ids(front) + [r.videoId]) == multiset(Ids(front)) + multiset{r.videoId};
      MultisetStep(multiset(rest), multiset(Ids(front)), r.videoId);
    }
  }

  lemma DrawnDistinct(pool: seq<int>, picks: seq<Rec>)
    requires DrawnWithoutReplacement(pool, picks) && Distinct(pool)
    ensures Distinct(Ids(picks)) && Distinct(After(pool, picks))
    ensures forall i :: 0 <= i < |picks| ==> picks[i].videoId !in After(pool, picks)
  {
    DrawnLeft(pool, picks);
    forall i, j | 0 <= i < j < |picks|
      ensures Ids(picks)[i] != Ids(picks)[j]
    {
      DrawnPrefix(pool, picks, j);
      DrawnLeft(pool, picks[..j]);
      assert picks[..j][i] == picks[i];
    }
  }

  /** A drawn video is no longer in the pool, which stays duplicate-free. */
  lemma {:induction false} DrawnLeft(pool: seq<int>, picks: seq<Rec>)
    requires DrawnWithoutReplacement(pool, picks) && Distinct(pool)
    ensures Distinct(After(pool, picks))
    ensures forall i :: 0 <= i < |picks| ==> picks[i].videoId !in After(pool, picks)
    decreases |picks|
  {
    if picks != [] {
      var k := |picks| - 1;
      var front, r := picks[..k], picks[k];
      assert picks == front + [r];
      DrawnPrefix(pool, picks, k);
      DrawnLeft(pool, front);
      var rest := After(pool, front);
      assert r.videoId in rest;
      AfterAppend(pool, front, r);
      RemoveFirstDistinct(rest, r.videoId);
      var left := After(pool, picks);
      assert left == RemoveFirst(rest, r.videoId);
      forall i | 0 <= i < |picks|
        ensures picks[i].videoId !in left
      {
        if i < k {
          assert front[i].videoId !in rest;
        }
      }
    }
  }

  /** What sampling without replacement guarantees about membership and
      multiplicity: every pick was a candidate, and the picks form a
      sub-multiset of the pool, so there are no more picks than candidates. */
  lemma {:induction false} DrawnWithoutReplacementFacts(pool: seq<int>, picks: seq<Rec>)
    requires multiset(After(pool, picks)) + multiset(Ids(picks)) == multiset(pool)
    ensures |picks| <= |pool|
    ensures multiset(Ids(picks)) <= multiset(pool)
    ensures forall i :: 0 <= i < |picks| ==> picks[i].videoId in pool
  {
    var ids, rest := Ids(picks), After(pool, picks);
    assert |multiset(pool)| == |multiset(rest)| + |multiset(ids)|;
    forall i | 0 <= i < |picks|
      ensures picks[i].videoId in pool
    {
      assert ids[i] in multiset(ids);
      assert multiset(pool)[ids[i]] == multiset(rest)[ids[i]] + multiset(ids)[ids[i]];
      assert ids[i] in multiset(pool);
    }
  }

  /** The ASCII characters Python's `str.isspace()` accepts, and so the ones
      `str.strip()` and `int()` skip: space, tab, the line and page breaks,
      and the four separators 0x1C-0x1F. */
  predicate IsSpace(c: char)
  {
    c == ' ' || ('\t' <= c <= '\r') || ('\U{001C}' <= c <= '\U{001F}')
  }

  /** `not s.strip()`: nothing but whitespace. */
  predicate Blank(s: string)
    decreases |s|
  {
    s == [] || (IsSpace(s[0]) && Blank(s[1..]))
  }

  /** A blank string is whitespace at every position. */
  lemma {:induction false} BlankAt(s: string)
    ensures Blank(s) <==> forall k :: 0 <= k < |s| ==> IsSpace(s[k])
    decreases |s|
  {
    if s != [] {
      BlankAt(s[1..]);
      assert forall k :: 1 <= k < |s| ==> s[1..][k - 1] == s[k];
    }
  }

  /** A concatenation is blank exactly when both parts are. */
  lemma BlankAppend(a: string, b: string)
    ensures Blank(a + b) <==> Blank(a) && Blank(b)
  {
    BlankAt(a);
    BlankAt(b);
    BlankAt(a + b);
    assert forall k :: 0 <= k < |a| ==> (a + b)[k] == a[k];
    assert forall k :: 0 <= k < |b| ==> (a + b)[|a| + k] == b[k];
  }
}
