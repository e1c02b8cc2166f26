/** The video-numbering helpers of api/video_utils.py: how many numbered
    video files are playable, and the order in which the client cycles
    through videos 1..max.

    The directory listing, whether the video folder exists and the
    `COUNT(*)` of the videos table are inputs. */
module VideoUtils {
  import opened Common

  /** `s.endswith(suffix)` */
  predicate EndsWith(s: string, suffix: string)
  {
    |suffix| <= |s| && s[|s| - |suffix|..] == suffix
  }

  /** `pat` occurs in `s` at position i. */
  predicate OccursAt(s: string, pat: string, i: nat)
  {
    i + |pat| <= |s| && s[i..i + |pat|] == pat
  }

  /** An occurrence in the tail is an occurrence one position later. */
  lemma OccursShift(s: string, pat: string)
    requires s != []
    ensures forall i: nat :: OccursAt(s[1..], pat, i) ==> OccursAt(s, pat, i + 1)
  {
    forall i: nat | OccursAt(s[1..], pat, i)
      ensures OccursAt(s, pat, i + 1)
    {
      assert s[1..][i..i + |pat|] == s[i + 1..i + 1 + |pat|];
    }
  }

  /** `s.replace(pat, '')`: every non-overlapping occurrence of `pat`,
      scanning from the left, removed. Characters are only taken away, and
      a string without any occurrence is left as it is. */
  function RemoveAll(s: string, pat: string): (r: string)
    requires pat != []
    ensures |r| <= |s| && multiset(r) <= multiset(s)
    ensures (forall i: nat :: !OccursAt(s, pat, i)) ==> r == s
    decreases |s|
  {
    if |s| < |pat| then s
    else if s[..|pat|] == pat then
      var rest := RemoveAll(s[|pat|..], pat);
      assert OccursAt(s, pat, 0);
      assert s == s[..|pat|] + s[|pat|..];
      rest
    else
      var rest := RemoveAll(s[1..], pat);
      OccursShift(s, pat);
      assert s == [s[0]] + s[1..];
      [s[0]] + rest
  }

  predicate IsDigit(c: char)
  {
    '0' <= c <= '9'
  }

  /** The number of whitespace characters `s` starts with. */
  function LeadingSpaces(s: string): (n: nat)
    ensures n <= |s|
    ensures forall k :: 0 <= k < n ==> IsSpace(s[k])
    ensures n < |s| ==> !IsSpace(s[n])
    decreases |s|
  {
    if s == [] || !IsSpace(s[0]) then 0
    else
      var n := LeadingSpaces(s[1..]);
      assert forall k :: 1 <= k < n + 1 ==> s[k] == s[1..][k - 1];
      n + 1
  }

  /** The number of whitespace characters `s` ends with. */
  function TrailingSpaces(s: string): (n: nat)
    ensures n <= |s|
    ensures forall k :: |s| - n <= k < |s| ==> IsSpace(s[k])
    ensures n < |s| ==> !IsSpace(s[|s| - n - 1])
    decreases |s|
  {
    if s == [] || !IsSpace(s[|s| - 1]) then 0
    else
      var n := TrailingSpaces(s[..|s| - 1]);
      assert forall k :: |s| - 1 - n <= k < |s| - 1 ==> s[k] == s[..|s| - 1][k];
      n + 1
  }

  /** Whitespace in a suffix of `s` is whitespace in `s`. */
  lemma SuffixSpaces(s: string, i: nat, lo: nat)
    requires i <= |s| && lo <= |s| - i
    requires forall k :: lo <= k < |s| - i ==> IsSpace(s[i..][k])
    ensures forall k :: i + lo <= k < |s| ==> IsSpace(s[k])
  {
    forall k | i + lo <= k < |s|
      ensures IsSpace(s[k])
    {
      assert s[i..][k - i] == s[k];
    }
  }

  /** `s.strip()`: `s` with its leading and trailing whitespace cut off.
      The result is a slice of `s`, everything cut off is whitespace, and
      the result neither starts nor ends with whitespace; it is empty
      exactly when `s` is all whitespace. */
  function Strip(s: string): (t: string)
    ensures exists i, j :: (0 <= i <= j <= |s| && t == s[i..j] &&
      (forall k :: 0 <= k < i ==> IsSpace(s[k])) && (forall k :: j <= k < |s| ==> IsSpace(s[k])))
    ensures t != [] ==> !IsSpace(t[0]) && !IsSpace(t[|t| - 1])
    ensures t == [] <==> forall k :: 0 <= k < |s| ==> IsSpace(s[k])
  {
    var i := LeadingSpaces(s);
    var n := TrailingSpaces(s[i..]);
    var j := |s| - n;
    SuffixSpaces(s, i, |s| - i - n);
    assert j > i ==> s[j - 1] == s[i..][|s| - i - n - 1];
    s[i..j]
  }

  /** A string that neither starts nor ends with whitespace is its own
      strip. */
  lemma StripUnspaced(s: string)
    requires s != [] && !IsSpace(s[0]) && !IsSpace(s[|s| - 1])
    ensures Strip(s) == s
  {
    assert LeadingSpaces(s) == 0;
    assert s[0..] == s;
    assert TrailingSpaces(s) == 0;
  }

  /** So the Python test `not s.strip()` is `Blank(s)`. */
  lemma StripBlank(s: string)
    ensures Strip(s) == [] <==> Blank(s)
  {
    BlankAt(s);
  }

  /** A digit string as Python's `int()` reads it: digits, with single
      underscores allowed between digits. */
  predicate DigitGroups(b: string)
  {
    && b != []
    && IsDigit(b[0]) && IsDigit(b[|b| - 1])
    && (forall i :: 0 <= i < |b| ==> IsDigit(b[i]) || b[i] == '_')
    && (forall i :: 0 <= i < |b| - 1 ==> !(b[i] == '_' && b[i + 1] == '_'))
  }

  function DigitValue(c: char): (d: nat)
    requires IsDigit(c)
    ensures d < 10
  {
    assert '0' as int <= c as int <= '9' as int;
    c as int - '0' as int
  }

  /** The value of a digit string, underscores skipped. */
  function DigitsValue(b: string): nat
    decreases |b|
  {
    if b == [] then 0
    else
      var c := b[|b| - 1];
      if IsDigit(c) then DigitsValue(b[..|b| - 1]) * 10 + DigitValue(c)
      else DigitsValue(b[..|b| - 1])
  }

  /** The digits after an optional sign. */
  function Unsigned(t: string): string
  {
    if t != [] && (t[0] == '-' || t[0] == '+') then t[1..] else t
  }

  /** `int(s)` on a string: `None` exactly where Python raises `ValueError`,
      that is unless `s` stripped is an optional sign followed by digit
      groups; otherwise their value, negated after a `-`. */
  function ParseInt(s: string): (r: Option<int>)
    ensures r.Some? <==> Strip(s) != [] && DigitGroups(Unsigned(Strip(s)))
    ensures r.Some? ==>
      var t := Strip(s);
      r.value == if t[0] == '-' then -(DigitsValue(Unsigned(t)) as int) else DigitsValue(Unsigned(t)) as int
  {
    var t := Strip(s);
    if t == [] then None
    else
      var negative := t[0] == '-';
      var body := Unsigned(t);
      if DigitGroups(body) then Some(if negative then -(DigitsValue(body) as int) else DigitsValue(body) as int) else None
  }

  /** The number of a file name that ends in `.mp4`, when what remains after
      removing `.mp4` parses as an integer. */
  function VideoNumber(name: string): (n: Option<int>)
    ensures n.Some? ==> EndsWith(name, ".mp4")
  {
    if EndsWith(name, ".mp4") then ParseInt(RemoveAll(name, ".mp4")) else None
  }

  /** The numbers parsed from the listing, in order. */
  function VideoNumbers(files: seq<string>): (nums: seq<int>)
    ensures |nums| <= |files|
    decreases |files|
  {
    if files == [] then []
    else
      var rest := VideoNumbers(files[..|files| - 1]);
      var n := VideoNumber(files[|files| - 1]);
      if n.Some? then rest + [n.value] else rest
  }

  /** `max(nums)` */
  function MaxOf(nums: seq<int>): (m: int)
    requires nums != []
    ensures m in nums && forall x :: x in nums ==> x <= m
    decreases |nums|
  {
    if |nums| == 1 then nums[0]
    else
      var rest := MaxOf(nums[..|nums| - 1]);
      assert forall x :: x in nums ==> x in nums[..|nums| - 1] || x == nums[|nums| - 1];
      Max(rest, nums[|nums| - 1])
  }

  /** `get_available_video_count`: the highest playable video number (0 when
      there is none or no folder), capped by the number of videos in the
      database. */
  function AvailableVideoCount(folderExists: bool, files: seq<string>, dbCount: int): (count: int)
    ensures count <= dbCount
  {
    var nums := VideoNumbers(files);
    var available := if folderExists && nums != [] then MaxOf(nums) else 0;
    Min(available, dbCount)
  }

  /** The parsing loop of `get_available_video_count`. */
  method GetAvailableVideoCount(folderExists: bool, files: seq<string>, dbCount: int) returns (count: int)
    ensures count == AvailableVideoCount(folderExists, files, dbCount)
  {
    var available := 0;
    if folderExists {
      var numbers: seq<int> := [];
      var i := 0;
      while i < |files|
        invariant i <= |files|
        invariant numbers == VideoNumbers(files[..i])
      {
        assert files[..i + 1][..i] == files[..i];
        if EndsWith(files[i], ".mp4") {
          var num := ParseInt(RemoveAll(files[i], ".mp4"));
          if num.Some? {
            numbers := numbers + [num.value];
          }
        }
        i := i + 1;
      }
      assert files[..i] == files;
      if numbers != [] {
        available := MaxOf(numbers);
      }
    }
    count := Min(available, dbCount);
  }

  /** A name that does not end in `.mp4` is ignored. */
  lemma OtherNamesIgnored(files: seq<string>, name: string)
    requires !EndsWith(name, ".mp4")
    ensures VideoNumbers(files + [name]) == VideoNumbers(files)
  {
    assert (files + [name])[..|files|] == files;
  }

  /** The decimal spelling of a number. */
  function Show(n: nat): (s: string)
    ensures s != [] && forall i :: 0 <= i < |s| ==> IsDigit(s[i])
    decreases n
  {
    if n < 10 then [('0' as int + n) as char]
    else Show(n / 10) + [('0' as int + n % 10) as char]
  }

  lemma {:induction false} ShowValue(n: nat)
    ensures DigitsValue(Show(n)) == n
    decreases n
  {
    if n >= 10 {
      ShowValue(n / 10);
      var s := Show(n);
      assert s[..|s| - 1] == Show(n / 10);
    }
  }

  /** Removing `pat` from a string followed by `pat` leaves the string
      when no character of it can start `pat`. */
  lemma {:induction false} RemoveSuffix(s: string, pat: string)
    requires pat != [] && forall i :: 0 <= i < |s| ==> s[i] != pat[0]
    ensures RemoveAll(s + pat, pat) == s
    decreases |s|
  {
    var t := s + pat;
    if s == [] {
      assert t[..|pat|] == pat;
      assert t[|pat|..] == [];
    } else {
      assert t[..|pat|] != pat by {
        assert t[..|pat|][0] == s[0];
      }
      assert t[1..] == s[1..] + pat;
      RemoveAllSkip(t, pat);
      RemoveSuffix(s[1..], pat);
      assert s == [s[0]] + s[1..];
    }
  }

  /** So removing `.mp4` from a digit string followed by `.mp4` leaves the
      digits. */
  lemma RemoveSuffixOfDigits(s: string)
    requires forall i :: 0 <= i < |s| ==> IsDigit(s[i])
    ensures RemoveAll(s + ".mp4", ".mp4") == s
  {
    RemoveSuffix(s, ".mp4");
  }

  /** Where `pat` does not start the string, its first character stays. */
  lemma RemoveAllSkip(s: string, pat: string)
    requires pat != [] && |s| >= |pat| && s[..|pat|] != pat
    ensures RemoveAll(s, pat) == [s[0]] + RemoveAll(s[1..], pat)
  {
  }

  /** The file `<n>.mp4` counts as video `n`. */
  lemma NumberedFile(n: nat)
    ensures VideoNumber(Show(n) + ".mp4") == Some(n)
  {
    var s := Show(n);
    var name := s + ".mp4";
    assert name[|name| - 4..] == ".mp4";
    RemoveSuffixOfDigits(s);
    assert RemoveAll(name, ".mp4") == s;
    DigitsParse(s);
    ShowValue(n);
  }

  /** `int()` reads a non-empty run of digits as its value. */
  lemma DigitsParse(s: string)
    requires s != [] && forall i :: 0 <= i < |s| ==> IsDigit(s[i])
    ensures ParseInt(s) == Some(DigitsValue(s) as int)
  {
    assert IsDigit(s[0]) && IsDigit(s[|s| - 1]);
    StripUnspaced(s);
    assert s[0] != '-' && s[0] != '+';
    assert Unsigned(Strip(s)) == s;
    DigitsAreGroups(s);
    var r := ParseInt(s);
    assert r.Some?;
  }

  /** A non-empty run of digits is something `int()` accepts. */
  lemma DigitsAreGroups(s: string)
    requires s != [] && forall i :: 0 <= i < |s| ==> IsDigit(s[i])
    ensures DigitGroups(s)
  {
    assert IsDigit(s[0]) && IsDigit(s[|s| - 1]);
  }

  /** With the folder present, a file `<n>.mp4` makes at least
      `min(n, db_count)` videos available. */
  lemma CountCoversNumberedFile(files: seq<string>, dbCount: int, n: nat)
    requires Show(n) + ".mp4" in files
    ensures Min(n, dbCount) <= AvailableVideoCount(true, files, dbCount)
  {
    NumberedFile(n);
    NumberInNumbers(files, Show(n) + ".mp4");
  }

  lemma {:induction false} NumberInNumbers(files: seq<string>, name: string)
    requires name in files && VideoNumber(name).Some?
    ensures VideoNumber(name).value in VideoNumbers(files)
    decreases |files|
  {
    var n := |files| - 1;
    if files[n] != name {
      assert name in files[..n] by {
        var j :| 0 <= j < |files| && files[j] == name;
        assert files[..n][j] == name;
      }
      NumberInNumbers(files[..n], name);
    }
  }

  /** `video_cycle[k:] + video_cycle[:k]` */
  function Rotate(s: seq<int>, k: nat): (r: seq<int>)
    requires k <= |s|
    ensures |r| == |s|
  {
    s[k..] + s[..k]
  }

  /** Rotating keeps the elements: a permutation. */
  lemma RotatePermutes(s: seq<int>, k: nat)
    requires k <= |s|
    ensures multiset(Rotate(s, k)) == multiset(s)
  {
    assert s == s[..k] + s[k..];
  }

  /** After rotating by `k`, position i holds what position `(k + i) % |s|`
      held. */
  lemma RotateAt(s: seq<int>, k: nat, i: nat)
    requires k < |s| && i < |s|
    ensures Rotate(s, k)[i] == s[(k + i) % |s|]
  {
    var n := |s|;
    var r := Rotate(s, k);
    assert r == s[k..] + s[..k];
    if k + i < n {
      assert r[i] == s[k..][i] == s[k + i];
      assert (k + i) % n == k + i;
    } else {
      assert r[i] == s[..k][i - (n - k)] == s[k + i - n];
      ModOnce(k + i, n);
    }
  }

  lemma ModOnce(a: int, n: int)
    requires 0 < n <= a < 2 * n
    ensures a % n == a - n
  {
    assert a == n * 1 + (a - n);
  }

  /** `max_videos`, or the available count when it is `None`. */
  function MaxOr(maxVideos: Option<int>, available: int): int
  {
    if maxVideos.Some? then maxVideos.value else available
  }

  /** `get_video_cycle`; a missing `max_videos` is the available count
      passed in. */
  function VideoCycle(lastVideoId: Option<int>, maxVideos: Option<int>, available: int): (r: seq<int>)
    ensures MaxOr(maxVideos, available) == 0 ==> r == [1, 2, 3, 4]
    ensures MaxOr(maxVideos, available) < 0 ==> r == []
    ensures var max := MaxOr(maxVideos, available);
      max > 0 ==> |r| == max && multiset(r) == multiset(Range(1, max + 1))
  {
    var max := MaxOr(maxVideos, available);
    if max == 0 then [1, 2, 3, 4]
    else
      var cycle := Range(1, max + 1);
      if lastVideoId.Some? && lastVideoId.value != 0 && lastVideoId.value in cycle then
        assert |cycle| == max > 0;
        var k := lastVideoId.value % max;
        RotatePermutes(cycle, k);
        Rotate(cycle, k)
      else cycle
  }

  /** A maximum of 0 gives the default cycle of four videos; a negative one
      an empty cycle. */
  lemma CycleDegenerate(lastVideoId: Option<int>, max: int)
    requires max <= 0
    ensures max == 0 ==> VideoCycle(lastVideoId, Some(max), 0) == [1, 2, 3, 4]
    ensures max < 0 ==> VideoCycle(lastVideoId, Some(max), 0) == []
  {
  }

  /** For a positive maximum the cycle is 1..max, rotated when the last
      video is one of them. */
  lemma CycleIsRotation(lastVideoId: Option<int>, max: int)
    requires max > 0
    ensures var r := VideoCycle(lastVideoId, Some(max), 0);
      if lastVideoId.Some? && 1 <= lastVideoId.value <= max then r == Rotate(Range(1, max + 1), lastVideoId.value % max)
      else r == Range(1, max + 1)
  {
    if lastVideoId.Some? {
      RangeMembers(1, max + 1, lastVideoId.value);
    }
  }

  /** For a positive maximum the cycle visits each of 1..max exactly once. */
  lemma CyclePermutes(lastVideoId: Option<int>, max: int)
    requires max > 0
    ensures var r := VideoCycle(lastVideoId, Some(max), 0);
      && |r| == max
      && multiset(r) == multiset(Range(1, max + 1))
      && Distinct(r)
      && forall x :: x in r <==> 1 <= x <= max
  {
    var cycle := Range(1, max + 1);
    var r := VideoCycle(lastVideoId, Some(max), 0);
    CycleIsRotation(lastVideoId, max);
    RangeDistinct(1, max + 1);
    if lastVideoId.Some? && 1 <= lastVideoId.value <= max {
      RotateDistinct(cycle, lastVideoId.value % max);
    }
    SameMembers(r, cycle);
    forall x
      ensures x in cycle <==> 1 <= x <= max
    {
      RangeMembers(1, max + 1, x);
    }
  }

  /** Sequences with the same multiset have the same members. */
  lemma SameMembers(a: seq<int>, b: seq<int>)
    requires multiset(a) == multiset(b)
    ensures forall x :: x in a <==> x in b
  {
    forall x
      ensures x in a <==> x in b
    {
      assert x in a <==> x in multiset(a);
      assert x in b <==> x in multiset(b);
    }
  }

  /** Rotating a list without repeats gives a list without repeats. */
  lemma RotateDistinct(s: seq<int>, k: nat)
    requires k <= |s| && Distinct(s)
    ensures Distinct(Rotate(s, k))
  {
    var r, n := Rotate(s, k), |s|;
    forall i, j | 0 <= i < j < n
      ensures r[i] != r[j]
    {
      var a := if i < n - k then k + i else i - (n - k);
      var b := if j < n - k then k + j else j - (n - k);
      assert r[i] == s[a] && r[j] == s[b];
      assert a != b;
    }
  }

  /** When the last video is one of 1..max, position i of the cycle holds
      `(last % max + i) % max + 1`. */
  lemma CycleFrom(last: int, max: int)
    requires 1 <= last <= max
    ensures var r := VideoCycle(Some(last), Some(max), 0);
      |r| == max && forall i :: 0 <= i < max ==> r[i] == (last % max + i) % max + 1
  {
    var cycle := Range(1, max + 1);
    var r := VideoCycle(Some(last), Some(max), 0);
    CycleIsRotation(Some(last), max);
    forall i | 0 <= i < max
      ensures r[i] == (last % max + i) % max + 1
    {
      RotateAt(cycle, last % max, i);
    }
  }

  lemma CycleEnds(last: int, max: int)
    requires 1 <= last <= max
    ensures (last % max + 0) % max + 1 == last % max + 1
    ensures (last % max + (max - 1)) % max + 1 == last
  {
    if last < max {
      ModSmall(last, max);
      ModOnce(last + max - 1, max);
    } else {
      ModOnce(max, max);
      ModSmall(max - 1, max);
    }
    ModSmall(last % max, max);
  }

  lemma ModSmall(a: int, n: int)
    requires 0 <= a < n
    ensures a % n == a
  {
    assert a == n * 0 + a;
  }

  /** So the cycle starts right after the last video (wrapping to 1 after
      max) and ends with it; any other last video leaves 1..max unchanged. */
  lemma CycleRotation(lastVideoId: Option<int>, max: int)
    requires max > 0
    ensures var r := VideoCycle(lastVideoId, Some(max), 0);
      if lastVideoId.Some? && 1 <= lastVideoId.value <= max then
        var last := lastVideoId.value;
        |r| == max && r[0] == last % max + 1 && r[max - 1] == last
      else r == Range(1, max + 1)
  {
    CycleIsRotation(lastVideoId, max);
    if lastVideoId.Some? && 1 <= lastVideoId.value <= max {
      var last := lastVideoId.value;
      var r := VideoCycle(lastVideoId, Some(max), 0);
      CycleFrom(last, max);
      assert r[0] == (last % max + 0) % max + 1;
      assert r[max - 1] == (last % max + (max - 1)) % max + 1;
      CycleEnds(last, max);
    }
  }
}
