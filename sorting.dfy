/** Python's `list.sort(key=..., reverse=True)` and `sorted(..., reverse=True)`:
    a stable sort into non-increasing key order. It is modelled by an
    insertion sort that places each element before every later element whose
    key is not larger, so elements with equal keys keep their input order.
    `ge(a, b)` stands for "the key of a is at least the key of b". */
module Sorting {

  ghost predicate TotalPreorder<T(!new)>(ge: (T, T) -> bool)
  {
    && (forall a, b :: ge(a, b) || ge(b, a))
    && (forall a, b, c :: ge(a, b) && ge(b, c) ==> ge(a, c))
  }

  ghost predicate SortedBy<T>(s: seq<T>, ge: (T, T) -> bool)
  {
    forall i, j :: 0 <= i < j < |s| ==> ge(s[i], s[j])
  }

  function Insert<T>(x: T, s: seq<T>, ge: (T, T) -> bool): (r: seq<T>)
    ensures |r| == |s| + 1
    ensures multiset(r) == multiset{x} + multiset(s)
  {
    if s == [] || ge(x, s[0]) then [x] + s
    else
      assert s == [s[0]] + s[1..];
      [s[0]] + Insert(x, s[1..], ge)
  }

  function SortDesc<T>(s: seq<T>, ge: (T, T) -> bool): (r: seq<T>)
    ensures |r| == |s|
    ensures multiset(r) == multiset(s)
  {
    if s == [] then []
    else
      assert s == [s[0]] + s[1..];
      Insert(s[0], SortDesc(s[1..], ge), ge)
  }

  lemma {:induction false} InsertSorted<T(!new)>(x: T, s: seq<T>, ge: (T, T) -> bool)
    requires TotalPreorder(ge) && SortedBy(s, ge)
    ensures SortedBy(Insert(x, s, ge), ge)
  {
    if s == [] || ge(x, s[0]) {
    } else {
      var t := Insert(x, s[1..], ge);
      InsertSorted(x, s[1..], ge);
      forall k | 0 <= k < |t|
        ensures ge(s[0], t[k])
      {
        assert t[k] in multiset(t);
        assert t[k] == x || t[k] in multiset(s[1..]);
        if t[k] != x {
          var j :| 0 <= j < |s[1..]| && s[1..][j] == t[k];
          assert s[1 + j] == t[k];
        }
      }
    }
  }

  /** The sort yields a non-increasing permutation of its input. */
  lemma {:induction false} SortDescSorted<T(!new)>(s: seq<T>, ge: (T, T) -> bool)
    requires TotalPreorder(ge)
    ensures SortedBy(SortDesc(s, ge), ge)
  {
    if s != [] {
      SortDescSorted(s[1..], ge);
      InsertSorted(s[0], SortDesc(s[1..], ge), ge);
    }
  }

  /** Truncating a sorted list to its first `n` entries keeps everything it
      drops at or below everything it keeps. */
  lemma TakeDominates<T(!new)>(s: seq<T>, ge: (T, T) -> bool, n: nat)
    requires SortedBy(s, ge) && n <= |s|
    ensures SortedBy(s[..n], ge)
    ensures forall i, j :: 0 <= i < n <= j < |s| ==> ge(s[i], s[j])
  {
  }

  /** Every element of the input is somewhere in the sorted output. */
  lemma SortDescMembers<T>(s: seq<T>, ge: (T, T) -> bool, x: T)
    ensures x in s <==> x in SortDesc(s, ge)
  {
    var r := SortDesc(s, ge);
    assert x in s <==> x in multiset(s);
    assert x in r <==> x in multiset(r);
  }

  /** Two positions holding the same element make it occur twice. */
  lemma MultisetTwice<T>(s: seq<T>, i: nat, j: nat)
    requires i < j < |s| && s[i] == s[j]
    ensures multiset(s)[s[i]] >= 2
  {
    assert s == s[..i] + [s[i]] + s[i + 1..j] + [s[j]] + s[j + 1..];
  }

  /** In a list whose elements have pairwise different keys every element
      occurs once. */
  lemma {:induction false} CountOfKeyed<T>(s: seq<T>, key: T -> int, a: nat)
    requires forall i, j :: 0 <= i < j < |s| ==> key(s[i]) != key(s[j])
    requires a < |s|
    ensures multiset(s)[s[a]] == 1
  {
    assert s == s[..a] + [s[a]] + s[a + 1..];
    var others := s[..a] + s[a + 1..];
    forall t | 0 <= t < |others|
      ensures others[t] != s[a]
    {
      var u := if t < a then t else t + 1;
      assert others[t] == s[u];
      assert key(s[u]) != key(s[a]);
    }
    assert multiset(others)[s[a]] == 0;
    assert multiset(s) == multiset(s[..a]) + multiset{s[a]} + multiset(s[a + 1..]);
  }

  /** Reordering a list whose elements have pairwise different keys keeps
      the keys pairwise different. */
  lemma PermutationKeepsKeysDistinct<T>(s: seq<T>, t: seq<T>, key: T -> int)
    requires multiset(t) == multiset(s)
    requires forall i, j :: 0 <= i < j < |s| ==> key(s[i]) != key(s[j])
    ensures forall i, j :: 0 <= i < j < |t| ==> key(t[i]) != key(t[j])
  {
    forall i, j | 0 <= i < j < |t|
      ensures key(t[i]) != key(t[j])
    {
      assert t[i] in multiset(s) && t[j] in multiset(s);
      var a :| 0 <= a < |s| && s[a] == t[i];
      var b :| 0 <= b < |s| && s[b] == t[j];
      if key(t[i]) == key(t[j]) {
        assert a == b;
        MultisetTwice(t, i, j);
        CountOfKeyed(s, key, a);
      }
    }
  }

  /** An element of the input that a cut of the sorted list leaves out lies
      past the cut, and everything the cut keeps ranks at least as high. */
  lemma DroppedRanksBelow<T(!new)>(s: seq<T>, ge: (T, T) -> bool, cut: nat, x: T)
    requires TotalPreorder(ge) && x in s
    requires cut <= |s| && x !in SortDesc(s, ge)[..cut]
    ensures cut < |s|
    ensures forall i :: 0 <= i < cut ==> ge(SortDesc(s, ge)[i], x)
  {
    var sorted := SortDesc(s, ge);
    SortDescSorted(s, ge);
    SortDescMembers(s, ge, x);
    var m :| 0 <= m < |sorted| && sorted[m] == x;
    forall i | 0 <= i < cut
      ensures sorted[i] != x
    {
      assert sorted[..cut][i] == sorted[i];
    }
    forall i | 0 <= i < cut
      ensures ge(sorted[i], x)
    {
      assert i < m;
    }
  }
}
