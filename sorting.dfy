/**
 * A stable insertion sort by a comparison function: the model of the
 * standard library's `sort_by`, on sequences.
 */
module Sorting {
  /** `le` is total and transitive: a comparison `sort_by` can sort by. */
  ghost predicate TotalPreorder<T(!new)>(le: (T, T) -> bool)
  {
    (forall a, b :: le(a, b) || le(b, a)) &&
    (forall a, b, c :: le(a, b) && le(b, c) ==> le(a, c))
  }

  predicate SortedBy<T>(s: seq<T>, le: (T, T) -> bool)
  {
    forall i, j :: 0 <= i < j < |s| ==> le(s[i], s[j])
  }

  /** `x` placed before the first element it does not exceed. */
  function InsertBy<T(!new)>(x: T, s: seq<T>, le: (T, T) -> bool): (r: seq<T>)
    ensures |r| == |s| + 1
    ensures multiset(r) == multiset(s) + multiset{x}
  {
    if s == [] then [x]
    else if le(x, s[0]) then
      assert s == [s[0]] + s[1..];
      [x] + s
    else
      assert s == [s[0]] + s[1..];
      [s[0]] + InsertBy(x, s[1..], le)
  }

  /** Every element of a sequence whose elements all follow `y` also follows `y`. */
  lemma MembersFollow<T>(y: T, s: seq<T>, le: (T, T) -> bool, z: T)
    requires forall k :: 0 <= k < |s| ==> le(y, s[k])
    requires z in multiset(s)
    ensures le(y, z)
  {
    var m :| 0 <= m < |s| && s[m] == z;
  }

  /** Inserting into a sorted sequence keeps it sorted. */
  lemma {:induction false} InsertBySorted<T(!new)>(x: T, s: seq<T>, le: (T, T) -> bool)
    ensures TotalPreorder(le) && SortedBy(s, le) ==> SortedBy(InsertBy(x, s, le), le)
  {
    if TotalPreorder(le) && SortedBy(s, le) && s != [] && !le(x, s[0]) {
      var rest := InsertBy(x, s[1..], le);
      InsertBySorted(x, s[1..], le);
      assert le(s[0], x);
      forall k | 0 <= k < |rest|
        ensures le(s[0], rest[k])
      {
        assert rest[k] in multiset(rest);
        if rest[k] != x {
          assert forall m :: 0 <= m < |s[1..]| ==> le(s[0], s[1..][m]);
          MembersFollow(s[0], s[1..], le, rest[k]);
        }
      }
    }
  }

  /**
   * `sort_by`: the elements rearranged into order; equal elements keep their
   * relative order, since each is inserted in front of the later ones.
   */
  function SortBy<T(!new)>(s: seq<T>, le: (T, T) -> bool): (r: seq<T>)
    ensures |r| == |s| && multiset(r) == multiset(s)
    ensures TotalPreorder(le) ==> SortedBy(r, le)
  {
    if s == [] then []
    else
      assert s == [s[0]] + s[1..];
      var rest := SortBy(s[1..], le);
      InsertBySorted(s[0], rest, le);
      InsertBy(s[0], rest, le)
  }

  /** Sorting keeps exactly the elements it was given. */
  lemma SortByMembers<T(!new)>(s: seq<T>, le: (T, T) -> bool, x: T)
    ensures x in SortBy(s, le) <==> x in s
  {
    var r := SortBy(s, le);
    assert x in r <==> x in multiset(r);
    assert x in s <==> x in multiset(s);
  }
}
