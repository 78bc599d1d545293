/** Sorting by an abstract collation order. The account prompt sorts names with
    `localeCompare`, whose collation rules are not part of this model; the order
    is a parameter `le`, where `le(a, b)` means `a.localeCompare(b) <= 0`. */
module Collation {

  /** `localeCompare` orders every pair of strings and is transitive; strings it
      calls equal may still differ, so it is a total preorder, not an order. */
  ghost predicate TotalPreorder(le: (string, string) -> bool) {
    && (forall a, b :: le(a, b) || le(b, a))
    && (forall a, b, c :: le(a, b) && le(b, c) ==> le(a, c))
  }

  ghost predicate Sorted(s: seq<string>, le: (string, string) -> bool) {
    forall i, j :: 0 <= i < j < |s| ==> le(s[i], s[j])
  }

  /** Places `x` after every element that does not sort strictly after it, so
      that equal-collating strings keep their input order (a stable sort). */
  function Insert(x: string, s: seq<string>, le: (string, string) -> bool): seq<string>
    decreases |s|
  {
    if s == [] then [x]
    else if le(s[0], x) then [s[0]] + Insert(x, s[1..], le)
    else [x] + s
  }

  /** `Array.prototype.sort` with a collation comparator: a stable sort, here
      written as insertion of each element in input order. */
  function Sort(s: seq<string>, le: (string, string) -> bool): seq<string>
    decreases |s|
  {
    if s == [] then [] else Insert(s[|s| - 1], Sort(s[..|s| - 1], le), le)
  }

  lemma {:induction false} InsertPermutes(x: string, s: seq<string>, le: (string, string) -> bool)
    ensures multiset(Insert(x, s, le)) == multiset(s) + multiset{x}
    decreases |s|
  {
    if s != [] && le(s[0], x) {
      InsertPermutes(x, s[1..], le);
      assert s == [s[0]] + s[1..];
    }
  }

  /** The sorted choices are exactly the input names, each as often as given. */
  lemma {:induction false} SortPermutes(s: seq<string>, le: (string, string) -> bool)
    ensures multiset(Sort(s, le)) == multiset(s)
    ensures |Sort(s, le)| == |s|
    decreases |s|
  {
    if s != [] {
      var init := s[..|s| - 1];
      SortPermutes(init, le);
      InsertPermutes(s[|s| - 1], Sort(init, le), le);
      assert s == init + [s[|s| - 1]];
      assert |multiset(Sort(s, le))| == |multiset(s)|;
    }
  }

  lemma {:induction false} InsertSorted(x: string, s: seq<string>, le: (string, string) -> bool)
    requires TotalPreorder(le)
    requires Sorted(s, le)
    ensures Sorted(Insert(x, s, le), le)
    decreases |s|
  {
    if s == [] {
    } else if le(s[0], x) {
      InsertSorted(x, s[1..], le);
      InsertPermutes(x, s[1..], le);
      var t := Insert(x, s[1..], le);
      var r := [s[0]] + t;
      forall j | 0 < j < |r|
        ensures le(s[0], r[j])
      {
        assert r[j] in multiset(t);
        assert r[j] in multiset(s[1..]) + multiset{x};
        if r[j] != x {
          assert r[j] in s[1..];
          var k :| 0 <= k < |s[1..]| && s[1..][k] == r[j];
          assert s[k + 1] == r[j];
        }
      }
    } else {
      assert le(x, s[0]);
      var r := [x] + s;
      forall i, j | 0 <= i < j < |r|
        ensures le(r[i], r[j])
      {
        if i == 0 {
          assert r[j] == s[j - 1];
          if j - 1 > 0 {
            assert le(s[0], s[j - 1]);
          }
        } else {
          assert r[i] == s[i - 1] && r[j] == s[j - 1];
        }
      }
    }
  }

  /** Under a total preorder the result is sorted. */
  lemma {:induction false} SortSorted(s: seq<string>, le: (string, string) -> bool)
    requires TotalPreorder(le)
    ensures Sorted(Sort(s, le), le)
    decreases |s|
  {
    if s != [] {
      SortSorted(s[..|s| - 1], le);
      InsertSorted(s[|s| - 1], Sort(s[..|s| - 1], le), le);
    }
  }

  lemma SortSortedWhenPreorder(s: seq<string>, le: (string, string) -> bool)
    ensures TotalPreorder(le) ==> Sorted(Sort(s, le), le)
  {
    if TotalPreorder(le) {
      SortSorted(s, le);
    }
  }
}
