/**
 Sorting as the builder uses it: `sort_unstable` promises a sorted permutation and nothing
 about the order of equal elements.
 */
module Sorting {

  ghost predicate TotalPreorder<T(!new)>(le: (T, T) -> bool) {
    && (forall x, y :: le(x, y) || le(y, x))
    && (forall x, y, z :: le(x, y) && le(y, z) ==> le(x, z))
  }

  ghost predicate SortedBy<T>(le: (T, T) -> bool, s: seq<T>) {
    forall i, j :: 0 <= i < j < |s| ==> le(s[i], s[j])
  }

  function InsertBy<T>(le: (T, T) -> bool, s: seq<T>, x: T): seq<T> {
    if s == [] || le(s[|s| - 1], x) then s + [x]
    else InsertBy(le, s[..|s| - 1], x) + [s[|s| - 1]]
  }

  lemma Trans<T(!new)>(le: (T, T) -> bool, x: T, y: T, z: T)
    requires TotalPreorder(le) && le(x, y) && le(y, z)
    ensures le(x, z)
  {
  }

  lemma Total<T(!new)>(le: (T, T) -> bool, x: T, y: T)
    requires TotalPreorder(le)
    ensures le(x, y) || le(y, x)
  {
  }

  lemma {:induction false} InsertBySorted<T(!new)>(le: (T, T) -> bool, s: seq<T>, x: T)
    requires TotalPreorder(le) && SortedBy(le, s)
    ensures SortedBy(le, InsertBy(le, s, x))
    ensures multiset(InsertBy(le, s, x)) == multiset(s) + multiset{x}
  {
    hide TotalPreorder;
    if s == [] {
    } else if le(s[|s| - 1], x) {
      forall i | 0 <= i < |s|
        ensures le(s[i], x)
      {
        if i < |s| - 1 {
          Trans(le, s[i], s[|s| - 1], x);
        }
      }
    } else {
      var t, last := s[..|s| - 1], s[|s| - 1];
      assert s == t + [last];
      InsertBySorted(le, t, x);
      var r := InsertBy(le, t, x);
      Total(le, x, last);
      forall i | 0 <= i < |r|
        ensures le(r[i], last)
      {
        assert r[i] in multiset(r);
        assert r[i] == x || r[i] in t;
      }
    }
  }

  function SortBy<T>(le: (T, T) -> bool, s: seq<T>): seq<T> {
    if s == [] then [] else InsertBy(le, SortBy(le, s[..|s| - 1]), s[|s| - 1])
  }

  lemma {:induction false} SortBySorted<T(!new)>(le: (T, T) -> bool, s: seq<T>)
    requires TotalPreorder(le)
    ensures SortedBy(le, SortBy(le, s))
    ensures multiset(SortBy(le, s)) == multiset(s)
  {
    hide TotalPreorder, SortedBy, InsertBy;
    if s == [] {
      EmptySorted(le);
    } else {
      SortBySorted(le, s[..|s| - 1]);
      InsertBySorted(le, SortBy(le, s[..|s| - 1]), s[|s| - 1]);
      assert s == s[..|s| - 1] + [s[|s| - 1]];
    }
  }

  lemma EmptySorted<T(!new)>(le: (T, T) -> bool)
    ensures SortedBy(le, [])
  {
  }

  /** `sort_unstable_by`: callers may rely on the contract only. */
  method SortUnstable<T(!new)>(le: (T, T) -> bool, s: seq<T>) returns (r: seq<T>)
    requires TotalPreorder(le)
    ensures SortedBy(le, r) && multiset(r) == multiset(s) && |r| == |s|
  {
    SortBySorted(le, s);
    r := SortBy(le, s);
    SameLength(r, s);
  }

  lemma SameLength<T>(r: seq<T>, s: seq<T>)
    requires multiset(r) == multiset(s)
    ensures |r| == |s|
  {
    assert |multiset(r)| == |r| && |multiset(s)| == |s|;
  }

  ghost predicate Strict<T(!new)>(le: (T, T) -> bool, s: seq<T>) {
    forall x, y :: x in s && y in s && le(x, y) && le(y, x) ==> x == y
  }

  /** With no two equivalent elements the sorted permutation is unique. */
  lemma {:induction false} SortedUnique<T(!new)>(le: (T, T) -> bool, r: seq<T>, s: seq<T>)
    requires SortedBy(le, r) && SortedBy(le, s) && Strict(le, r)
    requires multiset(r) == multiset(s)
    ensures r == s
  {
    SameLength(r, s);
    if r != [] {
      SameHead(le, r, s);
      StrictTail(le, r);
      var a := r[0];
      assert r == [a] + r[1..] && s == [a] + s[1..];
      assert multiset(r[1..]) == multiset(r) - multiset{a};
      assert multiset(s[1..]) == multiset(s) - multiset{a};
      TailKeeps(le, r);
      TailKeeps(le, s);
      hide SortedBy, Strict;
      SortedUnique(le, r[1..], s[1..]);
    }
  }

  lemma TailKeeps<T(!new)>(le: (T, T) -> bool, s: seq<T>)
    requires SortedBy(le, s) && s != []
    ensures SortedBy(le, s[1..])
  {
  }

  lemma StrictTail<T(!new)>(le: (T, T) -> bool, s: seq<T>)
    requires Strict(le, s) && s != []
    ensures Strict(le, s[1..])
  {
    assert forall x :: x in s[1..] ==> x in s;
  }

  lemma SameHead<T(!new)>(le: (T, T) -> bool, r: seq<T>, s: seq<T>)
    requires SortedBy(le, r) && SortedBy(le, s) && Strict(le, r)
    requires multiset(r) == multiset(s) && r != [] && s != []
    ensures r[0] == s[0]
  {
    assert r[0] in multiset(s) && s[0] in multiset(r);
    var i :| 0 <= i < |s| && s[i] == r[0];
    var j :| 0 <= j < |r| && r[j] == s[0];
    if i != 0 && j != 0 {
      assert le(s[0], s[i]) && le(r[0], r[j]);
    }
  }

  ghost predicate NoRepeat<T>(s: seq<T>) {
    forall i, j :: 0 <= i < j < |s| ==> s[i] != s[j]
  }

  lemma {:induction false} CountOnce<T>(s: seq<T>, x: T)
    requires NoRepeat(s)
    ensures multiset(s)[x] <= 1
  {
    if s != [] {
      var t := s[..|s| - 1];
      assert s == t + [s[|s| - 1]];
      CountOnce(t, x);
      if x == s[|s| - 1] {
        assert x !in t;
      }
    }
  }

  lemma CountTwice<T>(s: seq<T>, i: nat, j: nat)
    requires i < j < |s| && s[i] == s[j]
    ensures multiset(s)[s[i]] >= 2
  {
    var x := s[i];
    assert s == s[..j] + s[j..];
    assert x == s[..j][i] && x == s[j..][0];
    assert x in multiset(s[..j]) && x in multiset(s[j..]);
  }

  lemma PermutationNoRepeat<T>(r: seq<T>, s: seq<T>)
    requires multiset(r) == multiset(s) && NoRepeat(s)
    ensures NoRepeat(r)
  {
    forall i, j | 0 <= i < j < |r|
      ensures r[i] != r[j]
    {
      if r[i] == r[j] {
        CountTwice(r, i, j);
        CountOnce(s, r[i]);
        assert false;
      }
    }
  }

  /** Without repetition, the same members are the same multiset. */
  lemma SameMembers<T>(r: seq<T>, s: seq<T>)
    requires NoRepeat(r) && NoRepeat(s) && (forall x :: x in r <==> x in s)
    ensures multiset(r) == multiset(s)
  {
    forall x
      ensures multiset(r)[x] == multiset(s)[x]
    {
      CountOnce(r, x);
      CountOnce(s, x);
      assert x in r <==> x in s;
      assert x in r <==> x in multiset(r);
      assert x in s <==> x in multiset(s);
    }
  }
}
