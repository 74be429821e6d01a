/**
 The bounded nearest-neighbour lists of the builder: `TinyTopK` (ADSampling) and
 `RowTopK` (exact leaf kNN).

 Both are fixed 32-entry buffers kept sorted by insertion. The functions `Offer` and
 `Push` say what one call does to the visible entries; `Best` says, without mentioning
 either, what a list must be for the candidates seen so far.
 */
module TopK {
  import opened Basics

  /** One list entry; distances are exact, indices are candidate numbers. */
  datatype Entry = Entry(dist: real, idx: nat)

  /** A pruning threshold; `Infinite` stands for `f32::MAX`, which no real distance reaches. */
  datatype Bound = Infinite | Finite(value: real)

  predicate Below(d: real, b: Bound) {
    b.Infinite? || d < b.value
  }

  predicate AtMost(a: Bound, b: Bound) {
    b.Infinite? || (a.Finite? && a.value <= b.value)
  }

  predicate HasIdx(s: seq<Entry>, idx: nat) {
    exists i :: 0 <= i < |s| && s[i].idx == idx
  }

  /** Insertion from the back: `e` stops behind the last entry that is not farther. */
  function Insert(s: seq<Entry>, e: Entry): (r: seq<Entry>)
    ensures |r| == |s| + 1
  {
    if s == [] || s[|s| - 1].dist <= e.dist then s + [e]
    else Insert(s[..|s| - 1], e) + [s[|s| - 1]]
  }

  /** A candidate whose index is not in the list yet. */
  function Offer(s: seq<Entry>, k: nat, e: Entry): (r: seq<Entry>)
    requires |s| <= k
    ensures |r| <= k
  {
    if |s| < k then Insert(s, e)
    else if 0 < k && e.dist < s[k - 1].dist then Insert(s[..k - 1], e)
    else s
  }

  /** `TinyTopK::push`: an index already listed is ignored. */
  function Push(s: seq<Entry>, k: nat, e: Entry): (r: seq<Entry>)
    requires |s| <= k
    ensures |r| <= k
  {
    if HasIdx(s, e.idx) then s else Offer(s, k, e)
  }

  /** The distance a candidate must beat: `f32::MAX` until the list is full. */
  function Threshold(s: seq<Entry>, k: nat): Bound
    requires |s| <= k
  {
    if |s| < k || k == 0 then Infinite else Finite(s[k - 1].dist)
  }

  // ----- the reference -------------------------------------------------------------

  ghost predicate Sorted(s: seq<Entry>) {
    forall i, j :: 0 <= i < j < |s| ==> s[i].dist <= s[j].dist
  }

  ghost predicate DistinctIdx(s: seq<Entry>) {
    forall i, j :: 0 <= i < j < |s| ==> s[i].idx != s[j].idx
  }

  ghost function Idxs(s: seq<Entry>): (r: set<nat>)
    ensures forall c :: c in r <==> HasIdx(s, c)
  {
    if s == [] then {}
    else
      var t := s[..|s| - 1];
      assert forall i :: 0 <= i < |t| ==> t[i] == s[i];
      Idxs(t) + {s[|s| - 1].idx}
  }

  /** Entries are seen candidates with their true distances, sorted and listed once. */
  ghost predicate Sound(s: seq<Entry>, seen: set<nat>, d: seq<real>) {
    && Sorted(s)
    && DistinctIdx(s)
    && (forall i :: 0 <= i < |s| ==> s[i].idx in seen && s[i].idx < |d| && s[i].dist == d[s[i].idx])
  }

  /** No seen candidate that is left out is nearer than a listed one. */
  ghost predicate Complete(s: seq<Entry>, seen: set<nat>, d: seq<real>) {
    forall c, i :: c in seen && c < |d| && !HasIdx(s, c) && 0 <= i < |s| ==> s[i].dist <= d[c]
  }

  /** `s` holds min(k, |seen|) of the seen candidates, and the nearest ones when `exact`. */
  ghost predicate Best(s: seq<Entry>, k: nat, seen: set<nat>, d: seq<real>, exact: bool) {
    && |s| == MinNat(k, |seen|)
    && Sound(s, seen, d)
    && (exact ==> Complete(s, seen, d))
  }

  /** Order by distance, then by index. */
  predicate Before(a: Entry, b: Entry) {
    a.dist < b.dist || (a.dist == b.dist && a.idx < b.idx)
  }

  ghost predicate Chain(s: seq<Entry>) {
    forall i, j :: 0 <= i < j < |s| ==> Before(s[i], s[j])
  }

  ghost predicate Exact(s: seq<Entry>, d: seq<real>) {
    forall i :: 0 <= i < |s| ==> s[i].idx < |d| && s[i].dist == d[s[i].idx]
  }

  ghost predicate First(s: seq<Entry>, d: seq<real>) {
    forall c, i :: 0 <= c < |d| && !HasIdx(s, c) && 0 <= i < |s| ==> Before(s[i], Entry(d[c], c))
  }

  /** The k first candidates of 0..|d|-1 in the order `Before`, listed in that order. */
  ghost predicate Nearest(s: seq<Entry>, k: nat, d: seq<real>) {
    && |s| == MinNat(k, |d|)
    && Exact(s, d)
    && Chain(s)
    && DistinctIdx(s)
    && First(s, d)
  }

  // ----- insertion -----------------------------------------------------------------

  /** Insertion splits the list where the new entry goes; `p` may be any such place. */
  lemma {:induction false} InsertAt(s: seq<Entry>, e: Entry, p: nat)
    requires p <= |s|
    requires p == 0 || s[p - 1].dist <= e.dist
    requires forall i :: p <= i < |s| ==> e.dist < s[i].dist
    ensures Insert(s, e) == s[..p] + [e] + s[p..]
  {
    if p == |s| {
      assert s[..p] == s && s[p..] == [];
    } else {
      var front := s[..|s| - 1];
      InsertAt(front, e, p);
      assert front[..p] == s[..p];
      assert front[p..] + [s[|s| - 1]] == s[p..];
    }
  }

  /** Where insertion puts the entry, and what stands where afterwards. */
  lemma {:induction false} InsertSplit(s: seq<Entry>, e: Entry) returns (p: nat)
    ensures p <= |s|
    ensures p == 0 || s[p - 1].dist <= e.dist
    ensures forall i :: p <= i < |s| ==> e.dist < s[i].dist
    ensures Inserted(s, e, p, Insert(s, e))
  {
    p := |s|;
    while p > 0 && e.dist < s[p - 1].dist
      invariant p <= |s|
      invariant forall i :: p <= i < |s| ==> e.dist < s[i].dist
    {
      p := p - 1;
    }
    InsertAt(s, e, p);
  }

  ghost predicate Inserted(s: seq<Entry>, e: Entry, p: nat, r: seq<Entry>) {
    && p <= |s|
    && |r| == |s| + 1
    && (forall i :: 0 <= i < p ==> r[i] == s[i])
    && r[p] == e
    && (forall i {:trigger r[i]} :: p < i < |r| ==> r[i] == s[i - 1])
  }

  lemma InsertMembers(s: seq<Entry>, e: Entry)
    ensures forall c :: HasIdx(Insert(s, e), c) <==> c == e.idx || HasIdx(s, c)
  {
    var p := InsertSplit(s, e);
    InsertedMembers(s, e, p, Insert(s, e));
  }

  lemma InsertedMembers(s: seq<Entry>, e: Entry, p: nat, r: seq<Entry>)
    requires Inserted(s, e, p, r)
    ensures forall c :: HasIdx(r, c) <==> c == e.idx || HasIdx(s, c)
  {
    forall c
      ensures HasIdx(r, c) <==> c == e.idx || HasIdx(s, c)
    {
      if HasIdx(s, c) {
        var i :| 0 <= i < |s| && s[i].idx == c;
        assert r[if i < p then i else i + 1].idx == c;
      }
      assert r[p] == e;
      if HasIdx(r, c) && c != e.idx {
        var i :| 0 <= i < |r| && r[i].idx == c;
        assert s[if i < p then i else i - 1].idx == c;
      }
    }
  }

  lemma InsertSorted(s: seq<Entry>, e: Entry)
    requires Sorted(s)
    ensures Sorted(Insert(s, e))
  {
    var p := InsertSplit(s, e);
    var r := Insert(s, e);
    forall i, j | 0 <= i < j < |r|
      ensures r[i].dist <= r[j].dist
    {
      if i < p <= j {
        assert s[i].dist <= s[p - 1].dist;
      }
    }
  }

  lemma InsertSound(s: seq<Entry>, seen: set<nat>, d: seq<real>, e: Entry)
    requires Sound(s, seen, d)
    requires e.idx !in seen && e.idx < |d| && e.dist == d[e.idx]
    ensures Sound(Insert(s, e), seen + {e.idx}, d)
  {
    InsertSorted(s, e);
    var p := InsertSplit(s, e);
  }

  lemma BestEmpty(k: nat, d: seq<real>, exact: bool)
    ensures Best([], k, {}, d, exact)
  {
  }

  // ----- one candidate ---------------------------------------------------------------

  /** Pushing an unseen candidate keeps the list best for the enlarged set. */
  lemma BestPush(s: seq<Entry>, k: nat, seen: set<nat>, d: seq<real>, exact: bool, e: Entry)
    requires Best(s, k, seen, d, exact)
    requires e.idx !in seen && e.idx < |d| && e.dist == d[e.idx]
    ensures !HasIdx(s, e.idx)
    ensures Best(Push(s, k, e), k, seen + {e.idx}, d, exact)
  {
    assert !HasIdx(s, e.idx);
    hide Insert, HasIdx, Sorted, DistinctIdx, Complete;
    if |s| < k {
      InsertSound(s, seen, d, e);
      BestGrow(s, seen, d, e);
    } else if 0 < k && e.dist < s[k - 1].dist {
      PrefixSound(s, seen, d, k - 1);
      InsertSound(s[..k - 1], seen, d, e);
      if exact {
        BestReplace(s, seen, d, e);
      }
    } else if exact {
      CompleteKeep(s, seen, d, e);
    }
  }

  lemma PrefixSound(s: seq<Entry>, seen: set<nat>, d: seq<real>, n: nat)
    requires n <= |s| && Sound(s, seen, d)
    ensures Sound(s[..n], seen, d)
  {
  }

  lemma CompleteKeep(s: seq<Entry>, seen: set<nat>, d: seq<real>, e: Entry)
    requires Sorted(s) && Complete(s, seen, d) && e.idx < |d| && e.dist == d[e.idx]
    requires s == [] || s[|s| - 1].dist <= e.dist
    ensures Complete(s, seen + {e.idx}, d)
  {
  }

  lemma BestGrow(s: seq<Entry>, seen: set<nat>, d: seq<real>, e: Entry)
    requires Sound(s, seen, d) && |s| == |seen|
    ensures Complete(Insert(s, e), seen + {e.idx}, d)
  {
    InsertMembers(s, e);
    IdxsCount(s);
    SameSizeSubset(Idxs(s), seen);
    assert forall c :: c in seen ==> c in Idxs(s);
  }

  lemma BestReplace(s: seq<Entry>, seen: set<nat>, d: seq<real>, e: Entry)
    requires 0 < |s| && Sound(s, seen, d) && Complete(s, seen, d)
    requires e.dist < s[|s| - 1].dist
    ensures Complete(Insert(s[..|s| - 1], e), seen + {e.idx}, d)
  {
    var t, last := s[..|s| - 1], s[|s| - 1];
    var r := Insert(t, e);
    InsertMembers(t, e);
    assert forall i :: 0 <= i < |t| ==> t[i].dist <= last.dist;
    hide Insert, Sound;
    InsertBelow(t, e, last.dist);
    forall c | c in seen + {e.idx} && c < |d| && !HasIdx(r, c)
      ensures last.dist <= d[c]
    {
      if HasIdx(s, c) {
        OnlyLast(s, c);
      }
    }
  }

  lemma InsertBelow(t: seq<Entry>, e: Entry, most: real)
    requires e.dist <= most && forall i :: 0 <= i < |t| ==> t[i].dist <= most
    ensures forall i :: 0 <= i < |Insert(t, e)| ==> Insert(t, e)[i].dist <= most
  {
    var p := InsertSplit(t, e);
  }

  lemma OnlyLast(s: seq<Entry>, c: nat)
    requires HasIdx(s, c) && !HasIdx(s[..|s| - 1], c)
    ensures s[|s| - 1].idx == c
  {
    var m :| 0 <= m < |s| && s[m].idx == c;
    var t := s[..|s| - 1];
    assert forall i :: 0 <= i < |t| ==> t[i] == s[i];
  }

  /** A candidate that does not beat a full list may be left unpushed. */
  lemma BestSkip(s: seq<Entry>, k: nat, seen: set<nat>, d: seq<real>, exact: bool, c: nat)
    requires Best(s, k, seen, d, exact) && c < |d|
    requires Threshold(s, k).Finite?
    requires exact ==> !Below(d[c], Threshold(s, k))
    ensures Best(s, k, seen + {c}, d, exact)
  {
    SubsetCount(seen, seen + {c});
  }

  /** A push that does not beat the threshold changes nothing. */
  lemma PushNoOp(s: seq<Entry>, k: nat, e: Entry)
    requires |s| <= k && !Below(e.dist, Threshold(s, k))
    ensures Push(s, k, e) == s
  {
  }

  /** Pushing never raises the threshold. */
  lemma ThresholdFalls(s: seq<Entry>, k: nat, e: Entry)
    requires |s| <= k && Sorted(s)
    ensures AtMost(Threshold(Push(s, k, e), k), Threshold(s, k))
  {
    if |s| == k && 0 < k && !HasIdx(s, e.idx) && e.dist < s[k - 1].dist {
      var p := InsertSplit(s[..k - 1], e);
    }
  }

  // ----- counting --------------------------------------------------------------------

  lemma {:induction false} IdxsCount(s: seq<Entry>)
    requires DistinctIdx(s)
    ensures |Idxs(s)| == |s|
  {
    if s != [] {
      IdxsCount(s[..|s| - 1]);
      assert !HasIdx(s[..|s| - 1], s[|s| - 1].idx);
    }
  }

  lemma SameSizeSubset(a: set<nat>, b: set<nat>)
    requires a <= b && |a| >= |b|
    ensures a == b
  {
    assert b == a + (b - a);
  }

  lemma {:induction false} SubsetCount(a: set<nat>, b: set<nat>)
    requires a <= b
    ensures |a| <= |b|
  {
    if a != {} {
      var x :| x in a;
      SubsetCount(a - {x}, b - {x});
    }
  }

  // ----- the reference determines the distances ----------------------------------------

  /** Two best lists of the same candidates carry the same distances, position by position. */
  lemma BestUnique(s: seq<Entry>, t: seq<Entry>, k: nat, seen: set<nat>, d: seq<real>)
    requires Best(s, k, seen, d, true) && Best(t, k, seen, d, true)
    ensures |s| == |t|
    ensures forall i :: 0 <= i < |s| ==> s[i].dist == t[i].dist
  {
    forall i | 0 <= i < |s|
      ensures s[i].dist == t[i].dist
    {
      NotNearerAt(s, t, k, seen, d, i);
      NotNearerAt(t, s, k, seen, d, i);
    }
  }

  lemma NotNearerAt(s: seq<Entry>, t: seq<Entry>, k: nat, seen: set<nat>, d: seq<real>, i: nat)
    requires Best(s, k, seen, d, true) && Best(t, k, seen, d, true)
    requires i < |s| && i < |t|
    ensures s[i].dist >= t[i].dist
  {
    var c := Unlisted(s, t, i);
    var m :| 0 <= m <= i && s[m].idx == c;
    assert s[m].dist <= s[i].dist;
    if HasIdx(t, c) {
      var n :| 0 <= n < |t| && t[n].idx == c;
      assert t[i].dist <= t[n].dist;
    }
  }

  /** Among i + 1 listed candidates one is missing from any i. */
  lemma Unlisted(s: seq<Entry>, t: seq<Entry>, i: nat) returns (c: nat)
    requires i < |s| && i <= |t| && DistinctIdx(s) && DistinctIdx(t)
    ensures exists m :: 0 <= m <= i && s[m].idx == c
    ensures forall n :: 0 <= n < i ==> t[n].idx != c
  {
    var a, b := s[..i + 1], t[..i];
    IdxsCount(a);
    IdxsCount(b);
    assert |Idxs(a)| == i + 1 && |Idxs(b)| == i;
    hide Idxs;
    c := MemberOutside(Idxs(a), Idxs(b));
    var m :| 0 <= m < |a| && a[m].idx == c;
    assert s[m].idx == c;
    forall n | 0 <= n < i
      ensures t[n].idx != c
    {
      assert b[n] == t[n];
    }
  }

  lemma MemberOutside(a: set<nat>, b: set<nat>) returns (c: nat)
    requires |a| > |b|
    ensures c in a && c !in b
  {
    if a <= b {
      SubsetCount(a, b);
      assert false;
    }
    c :| c in a && c !in b;
  }

  // ----- candidates pushed in index order ------------------------------------------------

  /** All candidates pushed in index order, as the exact scans do. */
  function PushAll(k: nat, d: seq<real>): (r: seq<Entry>)
    ensures |r| <= k
  {
    if d == [] then [] else Push(PushAll(k, d[..|d| - 1]), k, Entry(d[|d| - 1], |d| - 1))
  }

  /** Pushing in index order yields the k first candidates by distance, then index. */
  lemma {:induction false} PushAllNearest(k: nat, d: seq<real>)
    ensures Nearest(PushAll(k, d), k, d)
  {
    if d != [] {
      var d', n := d[..|d| - 1], |d| - 1;
      PushAllNearest(k, d');
      NearestStep(PushAll(k, d'), k, d);
    }
  }

  lemma NearestStep(s: seq<Entry>, k: nat, d: seq<real>)
    requires 0 < |d| && Nearest(s, k, d[..|d| - 1])
    ensures Nearest(Push(s, k, Entry(d[|d| - 1], |d| - 1)), k, d)
  {
    hide Nearest, Insert, HasIdx;
    var e := Entry(d[|d| - 1], |d| - 1);
    NearestLen(s, k, d);
    if |s| < k {
      NearestGrow(s, k, d, e);
    } else if 0 < k && e.dist < s[k - 1].dist {
      NearestReplace(s, d, e);
    } else {
      NearestKeep(s, d, e);
    }
  }

  lemma NearestLen(s: seq<Entry>, k: nat, d: seq<real>)
    requires 0 < |d| && Nearest(s, k, d[..|d| - 1])
    ensures |s| <= k && !HasIdx(s, |d| - 1)
    ensures |s| == k ==> Nearest(s, |s|, d[..|d| - 1])
  {
  }

  lemma NearestKeep(s: seq<Entry>, d: seq<real>, e: Entry)
    requires 0 < |d| && e == Entry(d[|d| - 1], |d| - 1)
    requires Nearest(s, |s|, d[..|d| - 1])
    requires s == [] || s[|s| - 1].dist <= e.dist
    ensures Nearest(s, |s|, d)
  {
    FirstKeep(s, d, e);
  }

  lemma NearestGrow(s: seq<Entry>, k: nat, d: seq<real>, e: Entry)
    requires 0 < |d| && e == Entry(d[|d| - 1], |d| - 1)
    requires Nearest(s, k, d[..|d| - 1]) && |s| < k
    ensures Nearest(Insert(s, e), k, d)
  {
    InsertExact(s, d, e);
    ChainInsert(s, e);
    InsertDistinct(s, e);
    FirstGrow(s, d, e);
  }

  lemma NearestReplace(s: seq<Entry>, d: seq<real>, e: Entry)
    requires 0 < |d| && 0 < |s| && e == Entry(d[|d| - 1], |d| - 1)
    requires Nearest(s, |s|, d[..|d| - 1]) && e.dist < s[|s| - 1].dist
    ensures Nearest(Insert(s[..|s| - 1], e), |s|, d)
  {
    var t := s[..|s| - 1];
    PrefixKeeps(s, d, |s| - 1);
    InsertExact(t, d, e);
    ChainInsert(t, e);
    InsertDistinct(t, e);
    FirstReplace(s, d, e);
  }

  lemma PrefixKeeps(s: seq<Entry>, d: seq<real>, n: nat)
    requires n <= |s| && Exact(s, d) && Chain(s) && DistinctIdx(s)
    ensures Exact(s[..n], d) && Chain(s[..n]) && DistinctIdx(s[..n])
  {
  }

  lemma InsertExact(s: seq<Entry>, d: seq<real>, e: Entry)
    requires Exact(s, d) && e.idx < |d| && e.dist == d[e.idx]
    ensures Exact(Insert(s, e), d)
  {
    var p := InsertSplit(s, e);
  }

  lemma InsertDistinct(s: seq<Entry>, e: Entry)
    requires DistinctIdx(s)
    requires forall i :: 0 <= i < |s| ==> s[i].idx != e.idx
    ensures DistinctIdx(Insert(s, e))
  {
    var p := InsertSplit(s, e);
  }

  lemma FirstKeep(s: seq<Entry>, d: seq<real>, e: Entry)
    requires 0 < |d| && e == Entry(d[|d| - 1], |d| - 1)
    requires Chain(s) && Exact(s, d[..|d| - 1]) && First(s, d[..|d| - 1])
    requires s == [] || s[|s| - 1].dist <= e.dist
    ensures First(s, d)
  {
    forall i | 0 <= i < |s|
      ensures Before(s[i], e)
    {
      assert i < |s| - 1 ==> Before(s[i], s[|s| - 1]);
    }
  }

  lemma FirstGrow(s: seq<Entry>, d: seq<real>, e: Entry)
    requires |d| == |s| + 1 && e == Entry(d[|s|], |s|)
    requires DistinctIdx(s) && Exact(s, d[..|s|])
    ensures First(Insert(s, e), d)
  {
    InsertMembers(s, e);
    AllListed(s, |s|);
  }

  lemma ChainInsert(s: seq<Entry>, e: Entry)
    requires Chain(s)
    requires forall i :: 0 <= i < |s| ==> s[i].idx < e.idx
    ensures Chain(Insert(s, e))
  {
    var p := InsertSplit(s, e);
    var r := Insert(s, e);
    forall i, j | 0 <= i < j < |r|
      ensures Before(r[i], r[j])
    {
      if i < p <= j {
        assert i < p - 1 ==> Before(s[i], s[p - 1]);
      }
    }
  }

  lemma FirstReplace(s: seq<Entry>, d: seq<real>, e: Entry)
    requires 0 < |d| && 0 < |s| && e == Entry(d[|d| - 1], |d| - 1)
    requires Chain(s) && Exact(s, d[..|d| - 1]) && First(s, d[..|d| - 1])
    requires e.dist < s[|s| - 1].dist
    ensures First(Insert(s[..|s| - 1], e), d)
  {
    var t, last := s[..|s| - 1], s[|s| - 1];
    var r := Insert(t, e);
    InsertMembers(t, e);
    var p := InsertSplit(t, e);
    assert forall i :: 0 <= i < |r| ==> Before(r[i], last);
    hide Insert;
    forall c | 0 <= c < |d| && !HasIdx(r, c)
      ensures last == Entry(d[c], c) || Before(last, Entry(d[c], c))
    {
      if HasIdx(s, c) {
        OnlyLast(s, c);
      }
    }
  }

  lemma AllListed(s: seq<Entry>, n: nat)
    requires |s| == n && DistinctIdx(s)
    requires forall i :: 0 <= i < |s| ==> s[i].idx < n
    ensures forall c :: 0 <= c < n ==> HasIdx(s, c)
  {
    IdxsCount(s);
    SameSizeSubset(Idxs(s), UpTo(n));
    forall c | 0 <= c < n
      ensures HasIdx(s, c)
    {
      assert c in Idxs(s);
    }
  }

  /** The first n natural numbers. */
  function UpTo(n: nat): (r: set<nat>)
    ensures |r| == n
    ensures forall c: nat :: c in r <==> c < n
  {
    if n == 0 then {} else UpTo(n - 1) + {n - 1}
  }

  /** The reference list by distance and index is unique. */
  lemma NearestUnique(s: seq<Entry>, t: seq<Entry>, k: nat, d: seq<real>)
    requires Nearest(s, k, d) && Nearest(t, k, d)
    ensures s == t
  {
    forall i | 0 <= i < |s|
      ensures s[i] == t[i]
    {
      NotBeforeAt(s, t, d, i);
      NotBeforeAt(t, s, d, i);
    }
  }

  lemma NotBeforeAt(s: seq<Entry>, t: seq<Entry>, d: seq<real>, i: nat)
    requires Exact(s, d) && Chain(s) && DistinctIdx(s)
    requires Exact(t, d) && Chain(t) && DistinctIdx(t) && First(t, d)
    requires i < |s| && i < |t|
    ensures !Before(s[i], t[i])
  {
    var c := Unlisted(s, t, i);
    var m :| 0 <= m <= i && s[m].idx == c;
    assert s[m] == Entry(d[c], c);
    assert m < i ==> Before(s[m], s[i]);
    if HasIdx(t, c) {
      var n :| 0 <= n < |t| && t[n].idx == c;
      assert t[n] == s[m];
      assert i < n ==> Before(t[i], t[n]);
    } else {
      assert Before(t[i], Entry(d[c], c));
    }
  }

  // ----- the buffers -------------------------------------------------------------------

  const CAPACITY: nat := 32

  function ClampK(k: nat): (r: nat)
    ensures 1 <= r <= 32 && (1 <= k <= 32 ==> r == k) && (k < 1 ==> r == 1) && (32 < k ==> r == 32)
  {
    if k < 1 then 1 else if k > CAPACITY then CAPACITY else k
  }

  /** `TinyTopK`: k nearest so far, nearest first, in a fixed buffer. */
  class TinyTopK {
    const items: array<Entry>
    const k: nat
    var len: nat

    ghost predicate Valid()
      reads this
    {
      items.Length == CAPACITY && 1 <= k <= CAPACITY && len <= k
    }

    ghost function Contents(): (s: seq<Entry>)
      requires Valid()
      reads this, items
      ensures |s| == len
    {
      items[..len]
    }

    constructor (limit: nat)
      ensures Valid() && fresh(items) && k == ClampK(limit) && Contents() == []
    {
      items := new Entry[CAPACITY](_ => Entry(0.0, 0));
      k := ClampK(limit);
      len := 0;
    }

    /** Swaps the last entry towards the front while it is strictly nearer. */
    method SiftUp()
      requires Valid() && 0 < len
      modifies items
      ensures Contents() == Insert(old(Contents()[..len - 1]), old(items[len - 1]))
    {
      ghost var s, e := Contents()[..len - 1], items[len - 1];
      var at := len - 1;
      while at > 0 && items[at].dist < items[at - 1].dist
        invariant 0 <= at <= len - 1
        invariant forall i :: 0 <= i < at ==> items[i] == s[i]
        invariant items[at] == e
        invariant forall i {:trigger items[i]} :: at < i < len ==> items[i] == s[i - 1]
        invariant forall i :: at <= i < |s| ==> e.dist < s[i].dist
      {
        items[at], items[at - 1] := items[at - 1], items[at];
        at := at - 1;
      }
      InsertAt(s, e, at);
      assert items[..len] == s[..at] + [e] + s[at..];
    }

    /** `push_unique`: the caller knows the index is not listed. */
    method PushUnique(dist: real, idx: nat)
      requires Valid() && !HasIdx(Contents(), idx)
      modifies this, items
      ensures Valid()
      ensures Contents() == Offer(old(Contents()), k, Entry(dist, idx))
      ensures Contents() == Push(old(Contents()), k, Entry(dist, idx))
    {
      if len < k {
        items[len] := Entry(dist, idx);
        len := len + 1;
        assert Contents()[..len - 1] == old(Contents());
        SiftUp();
      } else {
        if dist < items[k - 1].dist {
          items[k - 1] := Entry(dist, idx);
          assert Contents()[..k - 1] == old(Contents())[..k - 1];
          SiftUp();
        }
      }
    }

    /** `push`: an index already listed is ignored. */
    method PushEntry(dist: real, idx: nat)
      requires Valid()
      modifies this, items
      ensures Valid()
      ensures Contents() == Push(old(Contents()), k, Entry(dist, idx))
    {
      var i := 0;
      while i < len
        invariant i <= len
        invariant forall j :: 0 <= j < i ==> items[j].idx != idx
      {
        if items[i].idx == idx {
          assert Contents()[i].idx == idx;
          return;
        }
        i := i + 1;
      }
      PushUnique(dist, idx);
    }
  }

  lemma Spliced(s: seq<Entry>, e: Entry, i: nat, r: seq<Entry>)
    requires i <= |s| && |r| == |s| + 1 && r[i] == e
    requires (forall j :: 0 <= j < i ==> r[j] == s[j]) && (forall j {:trigger r[j]} :: i < j <= |s| ==> r[j] == s[j - 1])
    ensures r == s[..i] + [e] + s[i..]
  {
  }

  /** `RowTopK`: the same list with k given at each call and no membership test. */
  class RowTopK {
    const buf: array<Entry>
    var len: nat

    ghost predicate Valid()
      reads this
    {
      buf.Length == CAPACITY && len <= CAPACITY
    }

    ghost function Contents(): (s: seq<Entry>)
      requires Valid()
      reads this, buf
      ensures |s| == len
    {
      buf[..len]
    }

    constructor ()
      ensures Valid() && fresh(buf) && Contents() == []
    {
      buf := new Entry[CAPACITY](_ => Entry(0.0, 0));
      len := 0;
    }

    method Clear()
      requires Valid()
      modifies this
      ensures Valid() && Contents() == []
    {
      len := 0;
    }

    /** Shifts farther entries right by one from `at` and writes the new one in the gap. */
    method ShiftIn(at: nat, e: Entry)
      requires Valid() && at < CAPACITY
      modifies buf
      ensures buf[..at + 1] == Insert(old(buf[..at]), e)
      ensures forall i :: at < i < CAPACITY ==> buf[i] == old(buf[i])
    {
      ghost var s := buf[..at];
      var i := at;
      while i > 0 && buf[i - 1].dist > e.dist
        invariant i <= at
        invariant forall j :: 0 <= j < i ==> buf[j] == s[j]
        invariant forall j {:trigger buf[j]} :: i < j <= at ==> buf[j] == s[j - 1]
        invariant forall j :: i <= j < at ==> e.dist < s[j].dist
        invariant forall j :: at < j < CAPACITY ==> buf[j] == old(buf[j])
      {
        buf[i] := buf[i - 1];
        i := i - 1;
      }
      buf[i] := e;
      InsertAt(s, e, i);
      hide *;
      Spliced(s, e, i, buf[..at + 1]);
    }

    method Push(k: nat, idx: nat, dist: real)
      requires Valid() && len <= k <= CAPACITY
      modifies this, buf
      ensures Valid()
      ensures Contents() == Offer(old(Contents()), k, Entry(dist, idx))
    {
      if k == 0 {
        return;
      }
      if len < k {
        ShiftIn(len, Entry(dist, idx));
        len := len + 1;
      } else {
        if dist >= buf[k - 1].dist {
          return;
        }
        assert buf[..k - 1] == Contents()[..k - 1];
        ShiftIn(k - 1, Entry(dist, idx));
      }
    }
  }
}
