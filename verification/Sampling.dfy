/**
 Bottom-k sampling of point ids: of the distinct ids, the k least by (score, id). When k covers
 all of them, they are returned in id order. The score is any function of the id.
 */
module Sampling {
  import opened Sorting

  datatype Pair = Pair(id: nat, pos: nat)

  type Score = nat -> nat

  /** The order of the output: by id alone, or by score and then id. */
  function Order(byId: bool, score: Score): (nat, nat) -> bool {
    (x: nat, y: nat) => NotAfter(byId, score, x, y)
  }

  predicate NotAfter(byId: bool, score: Score, x: nat, y: nat) {
    if byId then x <= y else score(x) < score(y) || (score(x) == score(y) && x <= y)
  }

  ghost function Ids(ids: seq<nat>): set<nat> {
    set x | x in ids
  }

  ghost predicate AfterAll(le: (nat, nat) -> bool, out: seq<nat>, x: nat) {
    forall i :: 0 <= i < |out| ==> le(out[i], x)
  }

  /** `out` lists the min(k, |all|) first of `all`, in order. */
  ghost predicate IsSample(out: seq<nat>, all: set<nat>, k: nat, score: Score) {
    var le := Order(k >= |all|, score);
    && |out| == (if k < |all| then k else |all|)
    && NoRepeat(out)
    && (forall i :: 0 <= i < |out| ==> out[i] in all)
    && SortedBy(le, out)
    && (forall x :: x in all && x !in out ==> AfterAll(le, out, x))
  }

  // ----- a sample is determined by the set of ids ----------------------------------------------------------

  lemma {:induction false} Size(s: seq<nat>)
    requires NoRepeat(s)
    ensures |Ids(s)| == |s|
  {
    if s != [] {
      var t, x := s[..|s| - 1], s[|s| - 1];
      Size(t);
      assert Ids(s) == Ids(t) + {x};
      assert x !in t;
    }
  }

  lemma SubsetSize(b: set<nat>, a: set<nat>, x: nat)
    requires b <= a && x in a && x !in b
    ensures |b| < |a|
  {
    assert a == b + (a - b);
    assert x in a - b;
  }

  lemma OutsideMember(a: seq<nat>, b: seq<nat>, x: nat) returns (y: nat)
    requires NoRepeat(a) && NoRepeat(b) && |a| == |b| && x in a && x !in b
    ensures y in b && y !in a
  {
    Size(a);
    Size(b);
    if Ids(b) <= Ids(a) {
      SubsetSize(Ids(b), Ids(a), x);
    }
    y :| y in Ids(b) && y !in Ids(a);
  }

  lemma ListedBefore(a: seq<nat>, all: set<nat>, k: nat, score: Score, x: nat, y: nat)
    requires IsSample(a, all, k, score) && x in a && y in all && y !in a
    ensures NotAfter(k >= |all|, score, x, y)
  {
    var i :| 0 <= i < |a| && a[i] == x;
    assert AfterAll(Order(k >= |all|, score), a, y);
  }

  lemma ListedIn(a: seq<nat>, all: set<nat>, k: nat, score: Score, x: nat)
    requires IsSample(a, all, k, score) && x in a
    ensures x in all
  {
    var i :| 0 <= i < |a| && a[i] == x;
  }

  /** No member of one sample can be missing from another. */
  lemma SameListed(a: seq<nat>, b: seq<nat>, all: set<nat>, k: nat, score: Score, x: nat)
    requires IsSample(a, all, k, score) && IsSample(b, all, k, score) && x in a
    ensures x in b
  {
    if x !in b {
      var y := OutsideMember(a, b, x);
      hide IsSample;
      ListedIn(a, all, k, score, x);
      ListedIn(b, all, k, score, y);
      ListedBefore(a, all, k, score, x, y);
      ListedBefore(b, all, k, score, y, x);
    }
  }

  /** The sample depends only on the set of ids: order and repetition of the input do not matter. */
  lemma SampleUnique(a: seq<nat>, b: seq<nat>, all: set<nat>, k: nat, score: Score)
    requires IsSample(a, all, k, score) && IsSample(b, all, k, score)
    ensures a == b
  {
    var le := Order(k >= |all|, score);
    forall x
      ensures x in a <==> x in b
    {
      if x in a {
        SameListed(a, b, all, k, score, x);
      }
      if x in b {
        SameListed(b, a, all, k, score, x);
      }
    }
    Sorting.SameMembers(a, b);
    assert Strict(le, a);
    SortedUnique(le, a, b);
  }

  // ----- distinct ids with their first positions -----------------------------------------------------------

  function PairsOf(ids: seq<nat>): seq<Pair> {
    seq(|ids|, i requires 0 <= i < |ids| => Pair(ids[i], i))
  }

  predicate PairLe(a: Pair, b: Pair) {
    a.id < b.id || (a.id == b.id && a.pos <= b.pos)
  }

  lemma PairOrder()
    ensures TotalPreorder(PairLe)
  {
  }

  ghost predicate Increasing(us: seq<Pair>) {
    forall i, j :: 0 <= i < j < |us| ==> us[i].id < us[j].id
  }

  /** Some kept pair has the id, at the same position or an earlier one. */
  ghost predicate Kept(us: seq<Pair>, p: Pair) {
    exists i :: 0 <= i < |us| && us[i].id == p.id && us[i].pos <= p.pos
  }

  /** `dedup_by_key`: the first pair of each id. */
  method Dedup(ps: seq<Pair>) returns (us: seq<Pair>)
    requires SortedBy(PairLe, ps)
    ensures Increasing(us)
    ensures forall i :: 0 <= i < |us| ==> us[i] in ps
    ensures forall p :: p in ps ==> Kept(us, p)
  {
    us := [];
    assert Increasing(us);
    hide Increasing, Kept;
    for n := 0 to |ps|
      invariant Increasing(us) && (us == [] <==> n == 0)
      invariant forall i :: 0 <= i < |us| ==> us[i] in ps
      invariant forall i :: 0 <= i < n ==> Kept(us, ps[i])
      invariant n > 0 ==> us[|us| - 1].id == ps[n - 1].id
    {
      ghost var was := us;
      assert n > 0 ==> PairLe(ps[n - 1], ps[n]);
      if us == [] || us[|us| - 1].id != ps[n].id {
        IncreasingNext(us, ps[n]);
        us := us + [ps[n]];
        KeptMore(was, ps[n], ps, n);
      } else {
        KeptSame(us, ps, n);
      }
    }
  }

  lemma IncreasingNext(us: seq<Pair>, p: Pair)
    requires Increasing(us) && (us != [] ==> us[|us| - 1].id < p.id)
    ensures Increasing(us + [p])
  {
  }

  lemma KeptMore(us: seq<Pair>, p: Pair, ps: seq<Pair>, n: nat)
    requires n < |ps| && p == ps[n] && forall i :: 0 <= i < n ==> Kept(us, ps[i])
    ensures forall i :: 0 <= i < n + 1 ==> Kept(us + [p], ps[i])
  {
    var vs := us + [p];
    forall i | 0 <= i < n + 1
      ensures Kept(vs, ps[i])
    {
      if i < n {
        var a :| 0 <= a < |us| && us[a].id == ps[i].id && us[a].pos <= ps[i].pos;
        assert vs[a] == us[a];
      } else {
        assert vs[|us|] == p;
      }
    }
  }

  /** A repeat of the last kept id stands at a later position. */
  lemma KeptSame(us: seq<Pair>, ps: seq<Pair>, n: nat)
    requires 0 < n < |ps| && PairLe(ps[n - 1], ps[n]) && ps[n - 1].id == ps[n].id
    requires Kept(us, ps[n - 1])
    ensures Kept(us, ps[n])
  {
  }

  /** The distinct ids, ascending, each with its first position. */
  ghost predicate Firsts(us: seq<Pair>, ids: seq<nat>) {
    && Increasing(us)
    && (forall i :: 0 <= i < |us| ==> FirstAt(ids, us[i]))
    && (forall x :: x in ids ==> Listed(us, x))
  }

  ghost predicate FirstAt(ids: seq<nat>, p: Pair) {
    p.pos < |ids| && ids[p.pos] == p.id && forall q :: 0 <= q < p.pos ==> ids[q] != p.id
  }

  ghost predicate Listed(us: seq<Pair>, x: nat) {
    exists i :: 0 <= i < |us| && us[i].id == x
  }

  lemma PairIn(ids: seq<nat>, ps: seq<Pair>, q: nat)
    requires multiset(ps) == multiset(PairsOf(ids)) && q < |ids|
    ensures Pair(ids[q], q) in ps
  {
    assert PairsOf(ids)[q] in multiset(ps);
  }

  lemma PairFrom(ids: seq<nat>, ps: seq<Pair>, p: Pair)
    requires multiset(ps) == multiset(PairsOf(ids)) && p in ps
    ensures p.pos < |ids| && ids[p.pos] == p.id
  {
    assert p in multiset(PairsOf(ids));
  }

  /** With increasing ids, a pair kept for an id is the only one. */
  lemma KeptFirst(us: seq<Pair>, i: nat, p: Pair)
    requires Increasing(us) && i < |us| && Kept(us, p) && p.id == us[i].id
    ensures us[i].pos <= p.pos
  {
    var a :| 0 <= a < |us| && us[a].id == p.id && us[a].pos <= p.pos;
    assert a == i;
  }

  lemma DedupFirsts(ids: seq<nat>, ps: seq<Pair>, us: seq<Pair>)
    requires multiset(ps) == multiset(PairsOf(ids)) && Increasing(us)
    requires forall i :: 0 <= i < |us| ==> us[i] in ps
    requires forall p :: p in ps ==> Kept(us, p)
    ensures Firsts(us, ids)
  {
    forall x | x in ids
      ensures Listed(us, x)
    {
      var q :| 0 <= q < |ids| && ids[q] == x;
      PairIn(ids, ps, q);
      assert Kept(us, Pair(x, q));
    }
    hide Increasing, Kept, Listed, PairsOf;
    forall i | 0 <= i < |us|
      ensures FirstAt(ids, us[i])
    {
      PairFrom(ids, ps, us[i]);
      forall q | 0 <= q < us[i].pos
        ensures ids[q] != us[i].id
      {
        PairIn(ids, ps, q);
        if ids[q] == us[i].id {
          KeptFirst(us, i, Pair(ids[q], q));
        }
      }
    }
  }

  // ----- selection -------------------------------------------------------------------------------------------

  function PairBy(score: Score): (Pair, Pair) -> bool {
    (a: Pair, b: Pair) => NotAfter(false, score, a.id, b.id)
  }

  lemma ScoreOrder(score: Score)
    ensures TotalPreorder(PairBy(score))
  {
    var le := PairBy(score);
    assert forall a: Pair, b: Pair :: le(a, b) || le(b, a);
    assert forall a: Pair, b: Pair, c: Pair :: le(a, b) && le(b, c) ==> le(a, c);
  }

  /** `select_nth_unstable_by`: the element at `k` is in its sorted place, smaller ones before it. */
  method SelectNth<T(!new)>(le: (T, T) -> bool, s: seq<T>, k: nat) returns (r: seq<T>)
    requires TotalPreorder(le) && k < |s|
    ensures multiset(r) == multiset(s) && |r| == |s|
    ensures forall i :: 0 <= i < k ==> le(r[i], r[k])
    ensures forall j :: k < j < |r| ==> le(r[k], r[j])
  {
    r := SortUnstable(le, s);
  }

  function IdsOf(us: seq<Pair>): (r: seq<nat>)
    ensures |r| == |us| && forall i :: 0 <= i < |us| ==> r[i] == us[i].id
  {
    seq(|us|, i requires 0 <= i < |us| => us[i].id)
  }

  function PositionsOf(us: seq<Pair>): (r: seq<nat>)
    ensures |r| == |us| && forall i :: 0 <= i < |us| ==> r[i] == us[i].pos
  {
    seq(|us|, i requires 0 <= i < |us| => us[i].pos)
  }

  lemma FirstsSize(us: seq<Pair>, ids: seq<nat>)
    requires Firsts(us, ids)
    ensures |Ids(ids)| == |us| && forall x :: x in Ids(ids) <==> x in IdsOf(us)
  {
    forall x
      ensures x in Ids(ids) <==> x in IdsOf(us)
    {
      if x in ids {
        assert Listed(us, x);
        var i :| 0 <= i < |us| && us[i].id == x;
        assert IdsOf(us)[i] == x;
      }
      if x in IdsOf(us) {
        var i :| 0 <= i < |us| && IdsOf(us)[i] == x;
        assert FirstAt(ids, us[i]);
      }
    }
    assert NoRepeat(IdsOf(us));
    Size(IdsOf(us));
    assert Ids(ids) == Ids(IdsOf(us));
  }

  /** When k covers all ids, they come out in id order. */
  lemma AllSampled(us: seq<Pair>, ids: seq<nat>, k: nat, score: Score)
    requires Firsts(us, ids) && k >= |us|
    ensures IsSample(IdsOf(us), Ids(ids), k, score)
  {
    FirstsSize(us, ids);
    var out := IdsOf(us);
    assert forall i :: 0 <= i < |out| ==> out[i] in out;
  }

  lemma ChosenMembers(us: seq<Pair>, split: seq<Pair>, chosen: seq<Pair>, k: nat)
    requires multiset(split) == multiset(us) && k <= |split| && multiset(chosen) == multiset(split[..k])
    requires Increasing(us)
    ensures NoRepeat(chosen) && forall i :: 0 <= i < |chosen| ==> chosen[i] in us
  {
    assert NoRepeat(us);
    PermutationNoRepeat(split, us);
    PermutationNoRepeat(chosen, split[..k]);
    forall i | 0 <= i < |chosen|
      ensures chosen[i] in us
    {
      assert chosen[i] in multiset(split[..k]);
      assert chosen[i] in split;
      assert chosen[i] in multiset(us);
    }
  }

  lemma DistinctIds(us: seq<Pair>, chosen: seq<Pair>)
    requires Increasing(us) && NoRepeat(chosen) && forall i :: 0 <= i < |chosen| ==> chosen[i] in us
    ensures NoRepeat(IdsOf(chosen))
  {
    forall i, j | 0 <= i < j < |chosen|
      ensures chosen[i].id != chosen[j].id
    {
      var a :| 0 <= a < |us| && us[a] == chosen[i];
      var b :| 0 <= b < |us| && us[b] == chosen[j];
    }
  }

  lemma ChosenHas(split: seq<Pair>, chosen: seq<Pair>, k: nat, j: nat)
    requires j < k <= |split| && multiset(chosen) == multiset(split[..k])
    ensures split[j].id in IdsOf(chosen)
  {
    assert split[..k][j] in multiset(chosen);
    var c :| 0 <= c < |chosen| && chosen[c] == split[j];
    assert IdsOf(chosen)[c] == split[j].id;
  }

  /** An id that was not chosen is not before any chosen one: the pivot stands between them. */
  lemma RestAfter(us: seq<Pair>, split: seq<Pair>, chosen: seq<Pair>, k: nat, score: Score, x: nat)
    requires multiset(split) == multiset(us) && k < |split| && multiset(chosen) == multiset(split[..k])
    requires forall i :: 0 <= i < k ==> PairBy(score)(split[i], split[k])
    requires forall j :: k < j < |split| ==> PairBy(score)(split[k], split[j])
    requires x in IdsOf(us) && x !in IdsOf(chosen)
    ensures AfterAll(Order(false, score), IdsOf(chosen), x)
  {
    var a :| 0 <= a < |us| && IdsOf(us)[a] == x;
    assert us[a] in multiset(split);
    var j :| 0 <= j < |split| && split[j] == us[a];
    if j < k {
      ChosenHas(split, chosen, k, j);
    }
    forall i | 0 <= i < |chosen|
      ensures Order(false, score)(IdsOf(chosen)[i], x)
    {
      assert chosen[i] in multiset(split[..k]);
      var c :| 0 <= c < k && split[c] == chosen[i];
      assert PairBy(score)(split[c], split[k]);
      assert j > k ==> PairBy(score)(split[k], split[j]);
    }
  }

  lemma ChosenSampled(us: seq<Pair>, ids: seq<nat>, split: seq<Pair>, chosen: seq<Pair>, k: nat, score: Score)
    requires Firsts(us, ids) && k < |us|
    requires multiset(split) == multiset(us) && |split| == |us| && multiset(chosen) == multiset(split[..k])
    requires forall i :: 0 <= i < k ==> PairBy(score)(split[i], split[k])
    requires forall j :: k < j < |split| ==> PairBy(score)(split[k], split[j])
    requires SortedBy(PairBy(score), chosen)
    ensures IsSample(IdsOf(chosen), Ids(ids), k, score)
    ensures forall i :: 0 <= i < |chosen| ==> chosen[i] in us
  {
    FirstsSize(us, ids);
    Sorting.SameLength(chosen, split[..k]);
    ChosenMembers(us, split, chosen, k);
    DistinctIds(us, chosen);
    var out, le := IdsOf(chosen), Order(false, score);
    forall i | 0 <= i < |out|
      ensures out[i] in Ids(ids)
    {
      assert chosen[i] in us;
      var a :| 0 <= a < |us| && us[a] == chosen[i];
      assert IdsOf(us)[a] == out[i];
    }
    forall i, j | 0 <= i < j < |out|
      ensures le(out[i], out[j])
    {
      assert PairBy(score)(chosen[i], chosen[j]);
    }
    forall x | x in Ids(ids) && x !in out
      ensures AfterAll(le, out, x)
    {
      RestAfter(us, split, chosen, k, score, x);
    }
  }

  // ----- the sampler -------------------------------------------------------------------------------------------

  ghost predicate FirstPosition(ids: seq<nat>, p: nat) {
    p < |ids| && forall q :: 0 <= q < p ==> ids[q] != ids[p]
  }

  /** The ids at the given positions. */
  function At(ids: seq<nat>, ps: seq<nat>): (r: seq<nat>)
    requires forall i :: 0 <= i < |ps| ==> ps[i] < |ids|
    ensures |r| == |ps|
  {
    seq(|ps|, i requires 0 <= i < |ps| => ids[ps[i]])
  }

  /** Chosen pairs are first positions holding the chosen ids. */
  lemma Positions(us: seq<Pair>, ids: seq<nat>, chosen: seq<Pair>)
    requires Firsts(us, ids) && forall i :: 0 <= i < |chosen| ==> chosen[i] in us
    ensures var ps := PositionsOf(chosen);
            && (forall i :: 0 <= i < |ps| ==> ps[i] < |ids| && FirstPosition(ids, ps[i]))
            && At(ids, ps) == IdsOf(chosen)
  {
    var ps := PositionsOf(chosen);
    forall i | 0 <= i < |ps|
      ensures FirstPosition(ids, ps[i]) && ids[ps[i]] == chosen[i].id
    {
      var a :| 0 <= a < |us| && us[a] == chosen[i];
      assert FirstAt(ids, us[a]);
    }
  }

  /**
   `sample_positions_bottomk`: first positions of the sampled ids. With `SampleUnique`, any two
   inputs with the same set of ids yield the same list of ids.
   */
  method SamplePositions(ids: seq<nat>, k: nat, score: Score) returns (ps: seq<nat>)
    ensures forall i :: 0 <= i < |ps| ==> ps[i] < |ids| && FirstPosition(ids, ps[i])
    ensures IsSample(At(ids, ps), Ids(ids), k, score)
  {
    if k == 0 || ids == [] {
      ps := [];
      Nothing(ids, k, score);
      return;
    }
    hide *;
    PairOrder();
    var pairs := SortUnstable(PairLe, PairsOf(ids));
    var us := Dedup(pairs);
    DedupFirsts(ids, pairs, us);
    if k >= |us| {
      AllSampled(us, ids, k, score);
      Positions(us, ids, us);
      ps := PositionsOf(us);
      return;
    }
    ScoreOrder(score);
    var split := SelectNth(PairBy(score), us, k);
    var chosen := SortUnstable(PairBy(score), split[..k]);
    ChosenSampled(us, ids, split, chosen, k, score);
    Positions(us, ids, chosen);
    ps := PositionsOf(chosen);
  }

  lemma Nothing(ids: seq<nat>, k: nat, score: Score)
    requires k == 0 || ids == []
    ensures IsSample(At(ids, []), Ids(ids), k, score)
  {
    assert ids == [] ==> Ids(ids) == {};
    assert At(ids, []) == [];
  }

  /** A sample of fewer ids than there are lists the lowest scores in order, ids breaking ties; otherwise all ids in order. */
  lemma SampleScores(out: seq<nat>, all: set<nat>, k: nat, score: Score)
    requires IsSample(out, all, k, score)
    ensures k < |all| ==>
            (&& |out| == k
             && (forall i, j :: 0 <= i < j < |out| ==> score(out[i]) < score(out[j]) || (score(out[i]) == score(out[j]) && out[i] < out[j]))
             && (forall i, x :: 0 <= i < |out| && x in all && x !in out ==> score(out[i]) < score(x) || (score(out[i]) == score(x) && out[i] < x)))
    ensures k >= |all| ==>
            (&& (forall x :: x in out <==> x in all)
             && (forall i, j :: 0 <= i < j < |out| ==> out[i] < out[j]))
  {
    var le := Order(k >= |all|, score);
    assert forall i, j :: 0 <= i < j < |out| ==> le(out[i], out[j]) && out[i] != out[j];
    if k >= |all| {
      Size(out);
      AllListed(Ids(out), all);
    } else {
      assert forall i, x :: 0 <= i < |out| && x in all && x !in out ==> le(out[i], x);
    }
  }

  lemma AllListed(part: set<nat>, all: set<nat>)
    requires part <= all && |part| == |all|
    ensures part == all
  {
    assert |all - part| == 0;
  }

  /** `sample_set_bottomk` */
  method SampleSet(ids: seq<nat>, k: nat, score: Score) returns (out: seq<nat>)
    ensures IsSample(out, Ids(ids), k, score)
  {
    var ps := SamplePositions(ids, k, score);
    out := At(ids, ps);
  }
}
