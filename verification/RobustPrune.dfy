/**
 `robust_prune_candidates`: several rounds of occlusion with a growing factor, then optional
 saturation. Distances between points are squared L2 whatever the metric says, because
 `Vertex::compare` ignores its metric argument; the metric only decides whether the call fails.
 */
module RobustPrune {
  import opened Basics
  import opened TopK
  import opened AdsSpec
  import opened Sorting

  datatype Neighbor = Neighbor(id: nat, dist: real)

  datatype Metric = L2Metric | Cosine | InnerProduct

  datatype Pruned = Done(edges: seq<nat>) | Failed

  predicate NeighborLe(a: Neighbor, b: Neighbor) {
    a.dist < b.dist || (a.dist == b.dist && a.id <= b.id)
  }

  lemma NeighborOrder()
    ensures TotalPreorder(NeighborLe)
  {
  }

  /** `f > a` for an occlusion factor; `Infinite` stands for `f32::MAX`. */
  predicate Exceeds(f: Bound, a: real) {
    f.Infinite? || f.value > a
  }

  /** The setting of one call: the points, the sorted and truncated pool, and alpha. */
  datatype Scene = Scene(data: seq<Vec>, dim: nat, pool: seq<Neighbor>, alpha: real) {
    ghost predicate Valid() {
      && IsMatrix(data, dim)
      && (forall i, j :: 0 <= i < j < |pool| ==> pool[i].dist <= pool[j].dist)
    }

    predicate Known(i: nat)
      requires i < |pool|
    {
      pool[i].id < |data|
    }

    /** The distance between two pool positions; no call that succeeds needs one of an unknown id. */
    ghost function Gap(j: nat, i: nat): (r: real)
      requires Valid() && i < |pool| && j < |pool|
      ensures r >= 0.0
      ensures pool[i].id == pool[j].id ==> r == 0.0
    {
      if !Known(i) || !Known(j) then 0.0
      else
        PartialGrows(data[pool[j].id], data[pool[i].id], 0, dim);
        if pool[i].id == pool[j].id then
          PartialSelf(data[pool[j].id], dim);
          L2(data[pool[j].id], data[pool[i].id])
        else L2(data[pool[j].id], data[pool[i].id])
    }
  }

  lemma {:induction false} PartialSelf(x: Vec, n: nat)
    requires n <= |x|
    ensures Partial(x, x, n) == 0.0
  {
    if n > 0 {
      PartialSelf(x, n - 1);
    }
  }

  // ----- one chosen neighbour occludes the later ones -------------------------------------------

  /** The factor that choosing position i leaves at position j. */
  function Occlude(f: Bound, djk: real, dist: real, alpha: real): Bound {
    if Exceeds(f, alpha) then f
    else if djk == 0.0 then Infinite
    else if dist / djk > f.value then Finite(dist / djk) else f
  }

  /** The inner loop after choosing position i. */
  ghost predicate Occluded(s: Scene, f: seq<Bound>, g: seq<Bound>, i: nat, upto: nat)
    requires s.Valid() && i < |s.pool| == |f| && upto <= |f|
  {
    && |g| == |f|
    && (forall j :: 0 <= j < |f| ==>
          g[j] == if i < j < upto then Occlude(f[j], s.Gap(j, i), s.pool[j].dist, s.alpha) else f[j])
  }

  /** `get_distance` between two positions succeeds and the metric is supported. */
  predicate Readable(metric: Metric, data: seq<Vec>, pool: seq<Neighbor>, i: nat, j: nat)
    requires i < |pool| && j < |pool|
  {
    metric != InnerProduct && pool[i].id < |data| && pool[j].id < |data|
  }

  method OccludeLater(data: seq<Vec>, ghost s: Scene, pool: seq<Neighbor>, alpha: real, metric: Metric,
                      f: seq<Bound>, i: nat) returns (ok: bool, g: seq<Bound>)
    requires s.Valid() && s.data == data && s.pool == pool && s.alpha == alpha
    requires i < |pool| == |f|
    ensures ok ==> Occluded(s, f, g, i, |f|)
    ensures ok <==> forall j :: i < j < |f| ==> Exceeds(f[j], alpha) || Readable(metric, data, pool, i, j)
  {
    g, ok := f, true;
    for j := i + 1 to |pool|
      invariant Occluded(s, f, g, i, j)
      invariant forall m :: i < m < j ==> Exceeds(f[m], alpha) || Readable(metric, data, pool, i, m)
    {
      if !Exceeds(g[j], alpha) {
        if !Readable(metric, data, pool, i, j) {
          return false, g;
        }
        var djk := L2(data[pool[j].id], data[pool[i].id]);
        assert djk == s.Gap(j, i);
        g := g[j := Occlude(g[j], djk, pool[j].dist, alpha)];
      }
    }
  }

  // ----- what holds whenever a position has been chosen ------------------------------------------

  /** i's choice explains the factor at j. */
  ghost predicate Explains(s: Scene, i: nat, j: nat, f: Bound)
    requires s.Valid() && i < |s.pool| && j < |s.pool|
  {
    && i < j
    && if f.Infinite? then s.Gap(j, i) == 0.0
       else s.Gap(j, i) > 0.0 && f.value == s.pool[j].dist / s.Gap(j, i)
  }

  /** j's factor is untouched, or j was chosen, or an earlier chosen position explains it. */
  ghost predicate Witnessed(s: Scene, f: seq<Bound>, chosen: seq<nat>)
    requires s.Valid() && |f| == |s.pool|
  {
    forall j :: 0 <= j < |f| ==> HasWitness(s, f, chosen, j)
  }

  ghost predicate HasWitness(s: Scene, f: seq<Bound>, chosen: seq<nat>, j: nat)
    requires s.Valid() && j < |f| == |s.pool|
  {
    || f[j] == Finite(0.0)
    || j in chosen
    || exists i :: i in chosen && i < |f| && Explains(s, i, j, f[j])
  }

  /** Every chosen position has been taken into account by every later one that can still be chosen. */
  ghost predicate Applied(s: Scene, f: seq<Bound>, chosen: seq<nat>)
    requires s.Valid() && |f| == |s.pool|
  {
    forall i, j :: i in chosen && i < j < |f| ==> Accounts(s, f, i, j)
  }

  ghost predicate Accounts(s: Scene, f: seq<Bound>, i: nat, j: nat)
    requires s.Valid() && i < j < |f| == |s.pool|
  {
    || Exceeds(f[j], s.alpha)
    || (s.Gap(j, i) > 0.0 && s.pool[j].dist / s.Gap(j, i) <= f[j].value)
  }

  ghost predicate ChosenOk(s: Scene, f: seq<Bound>, chosen: seq<nat>)
    requires s.Valid() && |f| == |s.pool|
  {
    && (forall c :: c in chosen ==> c < |f| && f[c] == Infinite)
    && (forall a, b :: 0 <= a < b < |chosen| ==> chosen[a] != chosen[b])
  }

  /** Nobody chosen is occluded by a nearer one chosen before. */
  ghost predicate PairsOk(s: Scene, chosen: seq<nat>)
    requires s.Valid()
  {
    forall a, b :: 0 <= a < b < |chosen| && chosen[a] < chosen[b] < |s.pool| ==> Allows(s, chosen[a], chosen[b])
  }

  /** At factor alpha position i does not occlude position j. */
  ghost predicate Allows(s: Scene, i: nat, j: nat)
    requires s.Valid() && i < |s.pool| && j < |s.pool|
  {
    s.pool[j].dist <= s.alpha * s.Gap(j, i)
  }

  /** Chosen positions are the first ones of their id. */
  ghost predicate Firsts(s: Scene, chosen: seq<nat>)
    requires s.Valid()
  {
    forall c, j :: c in chosen && c < |s.pool| && 0 <= j < c ==> s.pool[j].id != s.pool[c].id
  }

  ghost predicate Inv(s: Scene, f: seq<Bound>, chosen: seq<nat>) {
    && s.Valid() && |f| == |s.pool|
    && Witnessed(s, f, chosen) && Applied(s, f, chosen) && ChosenOk(s, f, chosen)
    && PairsOk(s, chosen) && Firsts(s, chosen)
  }

  lemma Quotient(x: real, d: real, a: real)
    requires d > 0.0
    ensures x / d <= a <==> x <= a * d
  {
    assert x == x / d * d;
  }

  /** A repeated id is never chosen: its first position would have been chosen or is as occluded. */
  lemma FirstOnly(s: Scene, f: seq<Bound>, chosen: seq<nat>, cur: real, i: nat, j: nat)
    requires Inv(s, f, chosen) && 1.0 <= cur <= s.alpha
    requires j < i < |f| && !Exceeds(f[i], cur) && Exceeds(f[j], cur)
    ensures s.pool[j].id != s.pool[i].id
  {
    assert HasWitness(s, f, chosen, j);
    hide Witnessed, PairsOk, Firsts, ChosenOk;
    if j in chosen {
      assert Accounts(s, f, j, i);
    } else if s.pool[j].id == s.pool[i].id {
      var c :| c in chosen && c < |f| && Explains(s, c, j, f[j]);
      assert Accounts(s, f, c, i);
      assert s.Gap(i, c) == s.Gap(j, c);
      if f[j].Finite? {
        QuotientGrows(s.pool[j].dist, s.pool[i].dist, s.Gap(j, c));
      }
    }
  }

  lemma QuotientGrows(x: real, y: real, d: real)
    requires d > 0.0 && x <= y
    ensures x / d <= y / d
  {
    Quotient(x, d, y / d);
  }

  lemma ChooseApplied(s: Scene, f: seq<Bound>, g: seq<Bound>, chosen: seq<nat>, i: nat)
    requires s.Valid() && i < |f| == |s.pool| && Applied(s, f, chosen)
    requires Occluded(s, f[i := Infinite], g, i, |f|)
    ensures Applied(s, g, chosen + [i])
  {
    forall c, j | c in chosen + [i] && c < j < |g|
      ensures Accounts(s, g, c, j)
    {
      var f' := f[i := Infinite];
      if c in chosen {
        assert Accounts(s, f, c, j);
      }
      assert g[j] == if i < j then Occlude(f'[j], s.Gap(j, i), s.pool[j].dist, s.alpha) else f'[j];
    }
  }

  lemma ChooseWitnessed(s: Scene, f: seq<Bound>, g: seq<Bound>, chosen: seq<nat>, i: nat)
    requires s.Valid() && i < |f| == |s.pool| && Witnessed(s, f, chosen)
    requires Occluded(s, f[i := Infinite], g, i, |f|)
    ensures Witnessed(s, g, chosen + [i])
  {
    forall j | 0 <= j < |g|
      ensures HasWitness(s, g, chosen + [i], j)
    {
      assert HasWitness(s, f, chosen, j);
      assert i in chosen + [i];
      if j != i && g[j] == f[j] && f[j] != Finite(0.0) && j !in chosen {
        var c :| c in chosen && c < |f| && Explains(s, c, j, f[j]);
        assert c in chosen + [i] && Explains(s, c, j, g[j]);
      } else if j != i && g[j] != f[j] {
        assert Explains(s, i, j, g[j]);
      }
    }
  }

  lemma ChoosePairs(s: Scene, f: seq<Bound>, chosen: seq<nat>, cur: real, i: nat)
    requires s.Valid() && |f| == |s.pool| && Applied(s, f, chosen) && PairsOk(s, chosen)
    requires cur <= s.alpha && i < |f| && !Exceeds(f[i], cur)
    ensures PairsOk(s, chosen + [i])
  {
    forall c | c in chosen && c < i
      ensures Allows(s, c, i)
    {
      AccountedAllows(s, f, chosen, cur, c, i);
    }
    hide Applied, Allows;
    var next := chosen + [i];
    forall a, b | 0 <= a < b < |next| && next[a] < next[b] < |s.pool|
      ensures Allows(s, next[a], next[b])
    {
      assert next[a] == chosen[a] && chosen[a] in chosen;
    }
  }

  lemma AccountedAllows(s: Scene, f: seq<Bound>, chosen: seq<nat>, cur: real, c: nat, i: nat)
    requires s.Valid() && |f| == |s.pool| && Applied(s, f, chosen)
    requires cur <= s.alpha && c in chosen && c < i < |f| && !Exceeds(f[i], cur)
    ensures Allows(s, c, i)
  {
    assert Accounts(s, f, c, i);
    Quotient(s.pool[i].dist, s.Gap(i, c), s.alpha);
  }

  /** Choosing an unoccluded position keeps the invariant. */
  lemma ChooseKeeps(s: Scene, f: seq<Bound>, g: seq<Bound>, chosen: seq<nat>, cur: real, i: nat)
    requires Inv(s, f, chosen) && 1.0 <= cur <= s.alpha
    requires i < |f| && !Exceeds(f[i], cur)
    requires forall j :: 0 <= j < i ==> Exceeds(f[j], cur)
    requires Occluded(s, f[i := Infinite], g, i, |f|)
    ensures Inv(s, g, chosen + [i])
    ensures forall j :: 0 <= j <= i ==> Exceeds(g[j], cur)
    ensures i !in chosen
  {
    ChooseApplied(s, f, g, chosen, i);
    ChooseWitnessed(s, f, g, chosen, i);
    ChoosePairs(s, f, chosen, cur, i);
    assert i !in chosen;
    forall j | 0 <= j < i
      ensures s.pool[j].id != s.pool[i].id
    {
      FirstOnly(s, f, chosen, cur, i, j);
    }
    hide Witnessed, Applied, PairsOk;
    assert ChosenOk(s, g, chosen + [i]);
    assert Firsts(s, chosen + [i]);
  }

  // ----- rounds -------------------------------------------------------------------------------------

  ghost predicate Within(chosen: seq<nat>, n: nat) {
    forall a :: 0 <= a < |chosen| ==> chosen[a] < n
  }

  /** The ids of the chosen positions, without the point itself. */
  ghost function Edges(pool: seq<Neighbor>, location: nat, chosen: seq<nat>): (r: seq<nat>)
    requires Within(chosen, |pool|)
  {
    if chosen == [] then []
    else
      var front, last := chosen[..|chosen| - 1], pool[chosen[|chosen| - 1]].id;
      Edges(pool, location, front) + if last == location then [] else [last]
  }

  lemma EdgesSnoc(pool: seq<Neighbor>, location: nat, chosen: seq<nat>, i: nat)
    requires i < |pool| && Within(chosen, |pool|)
    ensures Edges(pool, location, chosen + [i]) ==
            Edges(pool, location, chosen) + if pool[i].id == location then [] else [pool[i].id]
  {
    assert (chosen + [i])[..|chosen|] == chosen;
  }

  /** State between steps: the invariant, the edges so far, and the degree limit. */
  ghost predicate Progress(s: Scene, f: seq<Bound>, chosen: seq<nat>, location: nat, result: seq<nat>, maxDegree: nat) {
    && Inv(s, f, chosen)
    && Within(chosen, |s.pool|)
    && result == Edges(s.pool, location, chosen)
    && |result| <= maxDegree
  }

  lemma ChooseProgress(s: Scene, f: seq<Bound>, g: seq<Bound>, chosen: seq<nat>, location: nat, result: seq<nat>,
                       maxDegree: nat, cur: real, i: nat)
    requires Progress(s, f, chosen, location, result, maxDegree) && |result| < maxDegree
    requires 1.0 <= cur <= s.alpha && i < |f| && !Exceeds(f[i], cur)
    requires forall j :: 0 <= j < i ==> Exceeds(f[j], cur)
    requires Occluded(s, f[i := Infinite], g, i, |f|)
    ensures Progress(s, g, chosen + [i], location,
                     if s.pool[i].id == location then result else result + [s.pool[i].id], maxDegree)
    ensures forall j :: 0 <= j <= i ==> Exceeds(g[j], cur)
  {
    ChooseKeeps(s, f, g, chosen, cur, i);
    EdgesSnoc(s.pool, location, chosen, i);
    hide Inv, Occluded, Edges;
  }

  // ----- which positions are chosen, and in which round ---------------------------------------------

  /** The factor of round e: 1, 1.2, 1.44, ... */
  ghost function Pow(e: nat): (f: real)
    ensures 1.0 <= f
  {
    if e == 0 then 1.0 else Pow(e - 1) * 1.2
  }

  lemma PowNext(e: nat)
    ensures Pow(0) == 1.0 && Pow(e + 1) == Pow(e) * 1.2
  {
  }

  lemma {:induction false} PowGrows(d: nat, e: nat)
    requires d < e
    ensures Pow(d) * 1.2 <= Pow(e)
  {
    hide Pow;
    PowNext(e - 1);
    if d < e - 1 {
      PowGrows(d, e - 1);
    }
  }

  /** How many were chosen by the end of round e, when `rounds` never falls. */
  ghost function EndOf(rounds: seq<nat>, e: nat): (n: nat)
    ensures n <= |rounds|
  {
    if rounds == [] then 0
    else if rounds[|rounds| - 1] <= e then |rounds|
    else EndOf(rounds[..|rounds| - 1], e)
  }

  lemma {:induction false} EndOfAt(rounds: seq<nat>, a: nat, e: nat)
    requires a < |rounds| && e < rounds[a] && (forall b :: 0 <= b < a ==> rounds[b] <= e)
    requires forall b :: a <= b < |rounds| ==> rounds[a] <= rounds[b]
    ensures EndOf(rounds, e) == a
  {
    if a < |rounds| - 1 {
      EndOfAt(rounds[..|rounds| - 1], a, e);
    } else if a > 0 {
      assert rounds[..a][a - 1] <= e;
    }
  }

  lemma EndOfMore(rounds: seq<nat>, r: nat, e: nat)
    requires e < r
    ensures EndOf(rounds + [r], e) == EndOf(rounds, e)
  {
    assert (rounds + [r])[..|rounds|] == rounds;
  }

  /** At factor f position i does not occlude position j. */
  ghost predicate Open(s: Scene, i: nat, j: nat, f: real)
    requires s.Valid() && i < |s.pool| && j < |s.pool|
  {
    s.Gap(j, i) > 0.0 && s.pool[j].dist <= f * s.Gap(j, i)
  }

  /** All positions but the chosen ones are covered at factor f. */
  ghost predicate RestCovered(s: Scene, chosen: seq<nat>, f: real)
    requires s.Valid()
  {
    forall j :: 0 <= j < |s.pool| && j !in chosen ==> Covered(s, chosen, f, j)
  }

  /**
   Choice a of a run: made with room in the result, in a round not before the last choice's, of a
   position that nothing chosen before it occludes at that round's factor, while every nearer position
   is chosen or covered at it; and every earlier round had covered all it left.
   */
  ghost predicate Choice(s: Scene, location: nat, maxDegree: nat, chosen: seq<nat>, rounds: seq<nat>, a: nat)
    requires s.Valid() && Within(chosen, |s.pool|) && a < |chosen| == |rounds|
  {
    && Pow(rounds[a]) <= s.alpha && chosen[a] !in chosen[..a]
    && (forall b :: 0 <= b < a ==> rounds[b] <= rounds[a])
    && Within(chosen[..a], |s.pool|) && |Edges(s.pool, location, chosen[..a])| < maxDegree
    && (forall b :: 0 <= b < a && chosen[b] < chosen[a] ==> Open(s, chosen[b], chosen[a], Pow(rounds[a])))
    && (forall j :: 0 <= j < chosen[a] && j !in chosen[..a] ==> Covered(s, chosen[..a], Pow(rounds[a]), j))
    && (forall e :: 0 <= e < rounds[a] ==> RestCovered(s, chosen[..EndOf(rounds, e)], Pow(e)))
  }

  ghost predicate Selected(s: Scene, location: nat, maxDegree: nat, chosen: seq<nat>, rounds: seq<nat>) {
    && s.Valid() && Within(chosen, |s.pool|) && |rounds| == |chosen|
    && (forall a :: 0 <= a < |chosen| ==> Choice(s, location, maxDegree, chosen, rounds, a))
  }

  /** The state in round e: the choices so far, and all earlier rounds finished. */
  ghost predicate InRound(s: Scene, location: nat, maxDegree: nat, chosen: seq<nat>, rounds: seq<nat>, e: nat) {
    && Selected(s, location, maxDegree, chosen, rounds)
    && (forall a :: 0 <= a < |rounds| ==> rounds[a] <= e)
    && (forall d :: 0 <= d < e ==> RestCovered(s, chosen[..EndOf(rounds, d)], Pow(d)))
  }

  lemma ChoiceStays(s: Scene, location: nat, maxDegree: nat, chosen: seq<nat>, rounds: seq<nat>, i: nat, e: nat, a: nat)
    requires Selected(s, location, maxDegree, chosen, rounds) && i < |s.pool| && a < |chosen| && rounds[a] <= e
    requires Within(chosen + [i], |s.pool|)
    ensures Choice(s, location, maxDegree, chosen + [i], rounds + [e], a)
  {
    var c, r := chosen + [i], rounds + [e];
    assert Choice(s, location, maxDegree, chosen, rounds, a);
    assert c[..a] == chosen[..a] && c[a] == chosen[a] && r[a] == rounds[a];
    forall d | 0 <= d < r[a]
      ensures RestCovered(s, c[..EndOf(r, d)], Pow(d))
    {
      EndOfMore(rounds, e, d);
      assert c[..EndOf(rounds, d)] == chosen[..EndOf(rounds, d)];
    }
    hide Open, Covered, RestCovered, Edges, Pow, EndOf;
    assert forall b :: 0 <= b < a ==> c[b] == chosen[b] && r[b] == rounds[b];
  }

  /** Choosing position i in round e is a choice. */
  lemma ChoiceMade(s: Scene, f: seq<Bound>, location: nat, maxDegree: nat, chosen: seq<nat>, rounds: seq<nat>, e: nat, i: nat)
    requires Inv(s, f, chosen) && InRound(s, location, maxDegree, chosen, rounds, e) && Pow(e) <= s.alpha
    requires i < |f| && !Exceeds(f[i], Pow(e)) && (forall j :: 0 <= j < i ==> Exceeds(f[j], Pow(e)))
    requires |Edges(s.pool, location, chosen)| < maxDegree && Within(chosen + [i], |s.pool|)
    ensures Choice(s, location, maxDegree, chosen + [i], rounds + [e], |chosen|)
  {
    var c, r, n := chosen + [i], rounds + [e], |chosen|;
    assert c[..n] == chosen && c[n] == i && r[n] == e;
    NewInRound(s, location, maxDegree, chosen, rounds, e, i);
    NewUnchosen(s, f, chosen, Pow(e), i);
    hide *;
    forall b | 0 <= b < n && c[b] < i
      ensures Open(s, c[b], i, Pow(e))
    {
      NewOpen(s, f, chosen, Pow(e), c[b], i);
    }
    forall j | 0 <= j < i && j !in chosen
      ensures Covered(s, chosen, Pow(e), j)
    {
      ExceedsCovered(s, f, chosen, Pow(e), j);
    }
    IsChoice(s, location, maxDegree, c, r, n);
  }

  lemma NewUnchosen(s: Scene, f: seq<Bound>, chosen: seq<nat>, cur: real, i: nat)
    requires Inv(s, f, chosen) && i < |f| && !Exceeds(f[i], cur)
    ensures s.Valid() && |f| == |s.pool| && i !in chosen
  {
    hide Witnessed, Applied, PairsOk, Firsts;
  }

  lemma NewOpen(s: Scene, f: seq<Bound>, chosen: seq<nat>, cur: real, c: nat, i: nat)
    requires Inv(s, f, chosen) && c in chosen && c < i < |f| && cur <= s.alpha && !Exceeds(f[i], cur)
    ensures s.Valid() && |f| == |s.pool| && Open(s, c, i, cur)
  {
    hide Witnessed, ChosenOk, PairsOk, Firsts;
    assert Accounts(s, f, c, i);
    Quotient(s.pool[i].dist, s.Gap(i, c), cur);
  }

  /** What the rounds before have covered does not change. */
  lemma NewInRound(s: Scene, location: nat, maxDegree: nat, chosen: seq<nat>, rounds: seq<nat>, e: nat, i: nat)
    requires InRound(s, location, maxDegree, chosen, rounds, e)
    ensures s.Valid() && |rounds| == |chosen| && (forall b :: 0 <= b < |rounds| ==> rounds[b] <= e) && Within(chosen, |s.pool|)
    ensures forall d :: 0 <= d < e ==> RestCovered(s, (chosen + [i])[..EndOf(rounds + [e], d)], Pow(d))
  {
    hide Choice, RestCovered, Pow, EndOf;
    forall d | 0 <= d < e
      ensures RestCovered(s, (chosen + [i])[..EndOf(rounds + [e], d)], Pow(d))
    {
      EndOfMore(rounds, e, d);
      assert (chosen + [i])[..EndOf(rounds, d)] == chosen[..EndOf(rounds, d)];
    }
  }

  lemma IsChoice(s: Scene, location: nat, maxDegree: nat, chosen: seq<nat>, rounds: seq<nat>, a: nat)
    requires s.Valid() && Within(chosen, |s.pool|) && a < |chosen| == |rounds|
    requires Pow(rounds[a]) <= s.alpha && chosen[a] !in chosen[..a] && (forall b :: 0 <= b < a ==> rounds[b] <= rounds[a])
    requires Within(chosen[..a], |s.pool|) && |Edges(s.pool, location, chosen[..a])| < maxDegree
    requires forall b :: 0 <= b < a && chosen[b] < chosen[a] ==> Open(s, chosen[b], chosen[a], Pow(rounds[a]))
    requires forall j :: 0 <= j < chosen[a] && j !in chosen[..a] ==> Covered(s, chosen[..a], Pow(rounds[a]), j)
    requires forall e :: 0 <= e < rounds[a] ==> RestCovered(s, chosen[..EndOf(rounds, e)], Pow(e))
    ensures Choice(s, location, maxDegree, chosen, rounds, a)
  {
  }

  /** A factor above the round's is explained by a chosen position that covers. */
  lemma ExceedsCovered(s: Scene, f: seq<Bound>, chosen: seq<nat>, last: real, j: nat)
    requires Inv(s, f, chosen) && 1.0 <= last && j < |f| && j !in chosen && Exceeds(f[j], last)
    ensures Covered(s, chosen, last, j)
  {
    assert HasWitness(s, f, chosen, j);
    hide Witnessed, Applied, PairsOk, Firsts, ChosenOk;
    var i :| i in chosen && i < |f| && Explains(s, i, j, f[j]);
    if f[j].Finite? {
      Quotient(s.pool[j].dist, s.Gap(j, i), last);
    }
  }

  lemma ChooseInRound(s: Scene, f: seq<Bound>, location: nat, maxDegree: nat, chosen: seq<nat>, rounds: seq<nat>, e: nat, i: nat)
    requires Inv(s, f, chosen) && InRound(s, location, maxDegree, chosen, rounds, e) && Pow(e) <= s.alpha
    requires i < |f| && !Exceeds(f[i], Pow(e)) && (forall j :: 0 <= j < i ==> Exceeds(f[j], Pow(e)))
    requires |Edges(s.pool, location, chosen)| < maxDegree
    ensures InRound(s, location, maxDegree, chosen + [i], rounds + [e], e)
  {
    var c, r := chosen + [i], rounds + [e];
    assert Within(c, |s.pool|);
    ChoiceMade(s, f, location, maxDegree, chosen, rounds, e, i);
    forall a | 0 <= a < |c|
      ensures Choice(s, location, maxDegree, c, r, a)
    {
      if a < |chosen| {
        ChoiceStays(s, location, maxDegree, chosen, rounds, i, e, a);
      }
    }
    forall d | 0 <= d < e
      ensures RestCovered(s, c[..EndOf(r, d)], Pow(d))
    {
      EndOfMore(rounds, e, d);
      assert c[..EndOf(rounds, d)] == chosen[..EndOf(rounds, d)];
    }
    hide Inv, Choice, RestCovered, Edges, Pow, EndOf;
  }

  /** A round that ends with room left has covered the rest. */
  lemma RoundEnds(s: Scene, f: seq<Bound>, location: nat, maxDegree: nat, chosen: seq<nat>, rounds: seq<nat>, e: nat)
    requires Inv(s, f, chosen) && InRound(s, location, maxDegree, chosen, rounds, e)
    requires forall j :: 0 <= j < |f| ==> Exceeds(f[j], Pow(e))
    ensures RestCovered(s, chosen, Pow(e)) && InRound(s, location, maxDegree, chosen, rounds, e + 1)
  {
    RoundCovers(s, f, chosen, Pow(e));
    assert EndOf(rounds, e) == |rounds|;
    assert chosen[..|rounds|] == chosen;
    hide Inv, Selected, Covered, Pow, EndOf;
  }

  lemma RunStarts(s: Scene, location: nat, maxDegree: nat)
    requires s.Valid()
    ensures InRound(s, location, maxDegree, [], [], 0)
  {
  }

  /** One pass over the pool at the factor `cur`; stops early when the degree is reached. */
  method Round(data: seq<Vec>, ghost s: Scene, pool: seq<Neighbor>, alpha: real, metric: Metric, location: nat,
               maxDegree: nat, cur: real, f0: seq<Bound>, result0: seq<nat>, ghost chosen0: seq<nat>,
               ghost rounds0: seq<nat>, ghost e: nat)
    returns (ok: bool, f: seq<Bound>, result: seq<nat>, ghost chosen: seq<nat>, ghost rounds: seq<nat>)
    requires s.Valid() && s.data == data && s.pool == pool && s.alpha == alpha
    requires 1.0 <= cur <= alpha && Progress(s, f0, chosen0, location, result0, maxDegree)
    requires cur == Pow(e) && InRound(s, location, maxDegree, chosen0, rounds0, e)
    ensures ok ==> InRound(s, location, maxDegree, chosen, rounds, e)
    ensures !Unreadable(metric, data, pool) || |pool| <= 1 ==> ok
    ensures Unreadable(metric, data, pool) && 2 <= |pool| && |result0| < maxDegree && Untouched(f0) ==> !ok
    ensures ok ==> Progress(s, f, chosen, location, result, maxDegree)
    ensures ok && |result| < maxDegree ==> forall j :: 0 <= j < |f| ==> Exceeds(f[j], cur)
    ensures ok ==> |result0| <= |result|
  {
    hide Progress, InRound, Pow;
    ok, f, result, chosen, rounds := true, f0, result0, chosen0, rounds0;
    ProgressLen(s, f, chosen, location, result, maxDegree);
    for i := 0 to |pool|
      invariant Progress(s, f, chosen, location, result, maxDegree) && |f| == |pool|
      invariant InRound(s, location, maxDegree, chosen, rounds, e)
      invariant forall j :: 0 <= j < i ==> Exceeds(f[j], cur)
      invariant |result0| <= |result|
      invariant Unreadable(metric, data, pool) && 2 <= |pool| && |result0| < maxDegree && Untouched(f0) ==>
                  i == 0 && f == f0 && result == result0
    {
      if |result| >= maxDegree {
        break;
      }
      if !Exceeds(f[i], cur) {
        var g;
        ok, g := OccludeLater(data, s, pool, alpha, metric, f[i := Infinite], i);
        if !ok {
          return;
        }
        if i == 0 && 2 <= |pool| && Untouched(f) {
          AllTouched(metric, data, pool, f[i := Infinite], alpha);
        }
        ProgressInv(s, f, chosen, location, result, maxDegree);
        ChooseInRound(s, f, location, maxDegree, chosen, rounds, e, i);
        ChooseProgress(s, f, g, chosen, location, result, maxDegree, cur, i);
        if pool[i].id != location {
          result := result + [pool[i].id];
        }
        f, chosen, rounds := g, chosen + [i], rounds + [e];
      }
    }
  }

  /** The metric is unsupported or some id of the pool is unknown. */
  ghost predicate Unreadable(metric: Metric, data: seq<Vec>, pool: seq<Neighbor>) {
    metric == InnerProduct || exists i :: 0 <= i < |pool| && pool[i].id >= |data|
  }

  /** The first choice of the first round reads the distance of every other position. */
  lemma AllTouched(metric: Metric, data: seq<Vec>, pool: seq<Neighbor>, f: seq<Bound>, alpha: real)
    requires 2 <= |pool| == |f| && 1.0 <= alpha && forall j :: 0 < j < |f| ==> f[j] == Finite(0.0)
    requires forall j :: 0 < j < |f| ==> Exceeds(f[j], alpha) || Readable(metric, data, pool, 0, j)
    ensures !Unreadable(metric, data, pool)
  {
    assert Readable(metric, data, pool, 0, 1);
    forall i | 0 <= i < |pool|
      ensures pool[i].id < |data|
    {
      assert i > 0 ==> Readable(metric, data, pool, 0, i);
    }
  }

  ghost predicate Untouched(f: seq<Bound>) {
    forall j :: 0 <= j < |f| ==> f[j] == Finite(0.0)
  }

  lemma ProgressInv(s: Scene, f: seq<Bound>, chosen: seq<nat>, location: nat, result: seq<nat>, maxDegree: nat)
    requires Progress(s, f, chosen, location, result, maxDegree)
    ensures Inv(s, f, chosen) && Within(chosen, |s.pool|) && result == Edges(s.pool, location, chosen)
  {
  }

  lemma ProgressLen(s: Scene, f: seq<Bound>, chosen: seq<nat>, location: nat, result: seq<nat>, maxDegree: nat)
    requires Progress(s, f, chosen, location, result, maxDegree)
    ensures s.Valid() && |f| == |s.pool| && |result| <= maxDegree
  {
  }

  // ----- the whole call ---------------------------------------------------------------------------

  lemma {:induction false} EdgesFromChosen(s: Scene, location: nat, chosen: seq<nat>)
    requires s.Valid() && Within(chosen, |s.pool|)
    ensures forall e :: e in Edges(s.pool, location, chosen) ==>
              e != location && exists a :: 0 <= a < |chosen| && s.pool[chosen[a]].id == e
  {
    if chosen != [] {
      var front := chosen[..|chosen| - 1];
      EdgesFromChosen(s, location, front);
      forall e | e in Edges(s.pool, location, chosen)
        ensures e != location && exists a :: 0 <= a < |chosen| && s.pool[chosen[a]].id == e
      {
        if e in Edges(s.pool, location, front) {
          var a :| 0 <= a < |front| && s.pool[front[a]].id == e;
          assert chosen[a] == front[a];
        } else {
          assert s.pool[chosen[|chosen| - 1]].id == e;
        }
      }
    }
  }

  ghost predicate DistinctIds(s: Scene, chosen: seq<nat>)
    requires Within(chosen, |s.pool|)
  {
    forall a, b :: 0 <= a < b < |chosen| ==> s.pool[chosen[a]].id != s.pool[chosen[b]].id
  }

  lemma {:induction false} EdgesDistinct(s: Scene, location: nat, chosen: seq<nat>)
    requires s.Valid() && Within(chosen, |s.pool|) && DistinctIds(s, chosen)
    ensures NoRepeat(Edges(s.pool, location, chosen))
  {
    if chosen != [] {
      var front := chosen[..|chosen| - 1];
      assert forall a :: 0 <= a < |front| ==> front[a] == chosen[a];
      EdgesDistinct(s, location, front);
      EdgesFromChosen(s, location, front);
      assert s.pool[chosen[|front|]].id !in Edges(s.pool, location, front);
    }
  }

  lemma InvDistinctIds(s: Scene, f: seq<Bound>, chosen: seq<nat>)
    requires Inv(s, f, chosen) && Within(chosen, |s.pool|)
    ensures DistinctIds(s, chosen)
  {
    hide Witnessed, Applied, PairsOk;
    forall a, b | 0 <= a < b < |chosen|
      ensures s.pool[chosen[a]].id != s.pool[chosen[b]].id
    {
      var x, y := chosen[a], chosen[b];
      assert x in chosen && y in chosen && x != y;
    }
  }

  /** Some chosen position before j coincides with it or is closer to it than j's distance allows. */
  ghost predicate Covered(s: Scene, chosen: seq<nat>, last: real, j: nat)
    requires s.Valid() && j < |s.pool|
  {
    exists i :: i in chosen && i < j && (s.Gap(j, i) == 0.0 || s.pool[j].dist > last * s.Gap(j, i))
  }

  /** A finished round at factor `last` covers everything it did not choose. */
  lemma RoundCovers(s: Scene, f: seq<Bound>, chosen: seq<nat>, last: real)
    requires Inv(s, f, chosen) && 1.0 <= last && forall j :: 0 <= j < |f| ==> Exceeds(f[j], last)
    ensures RestCovered(s, chosen, last)
  {
    forall j | 0 <= j < |s.pool| && j !in chosen
      ensures Covered(s, chosen, last, j)
    {
      ExceedsCovered(s, f, chosen, last, j);
    }
  }

  /** Each appended id stands at the first pool position whose id is neither the point's nor listed before it. */
  ghost predicate FillsUp(pool: seq<Neighbor>, location: nat, result0: seq<nat>, result: seq<nat>, ps: seq<nat>) {
    && |result| == |result0| + |ps|
    && (forall k :: 0 <= k < |ps| ==> FillAt(pool, location, result[..|result0| + k], result[|result0| + k], ps[k]))
  }

  ghost predicate FillAt(pool: seq<Neighbor>, location: nat, before: seq<nat>, id: nat, p: nat) {
    && p < |pool| && pool[p].id == id
    && (forall j :: 0 <= j < p ==> pool[j].id == location || pool[j].id in before)
  }

  lemma FillMore(pool: seq<Neighbor>, location: nat, result0: seq<nat>, result: seq<nat>, ps: seq<nat>, id: nat, p: nat)
    requires FillsUp(pool, location, result0, result, ps) && FillAt(pool, location, result, id, p)
    ensures FillsUp(pool, location, result0, result + [id], ps + [p])
  {
    hide FillAt;
    var r, qs := result + [id], ps + [p];
    forall k | 0 <= k < |qs|
      ensures FillAt(pool, location, r[..|result0| + k], r[|result0| + k], qs[k])
    {
      if k < |ps| {
        assert r[..|result0| + k] == result[..|result0| + k];
      } else {
        assert r[..|result0| + k] == result;
      }
    }
  }

  /** The saturation pass: pool ids in order, each once, while there is room. */
  method Saturate(pool: seq<Neighbor>, location: nat, maxDegree: nat, result0: seq<nat>)
    returns (result: seq<nat>, ghost ps: seq<nat>)
    requires |result0| <= maxDegree && NoRepeat(result0) && location !in result0
    ensures result0 <= result && |result| <= maxDegree && NoRepeat(result) && location !in result
    ensures FillsUp(pool, location, result0, result, ps)
    ensures forall e :: e in result ==> e in result0 || exists i :: 0 <= i < |pool| && pool[i].id == e
    ensures |result| < maxDegree ==> forall i :: 0 <= i < |pool| && pool[i].id != location ==> pool[i].id in result
  {
    result, ps := result0, [];
    for i := 0 to |pool|
      invariant result0 <= result && |result| <= maxDegree && NoRepeat(result) && location !in result
      invariant FillsUp(pool, location, result0, result, ps)
      invariant forall e :: e in result ==> e in result0 || exists j :: 0 <= j < |pool| && pool[j].id == e
      invariant forall j :: 0 <= j < i && pool[j].id != location ==> pool[j].id in result
    {
      hide FillsUp;
      if |result| >= maxDegree {
        break;
      }
      if pool[i].id != location && pool[i].id !in result {
        FillMore(pool, location, result0, result, ps, pool[i].id, i);
        result, ps := result + [pool[i].id], ps + [i];
      }
    }
  }

  /** The run has no choice left to make: the result is full, or the last round below alpha covered the rest. */
  ghost predicate Finished(s: Scene, location: nat, maxDegree: nat, chosen: seq<nat>) {
    && s.Valid() && Within(chosen, |s.pool|)
    && (|| |Edges(s.pool, location, chosen)| >= maxDegree
        || s.alpha < 1.0
        || exists e: nat :: EndsAt(s, chosen, e))
  }

  ghost predicate EndsAt(s: Scene, chosen: seq<nat>, e: nat)
    requires s.Valid()
  {
    Pow(e) <= s.alpha < Pow(e + 1) && RestCovered(s, chosen, Pow(e))
  }

  /** The rounds at 1, 1.2, 1.44, ... up to alpha. */
  method Rounds(data: seq<Vec>, ghost s: Scene, pool: seq<Neighbor>, alpha: real, metric: Metric, location: nat,
                maxDegree: nat)
    returns (ok: bool, result: seq<nat>, ghost chosen: seq<nat>, ghost rounds: seq<nat>)
    requires s.Valid() && s.data == data && s.pool == pool && s.alpha == alpha
    ensures ok <==> !(Unreadable(metric, data, pool) && 1.0 <= alpha && 0 < maxDegree && 2 <= |pool|)
    ensures ok ==> Within(chosen, |pool|) && result == Edges(pool, location, chosen) && |result| <= maxDegree
    ensures ok ==> PairsOk(s, chosen) && DistinctIds(s, chosen)
    ensures ok ==> Selected(s, location, maxDegree, chosen, rounds) && Finished(s, location, maxDegree, chosen)
  {
    var f := seq(|pool|, _ => Finite(0.0));
    var cur := 1.0;
    ghost var e := 0;
    ok, result, chosen, rounds := true, [], [], [];
    RunStarts(s, location, maxDegree);
    ProgressStarts(s, f, location, maxDegree);
    PowNext(0);
    hide *;
    while cur <= alpha && |result| < maxDegree
      invariant cur == Pow(e)
      invariant Progress(s, f, chosen, location, result, maxDegree)
      invariant Selected(s, location, maxDegree, chosen, rounds)
      invariant |result| < maxDegree ==> InRound(s, location, maxDegree, chosen, rounds, e)
      invariant e == 0 ==> result == [] && Untouched(f)
      invariant e > 0 ==> Pow(e - 1) <= alpha && (|result| < maxDegree ==> RestCovered(s, chosen, Pow(e - 1)))
      invariant e > 0 ==> !(Unreadable(metric, data, pool) && 1.0 <= alpha && 0 < maxDegree && 2 <= |pool|)
      decreases (alpha - cur) * 5.0
    {
      ok, f, result, chosen, rounds := Round(data, s, pool, alpha, metric, location, maxDegree, cur, f, result, chosen, rounds, e);
      if !ok {
        return;
      }
      InRoundSelected(s, location, maxDegree, chosen, rounds, e);
      if |result| < maxDegree {
        ProgressInv(s, f, chosen, location, result, maxDegree);
        RoundEnds(s, f, location, maxDegree, chosen, rounds, e);
      }
      PowNext(e);
      cur := cur * 1.2;
      e := e + 1;
    }
    ProgressInv(s, f, chosen, location, result, maxDegree);
    ProgressLen(s, f, chosen, location, result, maxDegree);
    InvPairs(s, f, chosen);
    InvDistinctIds(s, f, chosen);
    if e > 0 {
      PowNext(e - 1);
    }
    RoundsFinish(s, location, maxDegree, chosen, e);
  }

  lemma InvPairs(s: Scene, f: seq<Bound>, chosen: seq<nat>)
    requires Inv(s, f, chosen)
    ensures s.Valid() && PairsOk(s, chosen)
  {
  }

  lemma RoundsFinish(s: Scene, location: nat, maxDegree: nat, chosen: seq<nat>, e: nat)
    requires s.Valid() && Within(chosen, |s.pool|)
    requires s.alpha < Pow(e) || |Edges(s.pool, location, chosen)| >= maxDegree
    requires e > 0 && |Edges(s.pool, location, chosen)| < maxDegree ==> Pow(e - 1) <= s.alpha && RestCovered(s, chosen, Pow(e - 1))
    ensures Finished(s, location, maxDegree, chosen)
  {
    hide RestCovered, Edges;
    if e > 0 && |Edges(s.pool, location, chosen)| < maxDegree {
      assert EndsAt(s, chosen, e - 1);
    }
  }

  lemma ProgressStarts(s: Scene, f: seq<Bound>, location: nat, maxDegree: nat)
    requires s.Valid() && |f| == |s.pool| && forall j :: 0 <= j < |f| ==> f[j] == Finite(0.0)
    ensures Progress(s, f, [], location, [], maxDegree) && Untouched(f)
    ensures Selected(s, location, maxDegree, [], [])
  {
  }

  lemma InRoundSelected(s: Scene, location: nat, maxDegree: nat, chosen: seq<nat>, rounds: seq<nat>, e: nat)
    requires InRound(s, location, maxDegree, chosen, rounds, e)
    ensures Selected(s, location, maxDegree, chosen, rounds)
  {
  }

  // ----- these rules determine the run ---------------------------------------------------------------

  lemma OpenNotCovered(s: Scene, chosen: seq<nat>, f: real, g: real, j: nat)
    requires s.Valid() && j < |s.pool| && Within(chosen, |s.pool|) && f <= g && Covered(s, chosen, g, j)
    ensures exists b :: 0 <= b < |chosen| && chosen[b] < j && !Open(s, chosen[b], j, f)
  {
    var i :| i in chosen && i < j && (s.Gap(j, i) == 0.0 || s.pool[j].dist > g * s.Gap(j, i));
    var b :| 0 <= b < |chosen| && chosen[b] == i;
    assert f * s.Gap(j, i) <= g * s.Gap(j, i);
  }

  /** No choice is of a position that was covered before it at its factor or a larger one. */
  lemma ChoiceUncovered(s: Scene, location: nat, maxDegree: nat, chosen: seq<nat>, rounds: seq<nat>, a: nat, g: real)
    requires Selected(s, location, maxDegree, chosen, rounds) && a < |chosen| && Pow(rounds[a]) <= g
    ensures !Covered(s, chosen[..a], g, chosen[a])
  {
    assert Choice(s, location, maxDegree, chosen, rounds, a);
    hide Choice, Covered;
    if Covered(s, chosen[..a], g, chosen[a]) {
      ChoiceOpen(s, location, maxDegree, chosen, rounds, a);
      OpenNotCovered(s, chosen[..a], Pow(rounds[a]), g, chosen[a]);
    }
  }

  lemma ChoiceOpen(s: Scene, location: nat, maxDegree: nat, chosen: seq<nat>, rounds: seq<nat>, a: nat)
    requires s.Valid() && Within(chosen, |s.pool|) && a < |chosen| == |rounds|
    requires Choice(s, location, maxDegree, chosen, rounds, a)
    ensures Within(chosen[..a], |s.pool|)
    ensures forall b :: 0 <= b < a && chosen[..a][b] < chosen[a] ==> Open(s, chosen[..a][b], chosen[a], Pow(rounds[a]))
  {
    hide Open, Covered, RestCovered;
  }

  lemma RoundsRise(s: Scene, location: nat, maxDegree: nat, chosen: seq<nat>, rounds: seq<nat>)
    requires Selected(s, location, maxDegree, chosen, rounds)
    ensures forall b, a :: 0 <= b <= a < |rounds| ==> rounds[b] <= rounds[a]
  {
    hide Open, Covered, RestCovered, Edges, Pow;
    forall b, a | 0 <= b <= a < |rounds|
      ensures rounds[b] <= rounds[a]
    {
      assert Choice(s, location, maxDegree, chosen, rounds, a);
    }
  }

  /** After the same choices, a run does not choose in a later round what another chooses now. */
  lemma NotLater(s: Scene, location: nat, maxDegree: nat, c: seq<nat>, r: seq<nat>, c': seq<nat>, r': seq<nat>, a: nat)
    requires Selected(s, location, maxDegree, c, r) && Selected(s, location, maxDegree, c', r')
    requires a < |c| && a < |c'| && c[..a] == c'[..a] && r[..a] == r'[..a]
    ensures r'[a] <= r[a]
  {
    if r[a] < r'[a] {
      RoundsRise(s, location, maxDegree, c, r);
      RoundsRise(s, location, maxDegree, c', r');
      assert forall b :: 0 <= b < a ==> r'[b] == r[b];
      EndOfAt(r', a, r[a]);
      assert Choice(s, location, maxDegree, c', r', a);
      assert RestCovered(s, c'[..a], Pow(r[a]));
      assert Choice(s, location, maxDegree, c, r, a);
      hide Choice;
      ChoiceUncovered(s, location, maxDegree, c, r, a, Pow(r[a]));
    }
  }

  /** Nor a farther position in the same round. */
  lemma NotFarther(s: Scene, location: nat, maxDegree: nat, c: seq<nat>, r: seq<nat>, c': seq<nat>, r': seq<nat>, a: nat)
    requires Selected(s, location, maxDegree, c, r) && Selected(s, location, maxDegree, c', r')
    requires a < |c| && a < |c'| && c[..a] == c'[..a] && r[a] == r'[a]
    ensures c'[a] <= c[a]
  {
    assert Choice(s, location, maxDegree, c', r', a);
    assert Choice(s, location, maxDegree, c, r, a);
    hide Open, Covered, RestCovered, Edges, Pow;
    if c[a] < c'[a] {
      assert Covered(s, c'[..a], Pow(r'[a]), c[a]);
      ChoiceUncovered(s, location, maxDegree, c, r, a, Pow(r[a]));
    }
  }

  lemma {:induction false} SamePrefix(s: Scene, location: nat, maxDegree: nat, c: seq<nat>, r: seq<nat>, c': seq<nat>, r': seq<nat>, n: nat)
    requires Selected(s, location, maxDegree, c, r) && Selected(s, location, maxDegree, c', r')
    requires n <= |c| && n <= |c'|
    ensures c[..n] == c'[..n] && r[..n] == r'[..n]
  {
    hide Choice;
    if n > 0 {
      var a := n - 1;
      SamePrefix(s, location, maxDegree, c, r, c', r', a);
      NotLater(s, location, maxDegree, c, r, c', r', a);
      NotLater(s, location, maxDegree, c', r', c, r, a);
      NotFarther(s, location, maxDegree, c, r, c', r', a);
      NotFarther(s, location, maxDegree, c', r', c, r, a);
      assert c[..n] == c[..a] + [c[a]] && c'[..n] == c'[..a] + [c'[a]];
      assert r[..n] == r[..a] + [r[a]] && r'[..n] == r'[..a] + [r'[a]];
    }
  }

  /** A finished run has no further choice. */
  lemma NoFurther(s: Scene, location: nat, maxDegree: nat, c: seq<nat>, c': seq<nat>, r': seq<nat>)
    requires Finished(s, location, maxDegree, c) && Selected(s, location, maxDegree, c', r')
    requires |c| <= |c'| && c'[..|c|] == c
    ensures |c'| == |c|
  {
    var a := |c|;
    if a < |c'| {
      ChoiceRoom(s, location, maxDegree, c', r', a);
      if e: nat :| EndsAt(s, c, e) {
        assert Pow(e) <= s.alpha < Pow(e + 1) && RestCovered(s, c, Pow(e));
        NotPast(s.alpha, e, r'[a]);
        ChoiceUncovered(s, location, maxDegree, c', r', a, Pow(e));
        hide Covered, Selected;
      }
    }
  }

  /** A round whose factor is within alpha is not after the last one that is. */
  lemma NotPast(alpha: real, e: nat, d: nat)
    requires Pow(d) <= alpha < Pow(e + 1)
    ensures Pow(d) <= Pow(e)
  {
    hide Pow;
    if e + 1 < d {
      PowGrows(e + 1, d);
    } else if d < e {
      PowGrows(d, e);
    }
  }

  lemma ChoiceRoom(s: Scene, location: nat, maxDegree: nat, chosen: seq<nat>, rounds: seq<nat>, a: nat)
    requires Selected(s, location, maxDegree, chosen, rounds) && a < |chosen|
    ensures Pow(rounds[a]) <= s.alpha && chosen[a] !in chosen[..a] && Within(chosen[..a], |s.pool|)
    ensures |Edges(s.pool, location, chosen[..a])| < maxDegree
  {
    assert Choice(s, location, maxDegree, chosen, rounds, a);
    hide Covered, Open, RestCovered, Edges, Pow;
  }

  /** The selection is determined: two finished runs on the same pool choose the same positions in the same rounds. */
  lemma SelectionDetermined(s: Scene, location: nat, maxDegree: nat, c: seq<nat>, r: seq<nat>, c': seq<nat>, r': seq<nat>)
    requires Selected(s, location, maxDegree, c, r) && Selected(s, location, maxDegree, c', r')
    requires Finished(s, location, maxDegree, c) && Finished(s, location, maxDegree, c')
    ensures c == c' && r == r'
  {
    hide Choice, Finished;
    var n := MinNat(|c|, |c'|);
    SamePrefix(s, location, maxDegree, c, r, c', r', n);
    assert c[..|c|] == c && c'[..|c'|] == c' && r[..|r|] == r && r'[..|r'|] == r';
    if |c| <= |c'| {
      NoFurther(s, location, maxDegree, c, c', r');
    } else {
      NoFurther(s, location, maxDegree, c', c, r);
    }
  }

  /**
   Soundness and coverage of the pruned row. `s` is the sorted, truncated pool, `chosen` the
   positions taken and `rounds` the rounds they were taken in, at factors 1, 1.2, 1.44, ...
   */
  method RobustPruneCandidates(data: seq<Vec>, dim: nat, location: nat, pool0: seq<Neighbor>, maxDegree: nat,
                               maxCandidates: nat, alpha: real, saturate: bool, metric: Metric)
    returns (r: Pruned, ghost s: Scene, ghost chosen: seq<nat>, ghost rounds: seq<nat>)
    requires IsMatrix(data, dim)
    ensures s.Valid() && s.data == data && |s.pool| == MinNat(|pool0|, maxCandidates) && s.alpha == alpha
    ensures exists all :: multiset(all) == multiset(pool0) && SortedBy(NeighborLe, all) && s.pool <= all
    ensures forall i, j :: 0 <= i < j < |s.pool| ==>
              s.pool[i].dist < s.pool[j].dist || (s.pool[i].dist == s.pool[j].dist && s.pool[i].id <= s.pool[j].id)
    ensures r.Failed? <==> Unreadable(metric, data, s.pool) && 1.0 <= alpha && 0 < maxDegree && 2 <= |s.pool|
    ensures r.Done? ==> NoRepeat(r.edges) && location !in r.edges && |r.edges| <= maxDegree
    ensures r.Done? ==> forall e :: e in r.edges ==> exists i :: 0 <= i < |s.pool| && s.pool[i].id == e
    ensures r.Done? ==> Within(chosen, |s.pool|) && PairsOk(s, chosen) && Edges(s.pool, location, chosen) <= r.edges
    ensures r.Done? && !(saturate && 1.0 < alpha) ==> r.edges == Edges(s.pool, location, chosen)
    ensures r.Done? ==> Selected(s, location, maxDegree, chosen, rounds) && Finished(s, location, maxDegree, chosen)
    ensures r.Done? && 1.0 <= alpha && |Edges(s.pool, location, chosen)| < maxDegree ==> exists e: nat ::
              EndsAt(s, chosen, e)
    ensures r.Done? && saturate && 1.0 < alpha ==> exists ps ::
              FillsUp(s.pool, location, Edges(s.pool, location, chosen), r.edges, ps)
    ensures r.Done? && saturate && 1.0 < alpha && |r.edges| < maxDegree ==>
              forall i :: 0 <= i < |s.pool| && s.pool[i].id != location ==> s.pool[i].id in r.edges
  {
    NeighborOrder();
    var all := SortUnstable(NeighborLe, pool0);
    var pool := all[..MinNat(|all|, maxCandidates)];
    s := Scene(data, dim, pool, alpha);
    PoolValid(all);
    var ok, result;
    ok, result, chosen, rounds := Rounds(data, s, pool, alpha, metric, location, maxDegree);
    if !ok {
      return Failed, s, chosen, rounds;
    }
    EdgesDistinct(s, location, chosen);
    EdgesFromChosen(s, location, chosen);
    if saturate && alpha > 1.0 {
      ghost var ps;
      result, ps := Saturate(pool, location, maxDegree, result);
    }
    r := Done(result);
  }

  lemma PoolValid(all: seq<Neighbor>)
    requires SortedBy(NeighborLe, all)
    ensures forall i, j :: 0 <= i < j < |all| ==> all[i].dist <= all[j].dist
  {
    forall i, j | 0 <= i < j < |all|
      ensures all[i].dist <= all[j].dist
    {
      assert NeighborLe(all[i], all[j]);
    }
  }
}
