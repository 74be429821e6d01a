/**
 The HashPrune reservoir of one point: at most `lMax` candidate edges, sorted by hash, with
 bf16-truncated distances. A distance is the bit pattern of a non-negative finite `f32`; for
 those, order of values is order of bit patterns (section 3.4 of IEEE 754-2019), so distances
 are natural numbers.
 */
module HashPrune {
  import opened Sorting

  /** `BFloat16::from_f32` keeps the upper 16 bits. */
  function Narrow(bits: nat): (b: nat)
    ensures b * 65536 <= bits < (b + 1) * 65536
  {
    bits / 65536
  }

  /** `BFloat16::to_f32` */
  function Widen(b: nat): nat {
    b * 65536
  }

  /** Truncation never enlarges and keeps the order. */
  lemma NarrowBelow(x: nat, y: nat)
    ensures Widen(Narrow(x)) <= x < Widen(Narrow(x)) + 65536
    ensures x <= y ==> Widen(Narrow(x)) <= Widen(Narrow(y))
  {
  }

  datatype Slot = Slot(target: nat, hash: nat, dist: nat)

  function Far(s: Slot): (d: nat)
    ensures d == 65536 * s.dist
  {
    Widen(s.dist)
  }

  // ----- reading the slots --------------------------------------------------------------------

  ghost predicate HashSorted(s: seq<Slot>) {
    forall i, j :: 0 <= i < j < |s| ==> s[i].hash <= s[j].hash
  }

  ghost predicate DistinctTargets(s: seq<Slot>) {
    forall i, j :: 0 <= i < j < |s| ==> s[i].target != s[j].target
  }

  predicate HasTarget(s: seq<Slot>, t: nat) {
    exists i :: 0 <= i < |s| && s[i].target == t
  }

  /** The position of a target; |s| when it is absent. */
  function PositionOf(s: seq<Slot>, t: nat): (p: nat)
    ensures p <= |s|
    ensures p < |s| ==> s[p].target == t
    ensures p == |s| <==> !HasTarget(s, t)
  {
    if s == [] then 0
    else if s[0].target == t then 0
    else
      var p := PositionOf(s[1..], t);
      assert forall i :: 0 <= i < |s| - 1 ==> s[1..][i] == s[i + 1];
      assert HasTarget(s, t) ==> HasTarget(s[1..], t) by {
        if HasTarget(s, t) {
          var i :| 0 <= i < |s| && s[i].target == t;
          assert s[1..][i - 1].target == t;
        }
      }
      1 + p
  }

  /** How many leading slots have a hash below h; `partition_point` finds it by bisection. */
  function LowerBound(s: seq<Slot>, h: nat): (p: nat)
    ensures p <= |s|
    ensures forall i :: 0 <= i < p ==> s[i].hash < h
    ensures p < |s| ==> s[p].hash >= h
  {
    if s == [] || s[0].hash >= h then 0 else 1 + LowerBound(s[1..], h)
  }

  function UpperBound(s: seq<Slot>, h: nat): (p: nat)
    ensures p <= |s|
    ensures forall i :: 0 <= i < p ==> s[i].hash <= h
    ensures p < |s| ==> s[p].hash > h
  {
    LowerBound(s, h + 1)
  }

  /** The first farthest slot of lo..hi. */
  function Farthest(s: seq<Slot>, lo: nat, hi: nat): (p: nat)
    requires lo < hi <= |s|
    ensures IsFarthest(s, lo, hi, p)
    decreases hi
  {
    if hi == lo + 1 then lo
    else
      var p := Farthest(s, lo, hi - 1);
      if Far(s[hi - 1]) > Far(s[p]) then hi - 1 else p
  }

  ghost predicate IsFarthest(s: seq<Slot>, lo: nat, hi: nat, p: nat)
    requires hi <= |s|
  {
    && lo <= p < hi
    && (forall i :: lo <= i < hi ==> Far(s[i]) <= Far(s[p]))
    && (forall i :: lo <= i < p ==> Far(s[i]) < Far(s[p]))
  }

  lemma FarthestUnique(s: seq<Slot>, lo: nat, hi: nat, p: nat)
    requires lo < hi <= |s| && IsFarthest(s, lo, hi, p)
    ensures p == Farthest(s, lo, hi)
  {
  }

  // ----- one offer ------------------------------------------------------------------------------

  function InsertSorted(s: seq<Slot>, x: Slot): (r: seq<Slot>)
    ensures |r| == |s| + 1
  {
    var p := UpperBound(s, x.hash);
    s[..p] + [x] + s[p..]
  }

  function Replace(s: seq<Slot>, p: nat, x: Slot): (r: seq<Slot>)
    requires p < |s|
    ensures |r| == |s|
  {
    InsertSorted(s[..p] + s[p + 1..], x)
  }

  /** `HashPruneReservoir::insert`, without the cached farthest slot. */
  function Offer(s: seq<Slot>, lMax: nat, t: nat, h: nat, d: nat): (r: seq<Slot>)
    requires 0 < lMax
  {
    var x, at := Slot(t, h, Narrow(d)), PositionOf(s, t);
    if at < |s| then
      if d < Far(s[at]) then Replace(s, at, x) else s
    else if |s| < lMax then InsertSorted(s, x)
    else
      var lo := LowerBound(s, h);
      if lo < |s| && s[lo].hash == h then
        var p := Farthest(s, lo, SameHashEnd(s, lo, h));
        if d < Far(s[p]) then Replace(s, p, x) else s
      else
        var p := Farthest(s, 0, |s|);
        if d < Far(s[p]) then Replace(s, p, x) else s
  }

  /** The end of the run of equal hashes that starts at lo. */
  function SameHashEnd(s: seq<Slot>, lo: nat, h: nat): (hi: nat)
    requires lo < |s| && s[lo].hash == h && (forall i :: 0 <= i < lo ==> s[i].hash < h)
    ensures lo < hi <= |s| && hi == UpperBound(s, h)
  {
    UpperBound(s, h)
  }

  // ----- what an offer does, for any distances ---------------------------------------------------------

  /** A target that is present is replaced exactly by a nearer offer. */
  lemma OfferAgain(s: seq<Slot>, lMax: nat, y: Slot, h: nat, d: nat)
    requires 0 < lMax && Ordered(s, lMax) && y in s
    ensures var r := Offer(s, lMax, y.target, h, d);
            if d < 65536 * y.dist
            then |r| == |s| && Ordered(r, lMax) && forall z :: z in r <==> z == Slot(y.target, h, d / 65536) || (z in s && z != y)
            else r == s
  {
    var at := PositionOf(s, y.target);
    var i :| 0 <= i < |s| && s[i] == y;
    OrderedParts(s, lMax);
    assert s[at] == y;
    NarrowIs(d);
    hide Ordered, Replace, InsertSorted, LowerBound, Farthest, PositionOf;
    ReplaceKeeps(s, lMax, at, Slot(y.target, h, d / 65536));
  }

  lemma NarrowIs(d: nat)
    ensures Narrow(d) == d / 65536
  {
  }

  /** The slot that a new target has to beat: the first farthest of its hash, or of all if the hash is absent. */
  ghost predicate FirstFarthest(s: seq<Slot>, h: nat, p: nat) {
    && p < |s|
    && if exists y :: y in s && y.hash == h
       then s[p].hash == h && (forall i :: 0 <= i < |s| && s[i].hash == h ==> s[i].dist <= s[p].dist && (i < p ==> s[i].dist < s[p].dist))
       else forall i :: 0 <= i < |s| ==> s[i].dist <= s[p].dist && (i < p ==> s[i].dist < s[p].dist)
  }

  /** A new target is added while there is room, and then takes the place of the slot it beats, if it does. */
  lemma OfferNew(s: seq<Slot>, lMax: nat, t: nat, h: nat, d: nat) returns (p: nat)
    requires 0 < lMax && Ordered(s, lMax) && !HasTarget(s, t)
    ensures var r, x := Offer(s, lMax, t, h, d), Slot(t, h, d / 65536);
            if |s| < lMax then |r| == |s| + 1 && Ordered(r, lMax) && forall z :: z in r <==> z == x || z in s
            else FirstFarthest(s, h, p) &&
                 if d < 65536 * s[p].dist
                 then |r| == |s| && Ordered(r, lMax) && forall z :: z in r <==> z == x || (z in s && z != s[p])
                 else r == s
  {
    NarrowIs(d);
    var x := Slot(t, h, d / 65536);
    OrderedParts(s, lMax);
    hide Replace, InsertSorted, Farthest, Ordered, LowerBound, HasTarget, FirstFarthest, HashSorted, DistinctTargets, PositionOf;
    if |s| < lMax {
      p := 0;
      InsertOrdered(s, lMax, x);
    } else {
      p := ToBeat(s, h);
      ReplaceKeeps(s, lMax, p, x);
    }
  }

  /** The position the code finds, by hash run or over all slots. */
  lemma ToBeat(s: seq<Slot>, h: nat) returns (p: nat)
    requires HashSorted(s) && s != []
    ensures FirstFarthest(s, h, p)
    ensures var lo := LowerBound(s, h);
            p == if lo < |s| && s[lo].hash == h then Farthest(s, lo, SameHashEnd(s, lo, h)) else Farthest(s, 0, |s|)
  {
    var lo := LowerBound(s, h);
    hide LowerBound, Farthest;
    if lo < |s| && s[lo].hash == h {
      p := Farthest(s, lo, SameHashEnd(s, lo, h));
      FirstOfHash(s, h, lo, p);
    } else {
      p := Farthest(s, 0, |s|);
      HashAbsent(s, h);
    }
  }

  lemma FirstOfHash(s: seq<Slot>, h: nat, lo: nat, p: nat)
    requires HashSorted(s) && lo == LowerBound(s, h) < |s| && s[lo].hash == h
    requires p == Farthest(s, lo, SameHashEnd(s, lo, h))
    ensures FirstFarthest(s, h, p)
  {
    hide LowerBound, Farthest;
    var hi := SameHashEnd(s, lo, h);
    assert s[lo] in s;
    assert forall i :: hi < i < |s| ==> s[hi].hash <= s[i].hash;
    assert s[lo].hash <= s[p].hash;
    forall i | 0 <= i < |s| && s[i].hash == h
      ensures lo <= i < hi
    {
    }
  }

  // ----- what every offer keeps --------------------------------------------------------------------

  ghost predicate Inserted(s: seq<Slot>, x: Slot, p: nat, r: seq<Slot>) {
    && p <= |s| && |r| == |s| + 1
    && (forall i :: 0 <= i < p ==> r[i] == s[i])
    && r[p] == x
    && (forall i {:trigger r[i]} :: p < i < |r| ==> r[i] == s[i - 1])
  }

  ghost predicate Removed(s: seq<Slot>, p: nat, r: seq<Slot>) {
    && p < |s| && |r| == |s| - 1
    && (forall i :: 0 <= i < p ==> r[i] == s[i])
    && (forall i {:trigger r[i]} :: p <= i < |r| ==> r[i] == s[i + 1])
  }

  lemma InsertKeeps(s: seq<Slot>, x: Slot)
    requires HashSorted(s)
    ensures Inserted(s, x, UpperBound(s, x.hash), InsertSorted(s, x))
    ensures HashSorted(InsertSorted(s, x))
    ensures DistinctTargets(s) && !HasTarget(s, x.target) ==> DistinctTargets(InsertSorted(s, x))
    ensures forall y :: y in InsertSorted(s, x) <==> y == x || y in s
  {
    var p, r := UpperBound(s, x.hash), InsertSorted(s, x);
    assert Inserted(s, x, p, r);
    InsertedMembers(s, x, p, r);
    hide InsertSorted, UpperBound;
    assert HashSorted(r) by {
      forall i, j | 0 <= i < j < |r|
        ensures r[i].hash <= r[j].hash
      {
        if p < |s| && p < j {
          assert s[p].hash <= s[j - 1].hash;
        }
      }
    }
  }

  lemma InsertedMembers(s: seq<Slot>, x: Slot, p: nat, r: seq<Slot>)
    requires Inserted(s, x, p, r)
    ensures forall y :: y in r <==> y == x || y in s
  {
    forall y
      ensures y in r <==> y == x || y in s
    {
      if y in s {
        var i :| 0 <= i < |s| && s[i] == y;
        assert r[if i < p then i else i + 1] == y;
      }
      assert r[p] == x;
    }
  }

  lemma RemoveKeeps(s: seq<Slot>, p: nat)
    requires p < |s|
    ensures var r := s[..p] + s[p + 1..];
            && Removed(s, p, r)
            && (HashSorted(s) ==> HashSorted(r))
            && (DistinctTargets(s) ==> DistinctTargets(r) && !HasTarget(r, s[p].target))
            && (DistinctTargets(s) ==> forall y :: y in r <==> y in s && y != s[p])
  {
    var r := s[..p] + s[p + 1..];
    assert Removed(s, p, r);
    if DistinctTargets(s) {
      forall y
        ensures y in r <==> y in s && y != s[p]
      {
        if y in s && y != s[p] {
          var i :| 0 <= i < |s| && s[i] == y;
          assert r[if i < p then i else i - 1] == y;
        }
        if y in r {
          var i :| 0 <= i < |r| && r[i] == y;
          assert s[if i < p then i else i + 1] == y;
        }
      }
    }
  }

  /** The invariant of the slots. */
  ghost predicate Ordered(s: seq<Slot>, lMax: nat) {
    HashSorted(s) && DistinctTargets(s) && |s| <= lMax
  }

  lemma ReplaceKeeps(s: seq<Slot>, lMax: nat, p: nat, x: Slot)
    requires Ordered(s, lMax) && p < |s|
    requires s[p].target == x.target || !HasTarget(s, x.target)
    ensures Ordered(Replace(s, p, x), lMax)
    ensures forall y :: y in Replace(s, p, x) <==> y == x || (y in s && y != s[p])
  {
    var r := s[..p] + s[p + 1..];
    RemoveKeeps(s, p);
    InsertKeeps(r, x);
    assert !HasTarget(r, x.target);
  }

  /** Every offer, consistent or not, keeps hash order, distinct targets and the capacity. */
  lemma OfferKeeps(s: seq<Slot>, lMax: nat, t: nat, h: nat, d: nat)
    requires 0 < lMax && Ordered(s, lMax)
    ensures Ordered(Offer(s, lMax, t, h, d), lMax)
  {
    hide Ordered, Replace, InsertSorted, Farthest;
    var x, at := Slot(t, h, Narrow(d)), PositionOf(s, t);
    if at < |s| {
      ReplaceKeeps(s, lMax, at, x);
    } else if |s| < lMax {
      InsertOrdered(s, lMax, x);
    } else {
      var lo := LowerBound(s, h);
      if lo < |s| && s[lo].hash == h {
        ReplaceKeeps(s, lMax, Farthest(s, lo, SameHashEnd(s, lo, h)), x);
      } else {
        ReplaceKeeps(s, lMax, Farthest(s, 0, |s|), x);
      }
    }
  }

  lemma InsertOrdered(s: seq<Slot>, lMax: nat, x: Slot)
    requires Ordered(s, lMax) && |s| < lMax && !HasTarget(s, x.target)
    ensures Ordered(InsertSorted(s, x), lMax)
    ensures forall y :: y in InsertSorted(s, x) <==> y == x || y in s
  {
    InsertKeeps(s, x);
  }

  // ----- runs ------------------------------------------------------------------------------------

  /** The candidates of a run in which every target always comes with the same hash and distance. */
  datatype World = World(hash: nat -> nat, dist: nat -> nat) {
    function SlotOf(t: nat): Slot {
      Slot(t, hash(t), Narrow(dist(t)))
    }
  }

  function OfferIn(w: World, s: seq<Slot>, lMax: nat, t: nat): (r: seq<Slot>)
    requires 0 < lMax
  {
    Offer(s, lMax, t, w.hash(t), w.dist(t))
  }

  /** The slots after offering a stream of targets. */
  function Run(w: World, lMax: nat, stream: seq<nat>): (s: seq<Slot>)
    requires 0 < lMax
  {
    if stream == [] then []
    else OfferIn(w, Run(w, lMax, stream[..|stream| - 1]), lMax, stream[|stream| - 1])
  }

  /** Every slot carries its target's hash and truncated distance. */
  ghost predicate Faithful(w: World, s: seq<Slot>) {
    forall x :: x in s ==> x == w.SlotOf(x.target)
  }

  ghost predicate State(w: World, s: seq<Slot>, lMax: nat) {
    0 < lMax && Ordered(s, lMax) && Faithful(w, s)
  }

  ghost predicate Kept(w: World, s: seq<Slot>, t: nat) {
    w.SlotOf(t) in s
  }

  ghost predicate AllWithin(s: seq<Slot>, d: nat) {
    forall x :: x in s ==> Far(x) <= d
  }

  ghost predicate HashWithin(s: seq<Slot>, h: nat, d: nat) {
    && (exists x :: x in s && x.hash == h)
    && (forall x :: x in s && x.hash == h ==> Far(x) <= d)
  }

  /** The reservoir is full and all slots, or all slots of t's own hash, are no farther than t. */
  ghost predicate Dominated(w: World, s: seq<Slot>, lMax: nat, t: nat) {
    |s| == lMax && (AllWithin(s, w.dist(t)) || HashWithin(s, w.hash(t), w.dist(t)))
  }

  lemma KeptIsTarget(w: World, s: seq<Slot>, t: nat)
    requires Faithful(w, s)
    ensures Kept(w, s, t) <==> HasTarget(s, t)
  {
    if HasTarget(s, t) {
      var i :| 0 <= i < |s| && s[i].target == t;
      assert s[i] in s;
    }
  }

  /** `out` is the farthest slot of t's hash, or of all when the hash is absent. */
  ghost predicate Victim(w: World, s: seq<Slot>, t: nat, out: Slot) {
    && out in s
    && (|| (out.hash == w.hash(t) && forall y :: y in s && y.hash == w.hash(t) ==> Far(y) <= Far(out))
        || ((forall y :: y in s ==> y.hash != w.hash(t)) && AllWithin(s, Far(out))))
  }

  ghost predicate SwappedFor(s: seq<Slot>, r: seq<Slot>, out: Slot, x: Slot) {
    |r| == |s| && forall y :: y in r <==> y == x || (y in s && y != out)
  }

  /** A full reservoir evicts its victim for a nearer candidate and otherwise keeps everything. */
  lemma FullOffer(w: World, s: seq<Slot>, lMax: nat, t: nat) returns (out: Slot)
    requires State(w, s, lMax) && |s| == lMax && !HasTarget(s, t)
    ensures Victim(w, s, t, out)
    ensures var r := OfferIn(w, s, lMax, t);
            if w.dist(t) < Far(out) then Ordered(r, lMax) && SwappedFor(s, r, out, w.SlotOf(t)) else r == s
  {
    var p := OfferNew(s, lMax, t, w.hash(t), w.dist(t));
    out := s[p];
    hide Offer, Ordered, HasTarget;
  }

  lemma HashAbsent(s: seq<Slot>, h: nat)
    requires HashSorted(s)
    requires var lo := LowerBound(s, h); lo == |s| || s[lo].hash != h
    ensures forall y :: y in s ==> y.hash != h
  {
    hide LowerBound;
    var lo := LowerBound(s, h);
    assert forall i :: lo < i < |s| ==> s[lo].hash <= s[i].hash;
  }

  lemma OrderedParts(s: seq<Slot>, lMax: nat)
    requires Ordered(s, lMax)
    ensures HashSorted(s) && DistinctTargets(s) && |s| <= lMax
  {
  }

  /** The state invariant is kept by every consistent offer. */
  lemma OfferState(w: World, s: seq<Slot>, lMax: nat, t: nat)
    requires State(w, s, lMax)
    ensures State(w, OfferIn(w, s, lMax, t), lMax)
  {
    if HasTarget(s, t) {
      OfferPresent(w, s, lMax, t);
    } else if |s| < lMax {
      InsertOrdered(s, lMax, w.SlotOf(t));
    } else {
      var out := FullOffer(w, s, lMax, t);
    }
  }

  /** Offering a kept target again changes nothing. */
  lemma OfferPresent(w: World, s: seq<Slot>, lMax: nat, t: nat)
    requires State(w, s, lMax) && HasTarget(s, t)
    ensures OfferIn(w, s, lMax, t) == s
  {
    var at := PositionOf(s, t);
    assert s[at] in s;
    NarrowBelow(w.dist(t), w.dist(t));
  }

  /** Offering a dominated target again changes nothing. */
  lemma OfferDominated(w: World, s: seq<Slot>, lMax: nat, t: nat)
    requires State(w, s, lMax) && !HasTarget(s, t) && Dominated(w, s, lMax, t)
    ensures OfferIn(w, s, lMax, t) == s
  {
    var out := FullOffer(w, s, lMax, t);
  }

  /** After its offer a target is kept or dominated. */
  lemma OfferedOnce(w: World, s: seq<Slot>, lMax: nat, t: nat)
    requires State(w, s, lMax)
    ensures var r := OfferIn(w, s, lMax, t); Kept(w, r, t) || Dominated(w, r, lMax, t)
  {
    if HasTarget(s, t) {
      OfferPresent(w, s, lMax, t);
      KeptIsTarget(w, s, t);
    } else if |s| < lMax {
      InsertOrdered(s, lMax, w.SlotOf(t));
    } else {
      var out := FullOffer(w, s, lMax, t);
    }
  }

  /** A target that is kept or dominated stays so while others are offered. */
  lemma OfferKeepsFate(w: World, s: seq<Slot>, lMax: nat, t: nat, u: nat)
    requires State(w, s, lMax) && (Kept(w, s, u) || Dominated(w, s, lMax, u))
    ensures var r := OfferIn(w, s, lMax, t); Kept(w, r, u) || Dominated(w, r, lMax, u)
  {
    if HasTarget(s, t) {
      OfferPresent(w, s, lMax, t);
    } else if |s| < lMax {
      InsertOrdered(s, lMax, w.SlotOf(t));
    } else {
      var out := FullOffer(w, s, lMax, t);
      if w.dist(t) < Far(out) {
        SwapKeepsFate(w, s, OfferIn(w, s, lMax, t), lMax, t, u, out);
      }
    }
  }

  lemma SwapKeepsFate(w: World, s: seq<Slot>, r: seq<Slot>, lMax: nat, t: nat, u: nat, out: Slot)
    requires |s| == lMax && Faithful(w, s) && Victim(w, s, t, out) && w.dist(t) < Far(out)
    requires SwappedFor(s, r, out, w.SlotOf(t))
    requires Kept(w, s, u) || Dominated(w, s, lMax, u)
    ensures Kept(w, r, u) || Dominated(w, r, lMax, u)
  {
    var x := w.SlotOf(t);
    NarrowBelow(w.dist(t), w.dist(t));
    NarrowBelow(w.dist(u), w.dist(u));
    assert Far(x) < Far(out);
    assert x in r;
    if Kept(w, s, u) && w.SlotOf(u) != out {
      assert Kept(w, r, u);
    } else if !AllWithin(s, w.dist(u)) {
      assert HashWithin(s, w.hash(u), w.dist(u)) || w.SlotOf(u) == out;
      if w.hash(t) != w.hash(u) {
        assert out.hash == w.hash(u) ==> Far(out) <= w.dist(u);
        var y :| y in s && y.hash == w.hash(u);
        assert y in r;
      }
      assert HashWithin(r, w.hash(u), w.dist(u));
    }
  }

  /**
   Domination: after any stream every offered target is in the reservoir or dominated by it,
   and the reservoir is ordered and faithful.
   */
  lemma {:induction false} RunDominates(w: World, lMax: nat, stream: seq<nat>)
    requires 0 < lMax
    ensures State(w, Run(w, lMax, stream), lMax)
    ensures forall t :: t in stream ==> Kept(w, Run(w, lMax, stream), t) || Dominated(w, Run(w, lMax, stream), lMax, t)
  {
    if stream != [] {
      var before, t := stream[..|stream| - 1], stream[|stream| - 1];
      RunDominates(w, lMax, before);
      var s := Run(w, lMax, before);
      OfferState(w, s, lMax, t);
      OfferedOnce(w, s, lMax, t);
      forall u | u in before
        ensures Kept(w, Run(w, lMax, stream), u) || Dominated(w, Run(w, lMax, stream), lMax, u)
      {
        OfferKeepsFate(w, s, lMax, t, u);
      }
      assert forall u :: u in stream ==> u in before || u == t;
    }
  }

  /** A repeated offer never changes the reservoir: what was rejected or evicted never returns. */
  lemma RepeatIsIdle(w: World, lMax: nat, stream: seq<nat>, t: nat)
    requires 0 < lMax && t in stream
    ensures Run(w, lMax, stream + [t]) == Run(w, lMax, stream)
  {
    RunDominates(w, lMax, stream);
    var s := Run(w, lMax, stream);
    assert (stream + [t])[..|stream|] == stream;
    KeptIsTarget(w, s, t);
    if HasTarget(s, t) {
      OfferPresent(w, s, lMax, t);
    } else {
      OfferDominated(w, s, lMax, t);
    }
  }

  /** The first occurrences of a stream, in order. */
  function Dedup(stream: seq<nat>): (r: seq<nat>)
    ensures forall t :: t in r <==> t in stream
  {
    if stream == [] then []
    else
      var before, t := Dedup(stream[..|stream| - 1]), stream[|stream| - 1];
      assert forall u :: u in stream <==> u in stream[..|stream| - 1] || u == t;
      if t in before then before else before + [t]
  }

  /** Replaying candidates is idle: a stream equals itself with every repeat removed. */
  lemma {:induction false} RunDedup(w: World, lMax: nat, stream: seq<nat>)
    requires 0 < lMax
    ensures Run(w, lMax, stream) == Run(w, lMax, Dedup(stream))
  {
    if stream != [] {
      var before, t := stream[..|stream| - 1], stream[|stream| - 1];
      RunDedup(w, lMax, before);
      if t in Dedup(before) {
        RepeatIsIdle(w, lMax, before, t);
        assert before + [t] == stream;
      } else {
        assert (Dedup(before) + [t])[..|Dedup(before)|] == Dedup(before);
      }
    }
  }

  /** A candidate nearer than every other one's truncated distance is always kept. */
  lemma NearestSurvives(w: World, lMax: nat, stream: seq<nat>, t: nat)
    requires 0 < lMax && t in stream
    requires forall u :: u in stream && u != t ==> w.dist(t) < Far(w.SlotOf(u))
    ensures Kept(w, Run(w, lMax, stream), t)
  {
    RunDominates(w, lMax, stream);
    RunFromStream(w, lMax, stream);
    var s := Run(w, lMax, stream);
    if !Kept(w, s, t) {
      var x :| x in s && Far(x) <= w.dist(t);
    }
  }

  /** Slots come from the stream. */
  lemma {:induction false} RunFromStream(w: World, lMax: nat, stream: seq<nat>)
    requires 0 < lMax
    ensures forall x :: x in Run(w, lMax, stream) ==> x.target in stream
  {
    if stream != [] {
      var before, t := stream[..|stream| - 1], stream[|stream| - 1];
      RunDominates(w, lMax, before);
      RunFromStream(w, lMax, before);
      var s := Run(w, lMax, before);
      if HasTarget(s, t) {
        OfferPresent(w, s, lMax, t);
      } else if |s| < lMax {
        InsertOrdered(s, lMax, w.SlotOf(t));
      } else {
        var out := FullOffer(w, s, lMax, t);
      }
    }
  }

  /** While the reservoir has room for every candidate it keeps them all, in any order. */
  lemma {:induction false} RunKeepsAll(w: World, lMax: nat, stream: seq<nat>)
    requires 0 < lMax && |Dedup(stream)| <= lMax
    ensures forall t :: t in stream ==> Kept(w, Run(w, lMax, stream), t)
    ensures |Run(w, lMax, stream)| == |Dedup(stream)|
  {
    if stream != [] {
      var before, t := stream[..|stream| - 1], stream[|stream| - 1];
      RunKeepsAll(w, lMax, before);
      RunDominates(w, lMax, before);
      RunFromStream(w, lMax, before);
      var s := Run(w, lMax, before);
      KeptIsTarget(w, s, t);
      if HasTarget(s, t) {
        OfferPresent(w, s, lMax, t);
        var i :| 0 <= i < |s| && s[i].target == t;
        assert s[i] in s;
      } else {
        InsertOrdered(s, lMax, w.SlotOf(t));
      }
      assert forall u :: u in stream ==> u in before || u == t;
    }
  }

  // ----- streams of any offers ----------------------------------------------------------------------

  datatype Candidate = Candidate(target: nat, hash: nat, dist: nat)

  /** The slots after any offers, consistent or not. */
  function Stream(lMax: nat, cs: seq<Candidate>): seq<Slot>
    requires 0 < lMax
  {
    if cs == [] then []
    else
      var c := cs[|cs| - 1];
      Offer(Stream(lMax, cs[..|cs| - 1]), lMax, c.target, c.hash, c.dist)
  }

  /** The slot is what offer i put there, and no later offer of its target was nearer. */
  ghost predicate FromOffer(cs: seq<Candidate>, y: Slot, i: nat) {
    && i < |cs| && y == Slot(cs[i].target, cs[i].hash, cs[i].dist / 65536)
    && (forall j :: i < j < |cs| && cs[j].target == y.target ==> y.dist <= cs[j].dist / 65536)
  }

  /** What one offer leaves in the reservoir: the candidate's own slot, or a slot of before that is no farther if it is the same target. */
  lemma OfferLeaves(s: seq<Slot>, lMax: nat, t: nat, h: nat, d: nat, y: Slot)
    requires 0 < lMax && Ordered(s, lMax) && y in Offer(s, lMax, t, h, d)
    ensures y == Slot(t, h, d / 65536) || (y in s && (y.target == t ==> y.dist <= d / 65536))
  {
    hide Offer, Ordered;
    if HasTarget(s, t) {
      var i :| 0 <= i < |s| && s[i].target == t;
      OfferAgain(s, lMax, s[i], h, d);
      if d >= 65536 * s[i].dist && y.target == t {
        OneSlot(s, lMax, i, y);
      } else if y in s && y != s[i] && y.target == t {
        OneSlot(s, lMax, i, y);
      }
    } else {
      var p := OfferNew(s, lMax, t, h, d);
      if y in s {
        SlotsTarget(s, y);
      }
    }
  }

  lemma SlotsTarget(s: seq<Slot>, y: Slot)
    requires y in s
    ensures HasTarget(s, y.target)
  {
  }

  lemma OneSlot(s: seq<Slot>, lMax: nat, i: nat, y: Slot)
    requires Ordered(s, lMax) && i < |s| && y in s && y.target == s[i].target
    ensures y == s[i]
  {
    var j :| 0 <= j < |s| && s[j] == y;
  }

  lemma {:induction false} StreamOrdered(lMax: nat, cs: seq<Candidate>)
    requires 0 < lMax
    ensures Ordered(Stream(lMax, cs), lMax)
  {
    hide Offer;
    if cs != [] {
      StreamOrdered(lMax, cs[..|cs| - 1]);
      var c := cs[|cs| - 1];
      OfferKeeps(Stream(lMax, cs[..|cs| - 1]), lMax, c.target, c.hash, c.dist);
    }
  }

  /** Over any stream, every slot holds an offer of its target that no later offer of it beats. */
  lemma {:induction false} StreamNearest(lMax: nat, cs: seq<Candidate>, y: Slot) returns (i: nat)
    requires 0 < lMax && y in Stream(lMax, cs)
    ensures FromOffer(cs, y, i)
  {
    hide Offer, Ordered;
    var before, c := cs[..|cs| - 1], cs[|cs| - 1];
    var s := Stream(lMax, before);
    StreamOrdered(lMax, before);
    OfferLeaves(s, lMax, c.target, c.hash, c.dist, y);
    if y == Slot(c.target, c.hash, c.dist / 65536) {
      i := |cs| - 1;
    } else {
      i := StreamNearest(lMax, before, y);
    }
  }

  /** Right after an offer, its target is either absent or stored no farther than offered. */
  lemma JustOffered(lMax: nat, cs: seq<Candidate>, y: Slot)
    requires 0 < lMax && cs != [] && y in Stream(lMax, cs) && y.target == cs[|cs| - 1].target
    ensures y.dist <= cs[|cs| - 1].dist / 65536
  {
    hide Stream;
    var i := StreamNearest(lMax, cs, y);
    if i < |cs| - 1 {
      assert cs[|cs| - 1].target == y.target;
    }
  }

  // ----- when the order of offers does not matter -------------------------------------------------

  ghost predicate SameKept(w: World, lMax: nat, a: seq<nat>, b: seq<nat>)
    requires 0 < lMax
  {
    forall t :: Kept(w, Run(w, lMax, a), t) <==> Kept(w, Run(w, lMax, b), t)
  }

  /** In every world, every order of the targets keeps the same ones. */
  ghost predicate OrderFree(lMax: nat, targets: seq<nat>)
    requires 0 < lMax
  {
    forall w: World, order: seq<nat> :: multiset(order) == multiset(targets) ==> SameKept(w, lMax, targets, order)
  }

  lemma {:induction false} DedupDistinct(stream: seq<nat>)
    requires NoRepeat(stream)
    ensures Dedup(stream) == stream
  {
    if stream != [] {
      var before := stream[..|stream| - 1];
      DedupDistinct(before);
      assert stream == before + [stream[|stream| - 1]];
    }
  }

  lemma KeptInStream(w: World, lMax: nat, stream: seq<nat>, t: nat)
    requires 0 < lMax && Kept(w, Run(w, lMax, stream), t)
    ensures t in stream
  {
    RunFromStream(w, lMax, stream);
  }

  /** A world in which all candidates look alike. */
  function Flat(): World {
    World(_ => 0, _ => 0)
  }

  /** There, only the first lMax offers are kept. */
  lemma {:induction false} FlatFirst(lMax: nat, stream: seq<nat>)
    requires 0 < lMax <= |stream| && NoRepeat(stream)
    ensures Run(Flat(), lMax, stream) == Run(Flat(), lMax, stream[..lMax])
    ensures |Run(Flat(), lMax, stream)| == lMax
  {
    hide *;
    if |stream| == lMax {
      assert stream[..lMax] == stream;
      DedupDistinct(stream);
      RunKeepsAll(Flat(), lMax, stream);
    } else {
      var before, t := stream[..|stream| - 1], stream[|stream| - 1];
      LastIsNew(stream);
      FlatFirst(lMax, before);
      assert before[..lMax] == stream[..lMax];
      RunDominates(Flat(), lMax, before);
      RunFromStream(Flat(), lMax, before);
      FlatFull(lMax, Run(Flat(), lMax, before), t, before);
      RunSnoc(Flat(), lMax, before, t);
      assert stream == before + [t];
    }
  }

  lemma LastIsNew(stream: seq<nat>)
    requires stream != [] && NoRepeat(stream)
    ensures NoRepeat(stream[..|stream| - 1]) && stream[|stream| - 1] !in stream[..|stream| - 1]
  {
  }

  lemma FlatFull(lMax: nat, s: seq<Slot>, t: nat, before: seq<nat>)
    requires State(Flat(), s, lMax) && |s| == lMax && t !in before && forall x :: x in s ==> x.target in before
    ensures OfferIn(Flat(), s, lMax, t) == s
  {
    assert !HasTarget(s, t);
    var out := FullOffer(Flat(), s, lMax, t);
    assert Far(out) == 0;
  }

  lemma Rotate(targets: seq<nat>)
    requires targets != [] && NoRepeat(targets)
    ensures var r := targets[1..] + [targets[0]]; multiset(r) == multiset(targets) && NoRepeat(r)
  {
    var r := targets[1..] + [targets[0]];
    assert targets == [targets[0]] + targets[1..];
    PermutationNoRepeat(r, targets);
  }

  /** With more targets than slots, moving the first offer to the end loses it. */
  lemma RotationLoses(lMax: nat, targets: seq<nat>)
    requires 0 < lMax < |targets| && NoRepeat(targets)
    ensures var r := targets[1..] + [targets[0]];
            multiset(r) == multiset(targets) && !SameKept(Flat(), lMax, targets, r)
  {
    var t, r := targets[0], targets[1..] + [targets[0]];
    Rotate(targets);
    FlatFirst(lMax, targets);
    FlatFirst(lMax, r);
    var front, back := targets[..lMax], r[..lMax];
    assert front[0] == t && NoRepeat(front);
    DedupDistinct(front);
    RunKeepsAll(Flat(), lMax, front);
    assert t in front;
    assert forall i :: 0 <= i < lMax ==> back[i] == targets[i + 1];
    hide Run;
    if Kept(Flat(), Run(Flat(), lMax, r), t) {
      KeptInStream(Flat(), lMax, back, t);
      assert false;
    }
  }

  /**
   What is kept is independent of the order of distinct targets, whatever their hashes and
   distances, if and only if they all fit.
   */
  lemma OrderFreeIff(lMax: nat, targets: seq<nat>)
    requires 0 < lMax && NoRepeat(targets)
    ensures OrderFree(lMax, targets) <==> |targets| <= lMax
  {
    if |targets| <= lMax {
      forall w: World, order: seq<nat> | multiset(order) == multiset(targets)
        ensures SameKept(w, lMax, targets, order)
      {
        FittingKept(w, lMax, targets, order);
      }
    } else {
      RotationLoses(lMax, targets);
    }
  }

  lemma FittingKept(w: World, lMax: nat, targets: seq<nat>, order: seq<nat>)
    requires 0 < lMax && NoRepeat(targets) && |targets| <= lMax && multiset(order) == multiset(targets)
    ensures SameKept(w, lMax, targets, order)
  {
    PermutationNoRepeat(order, targets);
    SameLength(order, targets);
    DedupDistinct(targets);
    DedupDistinct(order);
    RunKeepsAll(w, lMax, targets);
    RunKeepsAll(w, lMax, order);
    hide Run, Kept;
    forall t
      ensures Kept(w, Run(w, lMax, targets), t) <==> Kept(w, Run(w, lMax, order), t)
    {
      assert t in targets <==> t in multiset(targets);
      assert t in order <==> t in multiset(order);
      if Kept(w, Run(w, lMax, targets), t) {
        KeptInStream(w, lMax, targets, t);
      }
      if Kept(w, Run(w, lMax, order), t) {
        KeptInStream(w, lMax, order, t);
      }
    }
  }

  /**
   Distances that differ do not help: when candidates compete for two slots and a and b share a
   hash, b displaces a only when the third candidate arrived before them.
   */
  lemma OrderMatters(w: World, a: nat, b: nat, c: nat)
    requires a != b && b != c && a != c && w.hash(a) == w.hash(b) != w.hash(c)
    requires w.dist(b) < Far(w.SlotOf(a)) && Far(w.SlotOf(a)) <= w.dist(c)
    ensures Kept(w, Run(w, 2, [a, b, c]), a) && !Kept(w, Run(w, 2, [c, a, b]), a)
  {
    NarrowBelow(w.dist(b), w.dist(c));
    ThirdRejected(w, a, b, c);
    ThirdEvicts(w, c, a, b);
  }

  lemma ThirdRejected(w: World, a: nat, b: nat, c: nat)
    requires a != b && b != c && a != c && w.hash(a) == w.hash(b) != w.hash(c)
    requires Far(w.SlotOf(a)) <= w.dist(c) && Far(w.SlotOf(b)) <= w.dist(c)
    ensures Kept(w, Run(w, 2, [a, b, c]), a)
  {
    hide Run, Offer, Ordered;
    var s := PairKept(w, a, b);
    RunSnoc(w, 2, [a, b], c);
    var out := FullOffer(w, s, 2, c);
    assert [a, b] + [c] == [a, b, c];
  }

  lemma ThirdEvicts(w: World, c: nat, a: nat, b: nat)
    requires a != b && b != c && a != c && w.hash(a) == w.hash(b) != w.hash(c)
    requires w.dist(b) < Far(w.SlotOf(a))
    ensures !Kept(w, Run(w, 2, [c, a, b]), a)
  {
    hide Run, Offer, Ordered, Far;
    var s := PairKept(w, c, a);
    RunSnoc(w, 2, [c, a], b);
    var out := FullOffer(w, s, 2, b);
    assert w.SlotOf(a) in s && w.SlotOf(c) in s;
    assert out == w.SlotOf(a);
    assert [c, a] + [b] == [c, a, b];
  }

  lemma RunSnoc(w: World, lMax: nat, stream: seq<nat>, t: nat)
    requires 0 < lMax
    ensures Run(w, lMax, stream + [t]) == OfferIn(w, Run(w, lMax, stream), lMax, t)
  {
    assert (stream + [t])[..|stream|] == stream;
  }

  lemma PairKept(w: World, a: nat, b: nat) returns (s: seq<Slot>)
    requires a != b
    ensures s == Run(w, 2, [a, b]) && State(w, s, 2) && |s| == 2
    ensures forall x :: x in s <==> x == w.SlotOf(a) || x == w.SlotOf(b)
    ensures forall t :: HasTarget(s, t) <==> t == a || t == b
  {
    assert [a, b][..1] == [a] && [a][..0] == [];
    s := Run(w, 2, [a, b]);
    assert Run(w, 2, []) == [];
    assert Run(w, 2, [a]) == OfferIn(w, [], 2, a);
    OfferState(w, [], 2, a);
    InsertOrdered([], 2, w.SlotOf(a));
    var r := Run(w, 2, [a]);
    assert !HasTarget(r, b);
    OfferState(w, r, 2, b);
    InsertOrdered(r, 2, w.SlotOf(b));
    forall t
      ensures HasTarget(s, t) <==> t == a || t == b
    {
      KeptIsTarget(w, s, t);
    }
  }

  // ----- the reservoir ----------------------------------------------------------------------------

  class Reservoir {
    const lMax: nat
    var slots: seq<Slot>
    var farthestIdx: nat
    var farthestDist: nat

    /** Slots in order, and the cached farthest slot is the first farthest one. */
    ghost predicate Valid()
      reads this
    {
      && 0 < lMax
      && Ordered(slots, lMax)
      && CacheOk(slots, farthestIdx, farthestDist)
    }

    constructor (capacity: nat)
      requires 0 < capacity
      ensures Valid() && lMax == capacity && slots == []
    {
      lMax, slots, farthestIdx, farthestDist := capacity, [], 0, 0;
    }

    method Clear()
      requires Valid()
      modifies this
      ensures Valid() && slots == []
    {
      slots, farthestIdx, farthestDist := [], 0, 0;
    }

    method RecomputeFarthest()
      modifies this`farthestIdx, this`farthestDist
      ensures CacheOk(slots, farthestIdx, farthestDist)
    {
      if |slots| == 0 {
        farthestIdx, farthestDist := 0, 0;
        return;
      }
      var idx, dist := 0, Far(slots[0]);
      for i := 1 to |slots|
        invariant 0 <= idx < i && dist == Far(slots[idx])
        invariant IsFarthest(slots, 0, i, idx)
      {
        if Far(slots[i]) > dist {
          idx, dist := i, Far(slots[i]);
        }
      }
      FarthestUnique(slots, 0, |slots|, idx);
      farthestIdx, farthestDist := idx, dist;
    }

    method InsertSlot(x: Slot)
      requires Valid() && |slots| < lMax && !HasTarget(slots, x.target)
      modifies this
      ensures Valid() && slots == InsertSorted(old(slots), x)
    {
      var p := UpperBound(slots, x.hash);
      ghost var before := slots;
      InsertOrdered(slots, lMax, x);
      InsertKeeps(slots, x);
      slots := slots[..p] + [x] + slots[p..];
      if |slots| == 1 {
        farthestIdx, farthestDist := 0, Far(x);
      } else if Far(x) >= farthestDist {
        RecomputeFarthest();
      } else {
        NearerInsert(before, x, p, slots);
        if p <= farthestIdx {
          farthestIdx := farthestIdx + 1;
        }
      }
    }

    method ReplaceSlot(p: nat, x: Slot)
      requires Valid() && p < |slots|
      requires slots[p].target == x.target || !HasTarget(slots, x.target)
      modifies this
      ensures Valid() && slots == Replace(old(slots), p, x)
    {
      ReplaceKeeps(slots, lMax, p, x);
      slots := slots[..p] + slots[p + 1..];
      var at := UpperBound(slots, x.hash);
      slots := slots[..at] + [x] + slots[at..];
      RecomputeFarthest();
    }

    /** Scans the run of equal hashes from lo. */
    method FarthestSameHash(lo: nat, h: nat) returns (p: nat)
      requires lo < |slots| && slots[lo].hash == h && lo == LowerBound(slots, h)
      ensures p == Farthest(slots, lo, SameHashEnd(slots, lo, h))
    {
      var hi := UpperBound(slots, h);
      assert hi == SameHashEnd(slots, lo, h);
      p := lo;
      var far := Far(slots[lo]);
      for i := lo + 1 to hi
        invariant lo <= p < i && far == Far(slots[p])
        invariant IsFarthest(slots, lo, i, p)
      {
        if Far(slots[i]) > far {
          p, far := i, Far(slots[i]);
        }
      }
      FarthestUnique(slots, lo, hi, p);
    }

    /** `insert`: the three eviction rules with the cached farthest slot. */
    method Insert(t: nat, h: nat, d: nat)
      requires Valid()
      modifies this
      ensures Valid() && slots == Offer(old(slots), lMax, t, h, d)
    {
      hide Ordered, Replace, InsertSorted;
      var x, at := Slot(t, h, Narrow(d)), PositionOf(slots, t);
      if at < |slots| {
        if d < Far(slots[at]) {
          ReplaceSlot(at, x);
        }
        return;
      }
      if |slots| < lMax {
        InsertSlot(x);
        return;
      }
      var lo := LowerBound(slots, h);
      if lo < |slots| && slots[lo].hash == h {
        var p := FarthestSameHash(lo, h);
        if d < Far(slots[p]) {
          ReplaceSlot(p, x);
        }
        return;
      }
      if d < farthestDist {
        ReplaceSlot(farthestIdx, x);
      }
    }
  }

  ghost predicate CacheOk(s: seq<Slot>, idx: nat, dist: nat) {
    if s == [] then idx == 0 && dist == 0
    else idx == Farthest(s, 0, |s|) && dist == Far(s[idx])
  }

  /** A nearer slot moves the farthest one by at most one place. */
  lemma NearerInsert(s: seq<Slot>, x: Slot, p: nat, r: seq<Slot>)
    requires s != [] && Inserted(s, x, p, r) && Far(x) < Far(s[Farthest(s, 0, |s|)])
    ensures var f := Farthest(s, 0, |s|);
            Farthest(r, 0, |r|) == if p <= f then f + 1 else f
  {
    hide Farthest;
    var f := Farthest(s, 0, |s|);
    var g := if p <= f then f + 1 else f;
    assert r[g] == s[f];
    assert IsFarthest(r, 0, |r|, g);
    FarthestUnique(r, 0, |r|, g);
  }
}
