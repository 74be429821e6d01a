/**
 The order in which the wavefront visits pairs of blocks, on its own: wave w pairs blocks
 0 .. w-1 with block w and then block w with itself.
 */
module WaveOrder {

  datatype Visit = Visit(left: nat, right: nat)

  function Wave(w: nat, l: nat): seq<Visit> {
    if l == 0 then [] else Wave(w, l - 1) + [Visit(l - 1, w)]
  }

  function Schedule(w: nat): seq<Visit> {
    if w == 0 then [] else Schedule(w - 1) + Wave(w - 1, w - 1) + [Visit(w - 1, w - 1)]
  }

  lemma ScheduleStarts()
    ensures Schedule(0) == []
  {
  }

  lemma WaveStarts(w: nat)
    ensures Schedule(w) + Wave(w, 0) == Schedule(w)
  {
  }

  lemma WaveGoesOn(w: nat, l: nat)
    ensures Schedule(w) + Wave(w, l) + [Visit(l, w)] == Schedule(w) + Wave(w, l + 1)
  {
  }

  lemma WaveEnds(w: nat)
    ensures Schedule(w) + Wave(w, w) + [Visit(w, w)] == Schedule(w + 1)
  {
  }

  lemma {:induction false} ScheduleGrows(w: nat, blocks: nat)
    requires w <= blocks
    ensures Schedule(w) <= Schedule(blocks)
  {
    if w < blocks {
      ScheduleGrows(w, blocks - 1);
    }
  }

  lemma {:induction false} WaveGrows(w: nat, l: nat, m: nat)
    requires l <= m
    ensures Wave(w, l) <= Wave(w, m)
  {
    if l < m {
      WaveGrows(w, l, m - 1);
    }
  }

  /** Where the schedule of all blocks stands in wave w, before its visit number l. */
  lemma VisitIn(blocks: nat, w: nat, l: nat)
    requires l <= w < blocks
    ensures var p := |Schedule(w) + Wave(w, l)|; var all := Schedule(blocks);
            p < |all| && all[p] == Visit(l, w) && all[..p] == Schedule(w) + Wave(w, l)
            && all[..p + 1] == Schedule(w) + Wave(w, l) + [Visit(l, w)]
  {
    hide *;
    ScheduleGrows(w + 1, blocks);
    WaveWithin(w, l);
    PrefixAt(Schedule(w) + Wave(w, l), Visit(l, w), Schedule(w + 1), Schedule(blocks));
  }

  lemma PrefixAt(a: seq<Visit>, v: Visit, b: seq<Visit>, c: seq<Visit>)
    requires a + [v] <= b <= c
    ensures |a| < |c| && c[|a|] == v && c[..|a|] == a && c[..|a| + 1] == a + [v]
  {
    assert (a + [v])[|a|] == v;
    assert c[..|a| + 1] == a + [v];
    assert c[..|a|] == (a + [v])[..|a|];
  }

  lemma WaveWithin(w: nat, l: nat)
    requires l <= w
    ensures Schedule(w) + Wave(w, l) + [Visit(l, w)] <= Schedule(w + 1)
  {
    hide *;
    WaveEnds(w);
    if l < w {
      WaveGoesOn(w, l);
      WaveGrows(w, l + 1, w);
      SameFront(Schedule(w), Wave(w, l + 1), Wave(w, w), [Visit(w, w)]);
    }
  }

  lemma SameFront(a: seq<Visit>, b: seq<Visit>, c: seq<Visit>, d: seq<Visit>)
    requires b <= c
    ensures a + b <= a + c + d
  {
  }

  /** The blocks that the rows of block j meet in one visit. */
  function MetIn(v: Visit, j: nat): seq<nat> {
    if v.left == j then [v.right] else if v.right == j then [v.left] else []
  }

  /** The blocks that the rows of block j meet, in order. */
  function Meetings(vs: seq<Visit>, j: nat): seq<nat> {
    if vs == [] then [] else Meetings(vs[..|vs| - 1], j) + MetIn(vs[|vs| - 1], j)
  }

  function Upto(n: nat): seq<nat> {
    if n == 0 then [] else Upto(n - 1) + [n - 1]
  }

  lemma MeetingsSnoc(vs: seq<Visit>, v: Visit, j: nat)
    ensures Meetings(vs + [v], j) == Meetings(vs, j) + MetIn(v, j)
  {
    assert (vs + [v])[..|vs|] == vs;
  }

  lemma Assoc<T>(a: seq<T>, b: seq<T>, c: seq<T>)
    ensures (a + b) + c == a + (b + c)
  {
  }

  lemma MeetingsNone(j: nat)
    ensures Meetings([], j) == []
  {
  }

  lemma {:induction false} MeetingsConcat(a: seq<Visit>, b: seq<Visit>, j: nat)
    ensures Meetings(a + b, j) == Meetings(a, j) + Meetings(b, j)
  {
    hide *;
    if b == [] {
      assert a + b == a;
      MeetingsNone(j);
    } else {
      var front, v := b[..|b| - 1], b[|b| - 1];
      MeetingsConcat(a, front, j);
      assert b == front + [v];
      Assoc(a, front, [v]);
      MeetingsSnoc(a + front, v, j);
      MeetingsSnoc(front, v, j);
      Assoc(Meetings(a, j), Meetings(front, j), MetIn(v, j));
    }
  }

  lemma {:induction false} WaveMeetings(w: nat, l: nat, j: nat)
    requires l <= w
    ensures Meetings(Wave(w, l), j) == if j < l then [w] else if j == w then Upto(l) else []
  {
    if l > 0 {
      WaveMeetings(w, l - 1, j);
      assert Wave(w, l) == Wave(w, l - 1) + [Visit(l - 1, w)] && Upto(l) == Upto(l - 1) + [l - 1];
      var m := MetIn(Visit(l - 1, w), j);
      assert m == if j == l - 1 then [w] else if j == w then [l - 1] else [];
      hide *;
      MeetingsSnoc(Wave(w, l - 1), Visit(l - 1, w), j);
    }
  }

  /** Every block meets all blocks in the order 0, 1, 2, ..., each exactly once. */
  lemma {:induction false} MeetsInOrder(w: nat, j: nat)
    ensures Meetings(Schedule(w), j) == if j < w then Upto(w) else []
  {
    if w > 0 {
      var v := w - 1;
      var before, wave := Schedule(v), Wave(v, v);
      assert Schedule(w) == before + wave + [Visit(v, v)] && Upto(w) == Upto(v) + [v];
      MeetsInOrder(v, j);
      WaveMeetings(v, v, j);
      hide Meetings, Schedule, Wave, Upto;
      MeetingsConcat(before, wave, j);
      MeetingsSnoc(before + wave, Visit(v, v), j);
      Joined(Meetings(before, j), Meetings(wave, j), MetIn(Visit(v, v), j), Upto(v), v, j);
    }
  }

  lemma Joined(a: seq<nat>, b: seq<nat>, c: seq<nat>, up: seq<nat>, v: nat, j: nat)
    requires a == if j < v then up else []
    requires b == if j < v then [v] else if j == v then up else []
    requires c == if j == v then [v] else []
    ensures a + b + c == if j <= v then up + [v] else []
  {
    if j == v {
      assert a + b == up;
    }
  }
}
