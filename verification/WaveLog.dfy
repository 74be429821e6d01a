/**
 A record of which candidates a wavefront run offers to which rows: as a seed, or as an active lane
 of a block pair or of a diagonal block. Offers are counted, so a pair met twice would show.
 */
module WaveLog {

  datatype Meeting = Meeting(row: nat, candidate: nat)

  type Log = multiset<Meeting>

  /** How often the log holds row `a` meeting candidate `c`. */
  ghost function Times(log: Log, a: nat, c: nat): nat {
    log[Meeting(a, c)]
  }

  ghost function Once(p: bool): nat {
    if p then 1 else 0
  }

  ghost function RowMeetings(row: nat, start: nat, mask: set<nat>): (s: set<Meeting>)
    ensures forall a: nat, c: nat :: Meeting(a, c) in s <==> (a == row && start <= c && c - start in mask)
  {
    var s := set l | l in mask :: Meeting(row, start + l);
    assert forall l :: l in mask ==> Meeting(row, start + l) in s;
    s
  }

  /** The active lanes of consecutive rows: row `from + i` meets candidate `start + l` for each l of mask i. */
  ghost function MaskMeetings(from: nat, start: nat, masks: seq<set<nat>>): (s: set<Meeting>)
    ensures forall a: nat, c: nat :: Meeting(a, c) in s <==>
              (from <= a < from + |masks| && start <= c && c - start in masks[a - from])
  {
    if masks == [] then {}
    else
      var last := |masks| - 1;
      MaskMeetings(from, start, masks[..last]) + RowMeetings(from + last, start, masks[last])
  }

  /** The same pairs seen from the candidates' side. */
  ghost function Flip(s: set<Meeting>): (r: set<Meeting>)
    ensures forall a: nat, c: nat :: Meeting(a, c) in r <==> Meeting(c, a) in s
  {
    var r := set m | m in s :: Meeting(m.candidate, m.row);
    assert forall a: nat, c: nat :: Meeting(c, a) in s ==> Meeting(Meeting(c, a).candidate, Meeting(c, a).row) in r;
    r
  }

  lemma TimesAdd(log: Log, s: set<Meeting>, a: nat, c: nat)
    ensures Times(log + multiset(s), a, c) == Times(log, a, c) + Once(Meeting(a, c) in s)
  {
  }

  /** The log of the seeding: exactly the seeded pairs, each direction once. */
  ghost predicate SeedsLogged(log: Log, seeds: seq<set<nat>>) {
    forall a: nat, c: nat :: Times(log, a, c) == Once(a < |seeds| && c in seeds[a])
  }

  /** Seeding an unseeded pair logs it once in each direction. */
  lemma SeedLogged(log: Log, seeds: seq<set<nat>>, left: nat, right: nat)
    requires SeedsLogged(log, seeds) && left < right < |seeds| && right !in seeds[left] && left !in seeds[right]
    ensures var s := seeds[left := seeds[left] + {right}];
            SeedsLogged(log + multiset({Meeting(left, right), Meeting(right, left)}), s[right := seeds[right] + {left}])
  {
    var pair := {Meeting(left, right), Meeting(right, left)};
    var s := seeds[left := seeds[left] + {right}];
    var seeds' := s[right := seeds[right] + {left}];
    forall a: nat, c: nat
      ensures Times(log + multiset(pair), a, c) == Once(a < |seeds'| && c in seeds'[a])
    {
      TimesAdd(log, pair, a, c);
      assert Times(log, a, c) == Once(a < |seeds| && c in seeds[a]);
    }
  }
}
