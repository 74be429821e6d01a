/**
 `VectorWindowCache`: window data by key under a byte budget, evicting the least recently used.
 The class keeps a map, a queue of keys and a running byte count; its meaning is one list of
 (key, data) items, oldest first.
 */
module WindowCache {
  import opened Basics
  import opened ReadPlan

  type Key = Window
  type Data = seq<real>
  datatype Item = Item(key: Key, data: Data)
  datatype Entry = Entry(data: Data, bytes: nat)

  const FLOAT_BYTES: nat := 4

  function Bytes(data: Data): (b: nat)
    ensures b == 4 * |data|
  {
    |data| * FLOAT_BYTES
  }

  // ----- the recency list -------------------------------------------------------------------------------

  function Sum(items: seq<Item>): nat {
    if items == [] then 0 else Bytes(items[0].data) + Sum(items[1..])
  }

  function Without(items: seq<Item>, key: Key): seq<Item> {
    if items == [] then []
    else if items[0].key == key then Without(items[1..], key)
    else [items[0]] + Without(items[1..], key)
  }

  function Lookup(items: seq<Item>, key: Key): Option<Data> {
    if items == [] then None
    else if items[0].key == key then Some(items[0].data)
    else Lookup(items[1..], key)
  }

  /** A hit makes the key the most recent. */
  function Touch(items: seq<Item>, key: Key): seq<Item> {
    match Lookup(items, key)
    case None => items
    case Some(data) => Without(items, key) + [Item(key, data)]
  }

  /** Drops the oldest items while the list is over budget. */
  function Trim(items: seq<Item>, budget: nat): seq<Item> {
    if items == [] || Sum(items) <= budget then items else Trim(items[1..], budget)
  }

  function Accepts(budget: nat, data: Data): (ok: bool)
    ensures ok <==> 0 < 4 * |data| <= budget
  {
    0 < Bytes(data) <= budget
  }

  function Put(items: seq<Item>, budget: nat, key: Key, data: Data): seq<Item> {
    if Accepts(budget, data) then Trim(Without(items, key) + [Item(key, data)], budget) else items
  }

  /** Keys are distinct and the items fit the budget. */
  ghost predicate Sane(items: seq<Item>, budget: nat) {
    DistinctKeys(items) && Sum(items) <= budget
  }

  ghost predicate DistinctKeys(items: seq<Item>) {
    forall i, j :: 0 <= i < j < |items| ==> items[i].key != items[j].key
  }

  lemma {:induction false} SumConcat(a: seq<Item>, b: seq<Item>)
    ensures Sum(a + b) == Sum(a) + Sum(b)
  {
    if a == [] {
      assert a + b == b;
    } else {
      assert (a + b)[1..] == a[1..] + b;
      SumConcat(a[1..], b);
    }
  }

  /** Eviction removes the shortest prefix of least recent items that brings the list within budget. */
  lemma {:induction false} TrimShortest(items: seq<Item>, budget: nat)
    ensures exists n :: 0 <= n <= |items| && Trim(items, budget) == items[n..] && Sum(items[n..]) <= budget
                        && forall m :: 0 <= m < n ==> Sum(items[m..]) > budget
  {
    if items == [] || Sum(items) <= budget {
      assert items[0..] == items;
    } else {
      TrimShortest(items[1..], budget);
      var n :| 0 <= n <= |items[1..]| && Trim(items[1..], budget) == items[1..][n..] && Sum(items[1..][n..]) <= budget
               && forall m :: 0 <= m < n ==> Sum(items[1..][m..]) > budget;
      assert items[1..][n..] == items[n + 1..];
      forall m | 0 <= m < n + 1
        ensures Sum(items[m..]) > budget
      {
        if m == 0 {
          assert items[0..] == items;
        } else {
          assert items[m..] == items[1..][m - 1..];
        }
      }
    }
  }

  lemma {:induction false} TrimKeeps(items: seq<Item>, budget: nat)
    requires DistinctKeys(items)
    ensures Sane(Trim(items, budget), budget)
  {
    if items != [] && Sum(items) > budget {
      TrimKeeps(items[1..], budget);
    }
  }

  /** The most recent item survives if it fits on its own. */
  lemma {:induction false} TrimLast(items: seq<Item>, budget: nat)
    requires items != [] && Bytes(items[|items| - 1].data) <= budget
    ensures var r := Trim(items, budget); r != [] && r[|r| - 1] == items[|items| - 1]
  {
    if |items| == 1 {
      assert items == [items[0]];
      SumOne(items[0]);
    } else if Sum(items) > budget {
      TrimLast(items[1..], budget);
    }
  }

  lemma {:induction false} WithoutHas(items: seq<Item>, key: Key, x: Item)
    ensures x in Without(items, key) <==> x in items && x.key != key
  {
    if items != [] {
      WithoutHas(items[1..], key, x);
    }
  }

  lemma {:induction false} WithoutDistinct(items: seq<Item>, key: Key)
    requires DistinctKeys(items)
    ensures DistinctKeys(Without(items, key))
  {
    if items != [] {
      WithoutDistinct(items[1..], key);
      var rest := Without(items[1..], key);
      forall i | 0 <= i < |rest|
        ensures rest[i].key != items[0].key
      {
        WithoutHas(items[1..], key, rest[i]);
        var j :| 0 <= j < |items[1..]| && items[1..][j] == rest[i];
        assert items[j + 1] == rest[i];
      }
    }
  }

  lemma AppendDistinct(items: seq<Item>, key: Key, data: Data)
    requires DistinctKeys(items)
    ensures DistinctKeys(Without(items, key) + [Item(key, data)])
  {
    WithoutDistinct(items, key);
    var rest := Without(items, key);
    forall i | 0 <= i < |rest|
      ensures rest[i].key != key
    {
      WithoutHas(items, key, rest[i]);
    }
  }

  lemma {:induction false} LookupTail(items: seq<Item>, key: Key)
    requires forall i :: 0 <= i < |items| ==> items[i].key != key
    ensures Lookup(items, key) == None
  {
    if items != [] {
      LookupTail(items[1..], key);
    }
  }

  lemma {:induction false} WithoutSum(items: seq<Item>, key: Key)
    requires DistinctKeys(items)
    ensures Sum(items) == Sum(Without(items, key)) + (match Lookup(items, key) case None => 0 case Some(d) => Bytes(d))
  {
    if items != [] {
      assert forall i :: 0 <= i < |items[1..]| ==> items[1..][i].key != items[0].key;
      WithoutSum(items[1..], key);
      if items[0].key == key {
        LookupTail(items[1..], key);
      } else {
        assert ([items[0]] + Without(items[1..], key))[1..] == Without(items[1..], key);
      }
    }
  }

  lemma TouchSane(items: seq<Item>, budget: nat, key: Key)
    requires Sane(items, budget)
    ensures Sane(Touch(items, key), budget) && Sum(Touch(items, key)) == Sum(items)
  {
    match Lookup(items, key)
    case None =>
    case Some(data) =>
      AppendDistinct(items, key, data);
      WithoutSum(items, key);
      hide DistinctKeys, Without, Lookup;
      SumConcat(Without(items, key), [Item(key, data)]);
  }

  lemma PutSane(items: seq<Item>, budget: nat, key: Key, data: Data)
    requires Sane(items, budget)
    ensures Sane(Put(items, budget, key, data), budget)
  {
    hide Trim, Without, Sum;
    AppendDistinct(items, key, data);
    TrimKeeps(Without(items, key) + [Item(key, data)], budget);
  }

  lemma {:induction false} LookupIs(items: seq<Item>, i: nat)
    requires DistinctKeys(items) && i < |items|
    ensures Lookup(items, items[i].key) == Some(items[i].data)
  {
    if i > 0 {
      LookupIs(items[1..], i - 1);
    }
  }

  /** Whenever a value is accepted, it is cached afterwards, as the most recent item. */
  lemma AcceptedSurvives(items: seq<Item>, budget: nat, key: Key, data: Data)
    requires Sane(items, budget) && Accepts(budget, data)
    ensures Lookup(Put(items, budget, key, data), key) == Some(data)
  {
    hide Trim, Without, Sum, Lookup;
    TrimLast(Without(items, key) + [Item(key, data)], budget);
    PutSane(items, budget, key, data);
    var r := Put(items, budget, key, data);
    LookupIs(r, |r| - 1);
  }

  // ----- runs ---------------------------------------------------------------------------------------------

  datatype Op = Get(key: Key) | Insert(key: Key, data: Data)

  function Step(items: seq<Item>, budget: nat, op: Op): seq<Item> {
    match op
    case Get(key) => Touch(items, key)
    case Insert(key, data) => Put(items, budget, key, data)
  }

  function Run(budget: nat, ops: seq<Op>): seq<Item> {
    if ops == [] then [] else Step(Run(budget, ops[..|ops| - 1]), budget, ops[|ops| - 1])
  }

  /** The last accepted value for a key. */
  function LastAccepted(budget: nat, ops: seq<Op>, key: Key): Option<Data> {
    if ops == [] then None
    else
      var op := ops[|ops| - 1];
      if op.Insert? && op.key == key && Accepts(budget, op.data) then Some(op.data)
      else LastAccepted(budget, ops[..|ops| - 1], key)
  }

  lemma {:induction false} LookupIn(items: seq<Item>, key: Key)
    requires Lookup(items, key).Some?
    ensures Item(key, Lookup(items, key).value) in items
  {
    if items[0].key != key {
      LookupIn(items[1..], key);
    }
  }

  lemma {:induction false} TrimIn(items: seq<Item>, budget: nat, x: Item)
    requires x in Trim(items, budget)
    ensures x in items
  {
    if items != [] && Sum(items) > budget {
      TrimIn(items[1..], budget, x);
    }
  }

  lemma StepIn(items: seq<Item>, budget: nat, op: Op, x: Item)
    requires x in Step(items, budget, op)
    ensures (x in items && !(op.Insert? && op.key == x.key && Accepts(budget, op.data)))
            || (op.Insert? && Accepts(budget, op.data) && x == Item(op.key, op.data))
  {
    hide Trim, Without, Lookup;
    WithoutHas(items, op.key, x);
    match op
    case Get(key) =>
      if Lookup(items, key).Some? {
        LookupIn(items, key);
      }
    case Insert(key, data) =>
      if Accepts(budget, data) {
        TrimIn(Without(items, key) + [Item(key, data)], budget, x);
      }
  }

  /** In every run the items are within budget with distinct keys, and each holds its key's last accepted value. */
  lemma {:induction false} RunFresh(budget: nat, ops: seq<Op>)
    ensures Sane(Run(budget, ops), budget)
    ensures forall x :: x in Run(budget, ops) ==> LastAccepted(budget, ops, x.key) == Some(x.data)
  {
    if ops != [] {
      var before, op := ops[..|ops| - 1], ops[|ops| - 1];
      RunFresh(budget, before);
      var items := Run(budget, before);
      forall x | x in Run(budget, ops)
        ensures LastAccepted(budget, ops, x.key) == Some(x.data)
      {
        StepIn(items, budget, op, x);
      }
      hide Sane;
      match op
      case Get(key) => TouchSane(items, budget, key);
      case Insert(key, data) => PutSane(items, budget, key, data);
    }
  }

  /** A hit returns the last accepted value of its key, and right after an accepted insert there is a hit. */
  lemma HitIsLast(budget: nat, ops: seq<Op>, key: Key)
    ensures Lookup(Run(budget, ops), key).Some? ==> Lookup(Run(budget, ops), key) == LastAccepted(budget, ops, key)
    ensures ops != [] && ops[|ops| - 1].Insert? && ops[|ops| - 1].key == key && Accepts(budget, ops[|ops| - 1].data)
            ==> Lookup(Run(budget, ops), key) == Some(ops[|ops| - 1].data)
  {
    RunFresh(budget, ops);
    if Lookup(Run(budget, ops), key).Some? {
      LookupIn(Run(budget, ops), key);
    }
    if ops != [] && ops[|ops| - 1].Insert? && Accepts(budget, ops[|ops| - 1].data) {
      var before := ops[..|ops| - 1];
      RunFresh(budget, before);
      AcceptedSurvives(Run(budget, before), budget, ops[|ops| - 1].key, ops[|ops| - 1].data);
    }
  }

  // ----- recency ----------------------------------------------------------------------------------------

  /** The number of operations up to the last one that used the key: a lookup, or an accepted insert. */
  function LastUse(budget: nat, ops: seq<Op>, key: Key): nat {
    if ops == [] then 0
    else
      var op := ops[|ops| - 1];
      if op.key == key && (op.Get? || 0 < 4 * |op.data| <= budget) then |ops|
      else LastUse(budget, ops[..|ops| - 1], key)
  }

  lemma {:induction false} LastUseWithin(budget: nat, ops: seq<Op>, key: Key)
    ensures LastUse(budget, ops, key) <= |ops|
  {
    if ops != [] {
      LastUseWithin(budget, ops[..|ops| - 1], key);
    }
  }

  /** Least recently used first. */
  ghost predicate ByUse(budget: nat, ops: seq<Op>, items: seq<Item>) {
    forall i, j :: 0 <= i < j < |items| ==> LastUse(budget, ops, items[i].key) < LastUse(budget, ops, items[j].key)
  }

  lemma {:induction false} WithoutByUse(budget: nat, ops: seq<Op>, items: seq<Item>, key: Key)
    requires ByUse(budget, ops, items)
    ensures ByUse(budget, ops, Without(items, key))
  {
    hide LastUse;
    if items != [] {
      var rest := Without(items[1..], key);
      assert ByUse(budget, ops, items[1..]);
      WithoutByUse(budget, ops, items[1..], key);
      if items[0].key != key {
        forall i | 0 <= i < |rest|
          ensures LastUse(budget, ops, items[0].key) < LastUse(budget, ops, rest[i].key)
        {
          WithoutHas(items[1..], key, rest[i]);
          var m :| 0 <= m < |items[1..]| && items[1..][m] == rest[i];
          assert items[m + 1] == rest[i];
        }
      }
    }
  }

  /** Using a key puts it last; the uses of the others are unchanged. */
  lemma UsedLast(budget: nat, ops: seq<Op>, items: seq<Item>, x: Item)
    requires ops != [] && ByUse(budget, ops[..|ops| - 1], items)
    requires ops[|ops| - 1].key == x.key && (ops[|ops| - 1].Get? || Accepts(budget, ops[|ops| - 1].data))
    ensures ByUse(budget, ops, Without(items, x.key) + [x])
  {
    var before, rest := ops[..|ops| - 1], Without(items, x.key);
    WithoutByUse(budget, before, items, x.key);
    forall i | 0 <= i < |rest|
      ensures rest[i].key != x.key && LastUse(budget, ops, rest[i].key) == LastUse(budget, before, rest[i].key) < |ops|
    {
      WithoutHas(items, x.key, rest[i]);
      LastUseWithin(budget, before, rest[i].key);
    }
    hide Without;
    assert LastUse(budget, ops, x.key) == |ops|;
  }

  lemma SuffixByUse(budget: nat, ops: seq<Op>, items: seq<Item>, n: nat)
    requires ByUse(budget, ops, items) && n <= |items|
    ensures ByUse(budget, ops, items[n..])
  {
    hide LastUse;
  }

  /** An operation that uses no cached key leaves the order of uses alone. */
  lemma UnusedByUse(budget: nat, ops: seq<Op>, items: seq<Item>)
    requires ops != [] && ByUse(budget, ops[..|ops| - 1], items)
    requires var op := ops[|ops| - 1];
             (op.Insert? && !Accepts(budget, op.data)) || forall i :: 0 <= i < |items| ==> items[i].key != op.key
    ensures ByUse(budget, ops, items)
  {
    assert forall i :: 0 <= i < |items| ==> LastUse(budget, ops, items[i].key) == LastUse(budget, ops[..|ops| - 1], items[i].key);
  }

  /** Over every run, the cached keys stand in the order of their last use. */
  lemma {:induction false} RunByUse(budget: nat, ops: seq<Op>)
    ensures ByUse(budget, ops, Run(budget, ops))
  {
    if ops != [] {
      var before, op := ops[..|ops| - 1], ops[|ops| - 1];
      RunByUse(budget, before);
      var items := Run(budget, before);
      hide ByUse, Without, Trim, Lookup, LastUse;
      match op
      case Get(key) =>
        if Lookup(items, key).Some? {
          UsedLast(budget, ops, items, Item(key, Lookup(items, key).value));
        } else {
          KeysHave(items, key);
          UnusedByUse(budget, ops, items);
        }
      case Insert(key, data) =>
        if Accepts(budget, data) {
          var more := Without(items, key) + [Item(key, data)];
          UsedLast(budget, ops, items, Item(key, data));
          TrimShortest(more, budget);
          var n :| 0 <= n <= |more| && Trim(more, budget) == more[n..];
          SuffixByUse(budget, ops, more, n);
        } else {
          UnusedByUse(budget, ops, items);
        }
    }
  }

  /** A lookup drops and adds nothing. */
  lemma GetKeeps(budget: nat, ops: seq<Op>, key: Key, x: Item)
    ensures x in Run(budget, ops + [Get(key)]) <==> x in Run(budget, ops)
  {
    var items, all := Run(budget, ops), ops + [Get(key)];
    assert all[..|all| - 1] == ops && all[|all| - 1] == Get(key);
    RunFresh(budget, ops);
    hide Run, Without, Lookup, LastAccepted;
    WithoutHas(items, key, x);
    if Lookup(items, key).Some? {
      LookupIn(items, key);
      if x in items {
        var i :| 0 <= i < |items| && items[i] == x;
        LookupIs(items, i);
      }
    }
  }

  /** `x` was the last item to go: what is left had no room for it, and kept are exactly the items used after it. */
  ghost predicate LastOut(budget: nat, ops: seq<Op>, key: Key, before: seq<Item>, after: seq<Item>, x: Item) {
    && x in before && x.key != key && Sum(after) + 4 * |x.data| > budget
    && forall y :: y in before && y.key != key ==> (y in after <==> LastUse(budget, ops, x.key) < LastUse(budget, ops, y.key))
  }

  /**
   An insert that fits keeps every other item, or drops the least recently used ones and no more than
   it has to; one that does not fit changes nothing.
   */
  lemma InsertEvicts(budget: nat, ops: seq<Op>, key: Key, data: Data, before: seq<Item>, after: seq<Item>)
    requires before == Run(budget, ops) && after == Run(budget, ops + [Insert(key, data)])
    ensures !(0 < 4 * |data| <= budget) ==> after == before
    ensures 0 < 4 * |data| <= budget ==>
            (&& Item(key, data) in after
             && (forall y :: y in after ==> y == Item(key, data) || (y in before && y.key != key))
             && ((forall y :: y in before && y.key != key ==> y in after)
                 || exists x :: LastOut(budget, ops, key, before, after, x)))
  {
    var all := ops + [Insert(key, data)];
    assert all[..|all| - 1] == ops && all[|all| - 1] == Insert(key, data);
    RunByUse(budget, ops);
    hide Run, Without, Trim, ByUse, LastUse, LastOut;
    if Accepts(budget, data) {
      var rest := Without(before, key);
      WithoutByUse(budget, ops, before, key);
      forall y
        ensures y in rest <==> y in before && y.key != key
      {
        WithoutHas(before, key, y);
      }
      TrimLast(rest + [Item(key, data)], budget);
      TrimShortest(rest + [Item(key, data)], budget);
      var n :| 0 <= n <= |rest| + 1 && after == (rest + [Item(key, data)])[n..]
               && forall m :: 0 <= m < n ==> Sum((rest + [Item(key, data)])[m..]) > budget;
      hide Sum;
      SuffixHas(rest, Item(key, data), n);
      if n > 0 {
        Evicted(budget, ops, key, before, rest, Item(key, data), n);
      }
    }
  }

  lemma SuffixHas(rest: seq<Item>, added: Item, n: nat)
    requires n <= |rest|
    ensures var after := (rest + [added])[n..]; added in after && forall y :: y in after ==> y == added || y in rest
  {
    var after := (rest + [added])[n..];
    assert after[|rest| - n] == added;
  }

  lemma Evicted(budget: nat, ops: seq<Op>, key: Key, before: seq<Item>, rest: seq<Item>, added: Item, n: nat)
    requires ByUse(budget, ops, rest) && (forall y :: y in rest <==> y in before && y.key != key) && added.key == key
    requires 0 < n <= |rest| && Sum((rest + [added])[n - 1..]) > budget
    ensures LastOut(budget, ops, key, before, (rest + [added])[n..], rest[n - 1])
  {
    var items, x := rest + [added], rest[n - 1];
    assert items[n - 1..][1..] == items[n..];
    SumHead(items[n - 1..]);
    hide Sum, LastUse, ByUse;
    forall y | y in before && y.key != key
      ensures y in items[n..] <==> LastUse(budget, ops, x.key) < LastUse(budget, ops, y.key)
    {
      var i :| 0 <= i < |rest| && rest[i] == y;
      KeptFrom(budget, ops, rest, added, n, i);
    }
    assert x in before && x.key != key;
    KeptFrom(budget, ops, rest, added, n, n - 1);
  }

  lemma KeptFrom(budget: nat, ops: seq<Op>, rest: seq<Item>, added: Item, n: nat, i: nat)
    requires ByUse(budget, ops, rest) && 0 < n <= |rest| && i < |rest| && rest[i].key != added.key
    ensures rest[i] in (rest + [added])[n..] <==> LastUse(budget, ops, rest[n - 1].key) < LastUse(budget, ops, rest[i].key)
  {
    hide LastUse;
    var after := (rest + [added])[n..];
    if i >= n {
      assert after[i - n] == rest[i];
    } else {
      forall j | 0 <= j < |after|
        ensures after[j] != rest[i]
      {
        assert n + j < |rest| ==> after[j] == rest[n + j];
      }
    }
  }

  /** The last value offered for a key, accepted or not. */
  function LastOffered(ops: seq<Op>, key: Key): Option<Data> {
    if ops == [] then None
    else
      var op := ops[|ops| - 1];
      if op.Insert? && op.key == key then Some(op.data) else LastOffered(ops[..|ops| - 1], key)
  }

  lemma {:induction false} OfferedAccepted(budget: nat, ops: seq<Op>, key: Key)
    requires LastAccepted(budget, ops, key).Some?
    ensures Accepts(budget, LastAccepted(budget, ops, key).value) && LastOffered(ops, key).Some?
    ensures Accepts(budget, LastOffered(ops, key).value) ==> LastAccepted(budget, ops, key) == LastOffered(ops, key)
  {
    var op := ops[|ops| - 1];
    if !(op.Insert? && op.key == key && Accepts(budget, op.data)) {
      OfferedAccepted(budget, ops[..|ops| - 1], key);
    }
  }

  /** A hit returns the last value offered for its key if and only if that value was acceptable. */
  lemma HitIsLastOfferedIff(budget: nat, ops: seq<Op>, key: Key)
    requires Lookup(Run(budget, ops), key).Some?
    ensures LastOffered(ops, key).Some?
    ensures Lookup(Run(budget, ops), key) == LastOffered(ops, key) <==> Accepts(budget, LastOffered(ops, key).value)
  {
    hide Run, Lookup, LastAccepted, LastOffered;
    HitIsLast(budget, ops, key);
    OfferedAccepted(budget, ops, key);
  }

  /**
   A refused insert leaves an older value behind: after a value is cached and a replacement
   larger than the budget is offered, the old value is still returned.
   */
  lemma RefusedReplacement(key: Key)
    ensures var ops := [Insert(key, [1.0]), Insert(key, [2.0, 3.0])];
            Lookup(Run(4, ops), key) == Some([1.0])
  {
    var ops := [Insert(key, [1.0]), Insert(key, [2.0, 3.0])];
    assert ops[..1][..0] == [] && ops[..1] == [Insert(key, [1.0])];
    assert !Accepts(4, [2.0, 3.0]);
    assert Run(4, ops) == Run(4, ops[..1]);
    HitIsLast(4, ops[..1], key);
  }

  // ----- the class ------------------------------------------------------------------------------------------

  function WithoutKey(order: seq<Key>, key: Key): seq<Key> {
    if order == [] then []
    else if order[0] == key then WithoutKey(order[1..], key)
    else [order[0]] + WithoutKey(order[1..], key)
  }

  function KeysOf(items: seq<Item>): seq<Key> {
    if items == [] then [] else [items[0].key] + KeysOf(items[1..])
  }

  lemma {:induction false} KeysWithout(items: seq<Item>, key: Key)
    ensures KeysOf(Without(items, key)) == WithoutKey(KeysOf(items), key)
  {
    if items != [] {
      KeysWithout(items[1..], key);
      assert KeysOf(items)[1..] == KeysOf(items[1..]);
      if items[0].key != key {
        assert ([items[0]] + Without(items[1..], key))[1..] == Without(items[1..], key);
      }
    }
  }

  lemma {:induction false} KeysAppend(items: seq<Item>, x: Item)
    ensures KeysOf(items + [x]) == KeysOf(items) + [x.key]
  {
    if items == [] {
      assert items + [x] == [x];
    } else {
      assert (items + [x])[1..] == items[1..] + [x];
      KeysAppend(items[1..], x);
    }
  }

  lemma {:induction false} KeysHave(items: seq<Item>, key: Key)
    ensures key in KeysOf(items) <==> Lookup(items, key).Some?
    ensures Lookup(items, key) == None <==> forall i :: 0 <= i < |items| ==> items[i].key != key
  {
    if items != [] {
      KeysHave(items[1..], key);
      assert forall i :: 0 < i < |items| ==> items[i] == items[1..][i - 1];
    }
  }

  /** The map holds exactly the items, with their sizes. */
  ghost predicate Holds(entries: map<Key, Entry>, items: seq<Item>) {
    forall key :: HoldsAt(entries, items, key)
  }

  ghost predicate HoldsAt(entries: map<Key, Entry>, items: seq<Item>, key: Key) {
    match Lookup(items, key)
    case None => key !in entries
    case Some(data) => key in entries && entries[key] == Entry(data, Bytes(data))
  }

  lemma {:induction false} LookupWithout(items: seq<Item>, key: Key, k: Key)
    ensures Lookup(Without(items, key), k) == if k == key then None else Lookup(items, k)
  {
    if items != [] {
      LookupWithout(items[1..], key, k);
      if items[0].key != key {
        assert ([items[0]] + Without(items[1..], key))[1..] == Without(items[1..], key);
      }
    }
  }

  lemma {:induction false} LookupAppend(items: seq<Item>, x: Item, k: Key)
    ensures Lookup(items + [x], k) == if Lookup(items, k).Some? then Lookup(items, k) else if k == x.key then Some(x.data) else None
  {
    if items == [] {
      assert items + [x] == [x];
    } else {
      assert (items + [x])[1..] == items[1..] + [x];
      LookupAppend(items[1..], x, k);
    }
  }

  lemma HoldsMoved(entries: map<Key, Entry>, items: seq<Item>, key: Key, data: Data)
    requires Holds(entries, items)
    ensures Holds(entries[key := Entry(data, Bytes(data))], Without(items, key) + [Item(key, data)])
  {
    var entries', items' := entries[key := Entry(data, Bytes(data))], Without(items, key) + [Item(key, data)];
    hide Without, Lookup;
    forall k
      ensures HoldsAt(entries', items', k)
    {
      assert HoldsAt(entries, items, k);
      LookupWithout(items, key, k);
      LookupAppend(Without(items, key), Item(key, data), k);
    }
  }

  lemma HoldsTail(entries: map<Key, Entry>, items: seq<Item>)
    requires Holds(entries, items) && DistinctKeys(items) && items != []
    ensures Holds(entries - {items[0].key}, items[1..])
    ensures items[0].key in entries && entries[items[0].key] == Entry(items[0].data, Bytes(items[0].data))
  {
    assert HoldsAt(entries, items, items[0].key);
    forall k
      ensures HoldsAt(entries - {items[0].key}, items[1..], k)
    {
      assert HoldsAt(entries, items, k);
      if k == items[0].key {
        LookupTail(items[1..], k);
      }
    }
  }

  class VectorWindowCache {
    const budget: nat
    var used: nat
    var entries: map<Key, Entry>
    var order: seq<Key>
    ghost var items: seq<Item>

    /** `order` lists the cached keys without repetition, oldest first, and `used` is their exact size. */
    ghost predicate Tied()
      reads this
    {
      DistinctKeys(items) && KeysOf(items) == order && Holds(entries, items) && used == Sum(items)
    }

    ghost predicate Valid()
      reads this
    {
      Tied() && used <= budget
    }

    constructor (budget: nat)
      ensures Valid() && this.budget == budget && items == []
    {
      this.budget := budget;
      used, entries, order, items := 0, map[], [], [];
    }

    method Get(key: Key) returns (r: Option<Data>)
      requires Valid()
      modifies this
      ensures Valid()
      ensures r == Lookup(old(items), key) && items == Touch(old(items), key)
    {
      hide Without, Lookup, DistinctKeys, Sum;
      assert HoldsAt(entries, items, key);
      if key in entries {
        var data := entries[key].data;
        TouchSane(items, budget, key);
        HoldsMoved(entries, items, key, data);
        assert entries[key := Entry(data, Bytes(data))] == entries;
        KeysWithout(items, key);
        KeysAppend(Without(items, key), Item(key, data));
        hide Holds;
        items := Touch(items, key);
        order := WithoutKey(order, key) + [key];
        r := Some(data);
      } else {
        r := None;
      }
    }

    method Insert(key: Key, data: Data)
      requires Valid()
      modifies this
      ensures Valid()
      ensures items == Put(old(items), budget, key, data)
    {
      hide Without, Lookup, DistinctKeys, Sum, Trim;
      var bytes := Bytes(data);
      if bytes == 0 || bytes > budget {
        return;
      }
      assert HoldsAt(entries, items, key);
      HoldsMoved(entries, items, key, data);
      KeysWithout(items, key);
      KeysAppend(Without(items, key), Item(key, data));
      WithoutSum(items, key);
      AppendDistinct(items, key, data);
      SumConcat(Without(items, key), [Item(key, data)]);
      SumOne(Item(key, data));
      if key in entries {
        used := used - entries[key].bytes;
        entries := entries - {key};
        order := WithoutKey(order, key);
      } else {
        KeysHave(items, key);
        NoKey(order, key);
      }
      items := Without(items, key) + [Item(key, data)];
      assert entries[key := Entry(data, bytes)] == old(entries)[key := Entry(data, bytes)];
      entries := entries[key := Entry(data, bytes)];
      order := order + [key];
      used := used + bytes;
      EvictToBudget();
    }

    method EvictToBudget()
      requires Tied()
      modifies this
      ensures Valid() && items == Trim(old(items), budget)
    {
      hide DistinctKeys, Holds, Sum;
      while used > budget && order != []
        invariant Tied() && Trim(items, budget) == Trim(old(items), budget)
        decreases |order|
      {
        NonEmpty(items);
        var victim := order[0];
        HoldsTail(entries, items);
        DistinctTail(items);
        SumHead(items);
        order := order[1..];
        if victim in entries {
          used := used - entries[victim].bytes;
          entries := entries - {victim};
        }
        items := items[1..];
      }
      SumNone();
    }
  }

  lemma SumOne(x: Item)
    ensures Sum([x]) == Bytes(x.data)
  {
  }

  lemma SumNone()
    ensures Sum([]) == 0
  {
  }

  lemma SumHead(items: seq<Item>)
    requires items != []
    ensures Sum(items) == Bytes(items[0].data) + Sum(items[1..])
  {
  }

  lemma NonEmpty(items: seq<Item>)
    requires KeysOf(items) != []
    ensures items != [] && KeysOf(items)[0] == items[0].key && KeysOf(items)[1..] == KeysOf(items[1..])
  {
  }

  lemma DistinctTail(items: seq<Item>)
    requires DistinctKeys(items) && items != []
    ensures DistinctKeys(items[1..])
  {
  }

  lemma {:induction false} NoKey(order: seq<Key>, key: Key)
    requires key !in order
    ensures WithoutKey(order, key) == order
  {
    if order != [] {
      NoKey(order[1..], key);
    }
  }
}
