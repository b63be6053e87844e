/**
 What one shard of the engine means: its entries from least to most recently used.

 Each operation on such a list is what the index-linked arena of hkv-engine/src/memory.rs has to
 implement; Shard.dfy proves that it does.
 */
module Recency {
  import opened Base

  datatype Entry = Entry(key: Bytes, value: Bytes, deadline: Option<nat>)

  type Recent = seq<Entry>

  predicate Expired(e: Entry, now: nat) {
    e.deadline.Some? && now >= e.deadline.value
  }

  function Size(e: Entry): nat {
    |e.key| + |e.value|
  }

  function TotalSize(l: Recent): nat {
    if l == [] then 0 else Size(l[0]) + TotalSize(l[1..])
  }

  function Find(l: Recent, key: Bytes): (r: Option<Entry>)
    ensures r.Some? ==> r.value.key == key
  {
    if l == [] then None else if l[0].key == key then Some(l[0]) else Find(l[1..], key)
  }

  predicate DistinctKeys(l: Recent) {
    l == [] || (Find(l[1..], l[0].key).None? && DistinctKeys(l[1..]))
  }

  // The entry a reader at `now` may see.
  function Live(l: Recent, key: Bytes, now: nat): Option<Entry> {
    match Find(l, key)
    case Some(e) => if Expired(e, now) then None else Some(e)
    case None => None
  }

  function Without(l: Recent, key: Bytes): Recent
  {
    if l == [] then [] else (if l[0].key == key then [] else [l[0]]) + Without(l[1..], key)
  }

  function Survivors(l: Recent, now: nat): Recent
  {
    if l == [] then [] else (if Expired(l[0], now) then [] else [l[0]]) + Survivors(l[1..], now)
  }

  function ExpiredCount(l: Recent, now: nat): nat {
    if l == [] then 0 else (if Expired(l[0], now) then 1 else 0) + ExpiredCount(l[1..], now)
  }

  function WithDeadline(l: Recent, key: Bytes, deadline: nat): Recent {
    if l == [] then []
    else [if l[0].key == key then l[0].(deadline := Some(deadline)) else l[0]] + WithDeadline(l[1..], key, deadline)
  }

  // ---------------------------------------------------------------------------------------
  // The operations. `now` is the clock reading each of them takes.

  datatype TtlStatus = Missing | NoExpiry | ExpiresIn(remaining: nat)

  // `Overflowed`: the deadline is not a point in time an Instant can hold; computing it panics and
  // leaves the entry as it was.
  datatype ExpireResult = Applied | NotFound | Overflowed

  function GetIn(l: Recent, key: Bytes, now: nat): (Recent, Option<Bytes>) {
    match Live(l, key, now)
    case None => (Without(l, key), None)
    case Some(e) => (Without(l, key) + [e], Some(e.value))
  }

  function SetIn(l: Recent, key: Bytes, value: Bytes): Recent {
    Without(l, key) + [Entry(key, value, None)]
  }

  function DeleteIn(l: Recent, key: Bytes, now: nat): (Recent, bool) {
    (Without(l, key), Live(l, key, now).Some?)
  }

  function ExpireIn(l: Recent, key: Bytes, ttl: nat, now: nat): (Recent, ExpireResult) {
    if Live(l, key, now).None? then (Without(l, key), NotFound)
    else if now + ttl > INSTANT_MAX then (l, Overflowed)
    else (WithDeadline(l, key, now + ttl), Applied)
  }

  function TtlIn(l: Recent, key: Bytes, now: nat): (Recent, TtlStatus) {
    match Live(l, key, now)
    case None => (Without(l, key), Missing)
    case Some(e) => (l, if e.deadline.None? then NoExpiry else ExpiresIn(e.deadline.value - now))
  }

  // ---------------------------------------------------------------------------------------
  // How they move through a list with distinct keys.

  lemma {:induction false} FindNone(l: Recent, key: Bytes, i: nat)
    requires Find(l, key).None? && i < |l|
    ensures l[i].key != key
  {
    if i > 0 {
      FindNone(l[1..], key, i - 1);
    }
  }

  lemma {:induction false} AbsentFromAll(l: Recent, key: Bytes)
    requires forall i :: 0 <= i < |l| ==> l[i].key != key
    ensures Find(l, key).None?
  {
    if l != [] {
      AbsentFromAll(l[1..], key);
    }
  }

  // Keys that differ pairwise are distinct.
  lemma {:induction false} PairwiseDistinct(l: Recent)
    requires forall i, j :: 0 <= i < j < |l| ==> l[i].key != l[j].key
    ensures DistinctKeys(l)
  {
    if l != [] {
      AbsentFromAll(l[1..], l[0].key);
      PairwiseDistinct(l[1..]);
    }
  }

  lemma {:induction false} WithDeadlineAbsent(l: Recent, key: Bytes, deadline: nat)
    requires Find(l, key).None?
    ensures WithDeadline(l, key, deadline) == l
  {
    if l != [] {
      WithDeadlineAbsent(l[1..], key, deadline);
    }
  }

  lemma {:induction false} WithDeadlineAt(l: Recent, p: nat, deadline: nat)
    requires DistinctKeys(l) && p < |l|
    ensures WithDeadline(l, l[p].key, deadline) == l[p := l[p].(deadline := Some(deadline))]
  {
    if p == 0 {
      WithDeadlineAbsent(l[1..], l[0].key, deadline);
    } else {
      FindNone(l[1..], l[0].key, p - 1);
      WithDeadlineAt(l[1..], p - 1, deadline);
      var e := l[p].(deadline := Some(deadline));
      assert l[p := e] == [l[0]] + l[1..][p - 1 := e];
    }
  }

  lemma {:induction false} FindAt(l: Recent, p: nat)
    requires DistinctKeys(l) && p < |l|
    ensures Find(l, l[p].key) == Some(l[p])
  {
    if p > 0 {
      FindNone(l[1..], l[0].key, p - 1);
      FindAt(l[1..], p - 1);
    }
  }

  lemma {:induction false} WithoutAbsent(l: Recent, key: Bytes)
    requires Find(l, key).None?
    ensures Without(l, key) == l
  {
    if l != [] {
      WithoutAbsent(l[1..], key);
    }
  }

  lemma {:induction false} WithoutAt(l: Recent, p: nat)
    requires DistinctKeys(l) && p < |l|
    ensures Without(l, l[p].key) == DropAt(l, p)
  {
    if p == 0 {
      WithoutAbsent(l[1..], l[0].key);
    } else {
      FindNone(l[1..], l[0].key, p - 1);
      WithoutAt(l[1..], p - 1);
      assert l[1..][..p - 1] == l[1..p];
      assert [l[0]] + (l[1..p] + l[p + 1..]) == l[..p] + l[p + 1..];
    }
  }

  lemma {:induction false} FindWithout(l: Recent, key: Bytes, other: Bytes)
    ensures Find(Without(l, key), other) == if other == key then None else Find(l, other)
  {
    if l != [] {
      FindWithout(l[1..], key, other);
      var w := Without(l[1..], key);
      assert Without(l, key) == if l[0].key == key then w else [l[0]] + w;
      assert ([l[0]] + w)[1..] == w;
    }
  }

  lemma {:induction false} FindAppend(a: Recent, b: Recent, key: Bytes)
    ensures Find(a + b, key) == if Find(a, key).Some? then Find(a, key) else Find(b, key)
  {
    if a == [] {
      assert a + b == b;
    } else {
      assert (a + b)[1..] == a[1..] + b;
      FindAppend(a[1..], b, key);
    }
  }

  lemma {:induction false} FindWithDeadline(l: Recent, key: Bytes, deadline: nat, other: Bytes)
    ensures Find(WithDeadline(l, key, deadline), other) ==
            if other == key && Find(l, key).Some? then Some(Find(l, key).value.(deadline := Some(deadline)))
            else Find(l, other)
  {
    if l != [] {
      FindWithDeadline(l[1..], key, deadline, other);
    }
  }

  lemma {:induction false} FindSurvivor(l: Recent, now: nat, key: Bytes)
    requires DistinctKeys(l)
    ensures Find(Survivors(l, now), key) == Live(l, key, now)
  {
    if l != [] {
      FindSurvivor(l[1..], now, key);
      var w := Survivors(l[1..], now);
      assert Survivors(l, now) == if Expired(l[0], now) then w else [l[0]] + w;
      assert ([l[0]] + w)[1..] == w;
    }
  }

  lemma {:induction false} WithoutDistinct(l: Recent, key: Bytes)
    requires DistinctKeys(l)
    ensures DistinctKeys(Without(l, key))
  {
    if l != [] {
      WithoutDistinct(l[1..], key);
      FindWithout(l[1..], key, l[0].key);
      var w := Without(l[1..], key);
      assert Without(l, key) == if l[0].key == key then w else [l[0]] + w;
      assert ([l[0]] + w)[1..] == w;
    }
  }

  lemma {:induction false} SurvivorsDistinct(l: Recent, now: nat)
    requires DistinctKeys(l)
    ensures DistinctKeys(Survivors(l, now))
  {
    if l != [] {
      SurvivorsDistinct(l[1..], now);
      FindSurvivor(l[1..], now, l[0].key);
      var w := Survivors(l[1..], now);
      assert Survivors(l, now) == if Expired(l[0], now) then w else [l[0]] + w;
      assert ([l[0]] + w)[1..] == w;
    }
  }

  lemma {:induction false} WithDeadlineDistinct(l: Recent, key: Bytes, deadline: nat)
    requires DistinctKeys(l)
    ensures DistinctKeys(WithDeadline(l, key, deadline))
  {
    if l != [] {
      WithDeadlineDistinct(l[1..], key, deadline);
      FindWithDeadline(l[1..], key, deadline, l[0].key);
    }
  }

  lemma {:induction false} AppendDistinct(l: Recent, e: Entry)
    requires DistinctKeys(l) && Find(l, e.key).None?
    ensures DistinctKeys(l + [e])
  {
    if l == [] {
      assert (l + [e])[1..] == [];
    } else {
      assert (l + [e])[1..] == l[1..] + [e];
      AppendDistinct(l[1..], e);
      FindAppend(l[1..], [e], l[0].key);
      assert [e][1..] == [];
    }
  }

  lemma MovedDistinct(l: Recent, e: Entry)
    requires DistinctKeys(l)
    ensures DistinctKeys(Without(l, e.key) + [e])
  {
    WithoutDistinct(l, e.key);
    FindWithout(l, e.key, e.key);
    AppendDistinct(Without(l, e.key), e);
  }

  lemma {:induction false} TotalSizeAppend(a: Recent, b: Recent)
    ensures TotalSize(a + b) == TotalSize(a) + TotalSize(b)
  {
    if a == [] {
      assert a + b == b;
    } else {
      assert (a + b)[1..] == a[1..] + b;
      TotalSizeAppend(a[1..], b);
    }
  }

  lemma {:induction false} TotalSizeDrop(l: Recent, p: nat)
    requires p < |l|
    ensures TotalSize(DropAt(l, p)) + Size(l[p]) == TotalSize(l)
  {
    if p == 0 {
      assert DropAt(l, 0) == l[1..];
    } else {
      assert DropAt(l, p)[1..] == DropAt(l[1..], p - 1);
      TotalSizeDrop(l[1..], p - 1);
    }
  }

  lemma {:induction false} WithoutSize(l: Recent, key: Bytes)
    requires DistinctKeys(l)
    ensures TotalSize(Without(l, key)) + (match Find(l, key)
                                          case None => 0
                                          case Some(e) => Size(e)) == TotalSize(l)
  {
    if l != [] {
      WithoutSize(l[1..], key);
      if l[0].key == key {
        WithoutAbsent(l[1..], key);
      }
      var w := Without(l[1..], key);
      assert Without(l, key) == if l[0].key == key then w else [l[0]] + w;
      assert ([l[0]] + w)[1..] == w;
    }
  }

  // Moving an entry to the end, or replacing it there, changes the total by the difference in size.
  lemma MovedSize(l: Recent, p: nat)
    requires p < |l|
    ensures TotalSize(DropAt(l, p) + [l[p]]) == TotalSize(l)
  {
    OverwrittenSize(l, p, l[p]);
  }

  lemma OverwrittenSize(l: Recent, p: nat, e: Entry)
    requires p < |l|
    ensures TotalSize(DropAt(l, p) + [e]) + Size(l[p]) == TotalSize(l) + Size(e)
  {
    TotalSizeDrop(l, p);
    TotalSizeAppend(DropAt(l, p), [e]);
    SingleSize(e);
  }

  lemma SingleSize(e: Entry)
    ensures TotalSize([e]) == Size(e)
  {
    assert [e][1..] == [];
  }

  lemma DeadlineKeepsSize(l: Recent, p: nat, deadline: nat)
    requires p < |l|
    ensures TotalSize(l[p := l[p].(deadline := Some(deadline))]) == TotalSize(l)
  {
    var l' := l[p := l[p].(deadline := Some(deadline))];
    assert DropAt(l', p) == DropAt(l, p);
    TotalSizeDrop(l, p);
    TotalSizeDrop(l', p);
  }

  // Dropping an expired entry takes one expired entry away and no survivor.
  lemma {:induction false} SurvivorsDrop(l: Recent, p: nat, now: nat)
    requires p < |l| && Expired(l[p], now)
    ensures Survivors(DropAt(l, p), now) == Survivors(l, now)
    ensures ExpiredCount(DropAt(l, p), now) + 1 == ExpiredCount(l, now)
  {
    if p == 0 {
      assert DropAt(l, 0) == l[1..];
    } else {
      assert DropAt(l, p)[1..] == DropAt(l[1..], p - 1);
      SurvivorsDrop(l[1..], p - 1, now);
    }
  }

  lemma {:induction false} SurvivorsAll(l: Recent, now: nat)
    requires forall i :: 0 <= i < |l| ==> !Expired(l[i], now)
    ensures Survivors(l, now) == l && ExpiredCount(l, now) == 0
  {
    if l != [] {
      SurvivorsAll(l[1..], now);
    }
  }

  // A sweep filters: parts of the list are swept on their own and stay in order.
  lemma {:induction false} SurvivorsAppend(a: Recent, b: Recent, now: nat)
    ensures Survivors(a + b, now) == Survivors(a, now) + Survivors(b, now)
  {
    if a == [] {
      assert a + b == b;
    } else {
      assert (a + b)[1..] == a[1..] + b;
      SurvivorsAppend(a[1..], b, now);
      Assoc(if Expired(a[0], now) then [] else [a[0]], Survivors(a[1..], now), Survivors(b, now));
    }
  }

  function ExpiredSize(l: Recent, now: nat): nat {
    if l == [] then 0 else (if Expired(l[0], now) then Size(l[0]) else 0) + ExpiredSize(l[1..], now)
  }

  // It removes exactly the expired entries, and its count and freed bytes are theirs.
  lemma {:induction false} SweepExact(l: Recent, now: nat)
    ensures forall e :: e in Survivors(l, now) <==> e in l && !Expired(e, now)
    ensures |Survivors(l, now)| + ExpiredCount(l, now) == |l|
    ensures TotalSize(Survivors(l, now)) + ExpiredSize(l, now) == TotalSize(l)
  {
    if l != [] {
      SweepExact(l[1..], now);
      var w := Survivors(l[1..], now);
      assert Survivors(l, now) == if Expired(l[0], now) then w else [l[0]] + w;
      assert ([l[0]] + w)[1..] == w;
      assert forall e :: e in l <==> e == l[0] || e in l[1..];
    }
  }

  // Two entries that survive keep their order.
  lemma SurvivorsKeepOrder(a: Recent, x: Entry, b: Recent, y: Entry, c: Recent, now: nat)
    requires !Expired(x, now) && !Expired(y, now)
    ensures Survivors(a + [x] + b + [y] + c, now) ==
            Survivors(a, now) + [x] + Survivors(b, now) + [y] + Survivors(c, now)
  {
    assert [x][1..] == [] && [y][1..] == [];
    assert Survivors([x], now) == [x] && Survivors([y], now) == [y];
    SurvivorsAppend(a, [x], now);
    SurvivorsAppend(a + [x], b, now);
    SurvivorsAppend(a + [x] + b, [y], now);
    SurvivorsAppend(a + [x] + b + [y], c, now);
  }
}
