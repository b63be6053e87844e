/**
 Eviction order. Over any run, the list of every shard is exactly the recency order of its keys, as
 defined from the history alone; eviction takes a prefix of it, and with one shard what survives a
 set is the longest suffix that fits the budget.
 */
module Lru {
  import opened Base
  import opened Recency
  import opened Cache
  import opened PlainStore

  // ---------------------------------------------------------------------------------------
  // History.

  datatype Fact = Fact(op: Op, answer: Answer)

  function After(cfg: Config, c: Cache, events: seq<Event>): (r: Cache)
    requires WellFormed(cfg, c)
    ensures WellFormed(cfg, r)
  {
    if events == [] then c
    else
      var last := events[|events| - 1];
      Step(cfg, After(cfg, c, events[..|events| - 1]), last.op, last.now).0
  }

  function History(cfg: Config, c: Cache, events: seq<Event>): (r: seq<Fact>)
    requires WellFormed(cfg, c)
    ensures |r| == |events|
  {
    if events == [] then []
    else
      var before, last := events[..|events| - 1], events[|events| - 1];
      History(cfg, c, before) + [Fact(last.op, Step(cfg, After(cfg, c, before), last.op, last.now).1)]
  }

  // A set, or a get that hit. Reading or setting a deadline is not a use.
  predicate Uses(f: Fact, key: Bytes) {
    || (f.op.Set? && f.op.key == key)
    || (f.op.Get? && f.op.key == key && f.answer.Value? && f.answer.value.Some?)
  }

  // When `key` was last used, counting operations from zero; -1 if it never was.
  function LastUse(facts: seq<Fact>, key: Bytes): (r: int)
    ensures -1 <= r < |facts|
  {
    if facts == [] then -1
    else if Uses(facts[|facts| - 1], key) then |facts| - 1
    else LastUse(facts[..|facts| - 1], key)
  }

  lemma LastUseAppend(facts: seq<Fact>, f: Fact, key: Bytes)
    ensures LastUse(facts + [f], key) == if Uses(f, key) then |facts| else LastUse(facts, key)
  {
    assert (facts + [f])[..|facts|] == facts;
  }

  // The keys of a shard belong there and ascend by last use, all of them used after `lo`.
  ghost predicate Tidy(cfg: Config, i: nat, l: Recent, facts: seq<Fact>, lo: int)
    decreases |l|
  {
    l == [] || (
      && ShardOf(cfg, l[0].key) == i
      && lo < LastUse(facts, l[0].key)
      && Tidy(cfg, i, l[1..], facts, LastUse(facts, l[0].key)))
  }

  lemma {:induction false} TidyWeaken(cfg: Config, i: nat, l: Recent, facts: seq<Fact>, lo: int, lower: int)
    requires Tidy(cfg, i, l, facts, lo) && lower <= lo
    ensures Tidy(cfg, i, l, facts, lower)
  {
  }

  lemma {:induction false} TidyWithout(cfg: Config, i: nat, l: Recent, facts: seq<Fact>, lo: int, key: Bytes)
    requires Tidy(cfg, i, l, facts, lo)
    ensures Tidy(cfg, i, Without(l, key), facts, lo)
    decreases |l|
  {
    if l != [] {
      var w, use := Without(l[1..], key), LastUse(facts, l[0].key);
      TidyWithout(cfg, i, l[1..], facts, use, key);
      TidyWeaken(cfg, i, w, facts, use, lo);
      assert Without(l, key) == if l[0].key == key then w else [l[0]] + w;
      assert ([l[0]] + w)[1..] == w;
    }
  }

  lemma {:induction false} TidySurvivors(cfg: Config, i: nat, l: Recent, facts: seq<Fact>, lo: int, now: nat)
    requires Tidy(cfg, i, l, facts, lo)
    ensures Tidy(cfg, i, Survivors(l, now), facts, lo)
    decreases |l|
  {
    if l != [] {
      var w, use := Survivors(l[1..], now), LastUse(facts, l[0].key);
      TidySurvivors(cfg, i, l[1..], facts, use, now);
      TidyWeaken(cfg, i, w, facts, use, lo);
      assert Survivors(l, now) == if Expired(l[0], now) then w else [l[0]] + w;
      assert ([l[0]] + w)[1..] == w;
    }
  }

  lemma {:induction false} TidyDeadline(cfg: Config, i: nat, l: Recent, facts: seq<Fact>, lo: int, key: Bytes,
                                        deadline: nat)
    requires Tidy(cfg, i, l, facts, lo)
    ensures Tidy(cfg, i, WithDeadline(l, key, deadline), facts, lo)
    decreases |l|
  {
    if l != [] {
      TidyDeadline(cfg, i, l[1..], facts, LastUse(facts, l[0].key), key, deadline);
      assert WithDeadline(l, key, deadline)[1..] == WithDeadline(l[1..], key, deadline);
    }
  }

  // A new fact does not disturb a shard that lacks the key it uses.
  lemma {:induction false} TidyNewFact(cfg: Config, i: nat, l: Recent, facts: seq<Fact>, lo: int, f: Fact)
    requires Tidy(cfg, i, l, facts, lo)
    requires f.op.Purge? || Find(l, f.op.key).None? || !Uses(f, f.op.key)
    ensures Tidy(cfg, i, l, facts + [f], lo)
    decreases |l|
  {
    if l != [] {
      LastUseAppend(facts, f, l[0].key);
      TidyNewFact(cfg, i, l[1..], facts, LastUse(facts, l[0].key), f);
    }
  }

  // The entry just used goes last.
  lemma {:induction false} TidyAppend(cfg: Config, i: nat, l: Recent, facts: seq<Fact>, lo: int, f: Fact, e: Entry)
    requires Tidy(cfg, i, l, facts, lo) && lo < |facts|
    requires !f.op.Purge? && Uses(f, e.key) && Find(l, e.key).None? && ShardOf(cfg, e.key) == i
    ensures Tidy(cfg, i, l + [e], facts + [f], lo)
    decreases |l|
  {
    LastUseAppend(facts, f, e.key);
    if l == [] {
      assert (l + [e])[1..] == [];
    } else {
      LastUseAppend(facts, f, l[0].key);
      TidyAppend(cfg, i, l[1..], facts, LastUse(facts, l[0].key), f, e);
      assert (l + [e])[1..] == l[1..] + [e];
    }
  }

  lemma {:induction false} ForeignKeyAbsent(cfg: Config, i: nat, l: Recent, facts: seq<Fact>, lo: int, key: Bytes)
    requires Tidy(cfg, i, l, facts, lo) && ShardOf(cfg, key) != i
    ensures Find(l, key).None?
    decreases |l|
  {
    if l != [] {
      ForeignKeyAbsent(cfg, i, l[1..], facts, LastUse(facts, l[0].key), key);
    }
  }

  ghost predicate AllTidy(cfg: Config, c: Cache, facts: seq<Fact>) {
    forall i :: 0 <= i < |c.shards| ==> Tidy(cfg, i, c.shards[i], facts, -1)
  }

  // The shard an operation works on.
  lemma OnShardTidy(cfg: Config, i: nat, l: Recent, facts: seq<Fact>, op: Op, now: nat)
    requires Tidy(cfg, i, l, facts, -1) && !op.Purge? && ShardOf(cfg, op.key) == i
    ensures Tidy(cfg, i, OnShard(l, op, now).0, facts + [Fact(op, OnShard(l, op, now).1)], -1)
  {
    var f := Fact(op, OnShard(l, op, now).1);
    TidyWithout(cfg, i, l, facts, -1, op.key);
    FindWithout(l, op.key, op.key);
    var w := Without(l, op.key);
    match op
    case Get(key) =>
      match Live(l, key, now) {
        case Some(e) => TidyAppend(cfg, i, w, facts, -1, f, e);
        case None => TidyNewFact(cfg, i, w, facts, -1, f);
      }
    case Set(key, value) => TidyAppend(cfg, i, w, facts, -1, f, Entry(key, value, None));
    case Delete(key) => TidyNewFact(cfg, i, w, facts, -1, f);
    case Expire(key, ttl) =>
      TidyNewFact(cfg, i, w, facts, -1, f);
      TidyNewFact(cfg, i, l, facts, -1, f);
      TidyDeadline(cfg, i, l, facts + [f], -1, key, now + ttl);
    case Ttl(key) =>
      TidyNewFact(cfg, i, w, facts, -1, f);
      TidyNewFact(cfg, i, l, facts, -1, f);
  }

  lemma {:induction false} EvictTidy(cfg: Config, c: Cache, facts: seq<Fact>)
    requires WellFormed(cfg, c) && AllTidy(cfg, c, facts)
    ensures AllTidy(cfg, Evict(cfg, c), facts)
    decreases StoredCount(c.shards)
  {
    if OverBudget(cfg, c) {
      BytesNeedEntries(c.shards);
      ScanFindsVictim(cfg, c);
      var v := Scan(cfg, c.shards, c.cursor, 0).value;
      TidyWeaken(cfg, v, c.shards[v][1..], facts, LastUse(facts, c.shards[v][0].key), -1);
      EvictTidy(cfg, EvictOne(cfg, c), facts);
    }
  }

  lemma LockedTidy(cfg: Config, c: Cache, facts: seq<Fact>, op: Op, now: nat)
    requires WellFormed(cfg, c) && AllTidy(cfg, c, facts) && !op.Purge?
    ensures AllTidy(cfg, Locked(cfg, c, op, now), facts + [Fact(op, Step(cfg, c, op, now).1)])
  {
    var s, c', f := ShardOf(cfg, op.key), Locked(cfg, c, op, now), Fact(op, Step(cfg, c, op, now).1);
    forall i | 0 <= i < |c'.shards| ensures Tidy(cfg, i, c'.shards[i], facts + [f], -1) {
      if i == s {
        OnShardTidy(cfg, i, c.shards[i], facts, op, now);
      } else {
        ForeignKeyAbsent(cfg, i, c.shards[i], facts, -1, op.key);
        TidyNewFact(cfg, i, c.shards[i], facts, -1, f);
      }
    }
  }

  lemma StepTidy(cfg: Config, c: Cache, facts: seq<Fact>, op: Op, now: nat)
    requires WellFormed(cfg, c) && AllTidy(cfg, c, facts)
    ensures AllTidy(cfg, Step(cfg, c, op, now).0, facts + [Fact(op, Step(cfg, c, op, now).1)])
  {
    var facts' := facts + [Fact(op, Step(cfg, c, op, now).1)];
    if op.Purge? {
      forall i | 0 <= i < |c.shards| ensures Tidy(cfg, i, Survivors(c.shards[i], op.asOf), facts', -1) {
        TidySurvivors(cfg, i, c.shards[i], facts, -1, op.asOf);
        TidyNewFact(cfg, i, Survivors(c.shards[i], op.asOf), facts, -1, Fact(op, Step(cfg, c, op, now).1));
      }
    } else {
      LockedTidy(cfg, c, facts, op, now);
      if op.Set? {
        EvictTidy(cfg, Locked(cfg, c, op, now), facts');
      }
    }
  }

  lemma {:induction false} RunTidy(cfg: Config, events: seq<Event>)
    requires Startable(cfg)
    ensures WellFormed(cfg, Empty(cfg))
    ensures AllTidy(cfg, After(cfg, Empty(cfg), events), History(cfg, Empty(cfg), events))
  {
    EmptySimulates(cfg);
    if events != [] {
      var before, last := events[..|events| - 1], events[|events| - 1];
      RunTidy(cfg, before);
      StepTidy(cfg, After(cfg, Empty(cfg), before), History(cfg, Empty(cfg), before), last.op, last.now);
    }
  }

  lemma {:induction false} TidyAscends(cfg: Config, i: nat, l: Recent, facts: seq<Fact>, lo: int, b: nat)
    requires Tidy(cfg, i, l, facts, lo) && b < |l|
    ensures lo < LastUse(facts, l[b].key) && ShardOf(cfg, l[b].key) == i
    decreases |l|
  {
    if b > 0 {
      TidyAscends(cfg, i, l[1..], facts, LastUse(facts, l[0].key), b - 1);
    }
  }

  lemma {:induction false} TidyPairs(cfg: Config, i: nat, l: Recent, facts: seq<Fact>, lo: int, a: nat, b: nat)
    requires Tidy(cfg, i, l, facts, lo) && a < b < |l|
    ensures LastUse(facts, l[a].key) < LastUse(facts, l[b].key)
    decreases |l|
  {
    if a == 0 {
      TidyAscends(cfg, i, l[1..], facts, LastUse(facts, l[0].key), b - 1);
    } else {
      TidyPairs(cfg, i, l[1..], facts, LastUse(facts, l[0].key), a - 1, b - 1);
    }
  }

  // After any run of any engine every stored key sits in its own shard and was really used.
  lemma StoredKeysWereUsed(cfg: Config, events: seq<Event>, i: nat, a: nat)
    requires Startable(cfg) && WellFormed(cfg, Empty(cfg))
    requires i < |After(cfg, Empty(cfg), events).shards| && a < |After(cfg, Empty(cfg), events).shards[i]|
    ensures var key := After(cfg, Empty(cfg), events).shards[i][a].key;
            ShardOf(cfg, key) == i && LastUse(History(cfg, Empty(cfg), events), key) >= 0
  {
    RunTidy(cfg, events);
    TidyAscends(cfg, i, After(cfg, Empty(cfg), events).shards[i], History(cfg, Empty(cfg), events), -1, a);
  }

  // And every shard's list is in strict order of last use, oldest first.
  lemma ListsAreRecencyOrder(cfg: Config, events: seq<Event>, i: nat, a: nat, b: nat)
    requires Startable(cfg) && WellFormed(cfg, Empty(cfg))
    requires i < |After(cfg, Empty(cfg), events).shards| && a < b < |After(cfg, Empty(cfg), events).shards[i]|
    ensures var l, facts := After(cfg, Empty(cfg), events).shards[i], History(cfg, Empty(cfg), events);
            LastUse(facts, l[a].key) < LastUse(facts, l[b].key)
  {
    RunTidy(cfg, events);
    var l, facts := After(cfg, Empty(cfg), events).shards[i], History(cfg, Empty(cfg), events);
    TidyPairs(cfg, i, l, facts, -1, a, b);
  }

  // ---------------------------------------------------------------------------------------
  // What eviction removes.

  // Eviction removes a prefix of every shard's list.
  lemma {:induction false} EvictTakesPrefixes(cfg: Config, c: Cache, i: nat) returns (k: nat)
    requires WellFormed(cfg, c) && i < |c.shards|
    ensures k <= |c.shards[i]| && Evict(cfg, c).shards[i] == c.shards[i][k..]
    decreases StoredCount(c.shards)
  {
    if OverBudget(cfg, c) {
      BytesNeedEntries(c.shards);
      ScanFindsVictim(cfg, c);
      var v := Scan(cfg, c.shards, c.cursor, 0).value;
      k := EvictTakesPrefixes(cfg, EvictOne(cfg, c), i);
      if i == v {
        assert c.shards[i][1..][k..] == c.shards[i][k + 1..];
        k := k + 1;
      }
    } else {
      k := 0;
    }
  }

  // It stops as soon as it can: shard `i` lost its first k + 1 entries, and with the last of them back
  // the budget would be exceeded.
  lemma {:induction false} EvictStopsInTime(cfg: Config, c: Cache) returns (i: nat, k: nat)
    requires WellFormed(cfg, c) && OverBudget(cfg, c)
    ensures i < |c.shards| && k < |c.shards[i]|
    ensures Evict(cfg, c).shards[i] == c.shards[i][k + 1..]
    ensures StoredBytes(Evict(cfg, c).shards) + Size(c.shards[i][k]) > cfg.maxBytes
    decreases StoredCount(c.shards)
  {
    BytesNeedEntries(c.shards);
    ScanFindsVictim(cfg, c);
    var v := Scan(cfg, c.shards, c.cursor, 0).value;
    var l, c' := c.shards[v], EvictOne(cfg, c);
    StoredUpdate(c.shards, v, l[1..]);
    if OverBudget(cfg, c') {
      i, k := EvictStopsInTime(cfg, c');
      if i == v {
        assert l[1..][k + 1..] == l[k + 2..];
        k := k + 1;
      }
    } else {
      i, k := v, 0;
    }
  }

  // The longest suffix of a list within a budget.
  ghost predicate LongestFitting(l: Recent, max: nat, r: Recent, k: nat) {
    && k <= |l| && r == l[k..]
    && TotalSize(r) <= max
    && forall j :: 0 <= j < k ==> TotalSize(l[j..]) > max
  }

  // With one shard, what eviction leaves is exactly the longest recency suffix that fits.
  lemma {:induction false} OneShardKeepsLongestSuffix(cfg: Config, c: Cache) returns (k: nat)
    requires WellFormed(cfg, c) && |c.shards| == 1 && !Unlimited(cfg)
    ensures LongestFitting(c.shards[0], cfg.maxBytes, Evict(cfg, c).shards[0], k)
    decreases StoredCount(c.shards)
  {
    var l := c.shards[0];
    assert StoredBytes(c.shards) == TotalSize(l) by { OneShardBytes(c.shards); }
    if OverBudget(cfg, c) {
      BytesNeedEntries(c.shards);
      ScanFindsVictim(cfg, c);
      k := OneShardKeepsLongestSuffix(cfg, EvictOne(cfg, c));
      assert l[1..][k..] == l[k + 1..];
      forall j | 0 <= j < k + 1 ensures TotalSize(l[j..]) > cfg.maxBytes {
        if j > 0 {
          assert l[1..][j - 1..] == l[j..];
        } else {
          assert l[0..] == l;
        }
      }
      k := k + 1;
    } else {
      k := 0;
      assert l[0..] == l;
    }
  }

  lemma OneShardBytes(shards: seq<Recent>)
    requires |shards| == 1
    ensures StoredBytes(shards) == TotalSize(shards[0])
  {
    assert shards[1..] == [];
    assert SumBy(TotalSize, shards) == TotalSize(shards[0]) + SumBy(TotalSize, shards[1..]);
  }

  // A set on a one-shard engine: the new entry goes last, and the longest fitting suffix survives.
  lemma SetKeepsLongestSuffix(cfg: Config, c: Cache, key: Bytes, value: Bytes, now: nat) returns (k: nat)
    requires WellFormed(cfg, c) && |c.shards| == 1 && !Unlimited(cfg)
    ensures LongestFitting(Without(c.shards[0], key) + [Entry(key, value, None)], cfg.maxBytes,
                           Step(cfg, c, Set(key, value), now).0.shards[0], k)
  {
    k := OneShardKeepsLongestSuffix(cfg, Locked(cfg, c, Set(key, value), now));
  }
}
